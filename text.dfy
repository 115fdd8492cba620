/** The string operations the admission filter relies on. */
module Text {

  /** ASCII case folding of one character. */
  function LowerChar(c: char): char {
    if 'A' <= c <= 'Z' then (c as int + ('a' as int - 'A' as int)) as char else c
  }

  /** `str.lower()` restricted to ASCII letters. */
  function Lower(s: string): (r: string)
    ensures |r| == |s|
    ensures forall i :: 0 <= i < |s| ==> r[i] == LowerChar(s[i])
  {
    seq(|s|, i requires 0 <= i < |s| => LowerChar(s[i]))
  }

  /** `pat` occurs in `text` starting at index `i`. */
  predicate OccursAt(text: string, pat: string, i: int) {
    0 <= i <= |text| - |pat| && text[i..i + |pat|] == pat
  }

  /** Python's substring test `pat in text`. */
  predicate Contains(text: string, pat: string) {
    exists i | 0 <= i <= |text| - |pat| :: OccursAt(text, pat, i)
  }

  /** `any(k in text for k in keywords)`. */
  predicate AnyIn(keywords: seq<string>, text: string) {
    exists k :: k in keywords && Contains(text, k)
  }

  /** No keyword is listed twice. */
  predicate Distinct(keywords: seq<string>) {
    forall i, j :: 0 <= i < j < |keywords| ==> keywords[i] != keywords[j]
  }

  /** The keywords of a list that occur in `text`. */
  ghost function FoundSet(keywords: seq<string>, text: string): set<string> {
    set k | k in keywords && Contains(text, k)
  }

  /**
   * `[k for k in keywords if k in text]`: the keywords found in `text`,
   * in list order.
   */
  function Found(keywords: seq<string>, text: string): (r: seq<string>)
    ensures |r| <= |keywords|
    ensures forall k :: k in r <==> k in keywords && Contains(text, k)
  {
    if keywords == [] then []
    else (if Contains(text, keywords[0]) then [keywords[0]] else []) + Found(keywords[1..], text)
  }

  /**
   * For a list without repeats, the length of `Found` is the number of
   * distinct keywords present, so a keyword occurring twice counts once.
   */
  lemma {:induction false} FoundCountsDistinct(keywords: seq<string>, text: string)
    requires Distinct(keywords)
    ensures |Found(keywords, text)| == |FoundSet(keywords, text)|
  {
    if keywords != [] {
      var k, rest := keywords[0], keywords[1..];
      assert Distinct(rest) by {
        forall i, j | 0 <= i < j < |rest| ensures rest[i] != rest[j] {
          assert rest[i] == keywords[i + 1] && rest[j] == keywords[j + 1];
        }
      }
      FoundCountsDistinct(rest, text);
      assert k !in rest by {
        forall i | 0 <= i < |rest| ensures rest[i] != k {
          assert rest[i] == keywords[i + 1];
        }
      }
      var tail := FoundSet(rest, text);
      assert k !in tail;
      if Contains(text, k) {
        assert FoundSet(keywords, text) == {k} + tail;
      } else {
        assert FoundSet(keywords, text) == tail;
      }
    }
  }
}
