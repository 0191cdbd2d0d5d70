/** What the regular expressions of the program's own language mean by a character. */
module Text {
  /** `\s`. */
  predicate IsSpace(c: char) {
    || '\t' <= c <= '\r' || c == ' ' || c == '\U{00a0}' || c == '\U{1680}' || '\U{2000}' <= c <= '\U{200a}'
    || c == '\U{2028}' || c == '\U{2029}' || c == '\U{202f}' || c == '\U{205f}' || c == '\U{3000}' || c == '\U{feff}'
  }

  predicate IsDigit(c: char) { '0' <= c <= '9' }

  predicate IsAlnum(c: char) { 'a' <= c <= 'z' || 'A' <= c <= 'Z' || IsDigit(c) }

  predicate StartsWith(s: string, head: string) { head <= s }

  predicate EndsWith(s: string, tail: string) {
    |tail| <= |s| && s[|s| - |tail|..] == tail
  }

  /** `part` stands in `s` at `i`. */
  predicate At(s: string, part: string, i: int) {
    0 <= i <= |s| - |part| && forall j :: 0 <= j < |part| ==> s[i + j] == part[j]
  }

  predicate Contains(s: string, part: string) {
    exists i :: 0 <= i <= |s| && At(s, part, i)
  }

  ghost predicate Follows(s: string, a: char, b: char) {
    exists i :: 0 <= i < |s| - 1 && s[i] == a && s[i + 1] == b
  }

  lemma PairStandsExactly(s: string, pair: string)
    requires |pair| == 2
    ensures Contains(s, pair) <==> Follows(s, pair[0], pair[1])
  {
    if Follows(s, pair[0], pair[1]) {
      var i :| 0 <= i < |s| - 1 && s[i] == pair[0] && s[i + 1] == pair[1];
      assert At(s, pair, i);
    }
    if i :| 0 <= i <= |s| && At(s, pair, i) { assert s[i + 0] == pair[0] && s[i + 1] == pair[1]; }
  }
}
