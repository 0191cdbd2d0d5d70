/** Comments and trailing commas taken out of a JSON text, and nothing else. */
module Jsonc {
  import opened Text
  import opened Collections

  // -------------------------------------------------------- what is scanned --

  /** How much of `s` -- what follows an opening quote -- the literal takes. */
  function LiteralLength(s: string): (n: nat)
    ensures n <= |s|
  {
    if s == "" then 0
    else if s[0] == '\\' && |s| > 1 then 2 + LiteralLength(s[2..])
    else if s[0] == '"' then 1
    else 1 + LiteralLength(s[1..])
  }

  /** How much of `s` is before the end of its first line. */
  function LineLength(s: string): (n: nat)
    ensures n <= |s|
  {
    if s == "" || s[0] == '\n' then 0 else 1 + LineLength(s[1..])
  }

  /** How much of `s` -- what follows the start of a block comment -- is comment. */
  function BlockLength(s: string): (n: nat)
    ensures n <= |s|
  {
    if s == "" then 0
    else if s[0] == '*' && |s| > 1 && s[1] == '/' then 2
    else 1 + BlockLength(s[1..])
  }

  function SpaceLength(s: string): (n: nat)
    ensures n <= |s|
  {
    if s == "" || !IsSpace(s[0]) then 0 else 1 + SpaceLength(s[1..])
  }

  function Uncommented(s: string): string
    decreases |s|
  {
    if s == "" then ""
    else if s[0] == '"' then
      var n := 1 + LiteralLength(s[1..]);
      s[..n] + Uncommented(s[n..])
    else if s[0] == '/' && |s| > 1 && s[1] == '/' then Uncommented(s[LineLength(s)..])
    else if s[0] == '/' && |s| > 1 && s[1] == '*' then Uncommented(s[2 + BlockLength(s[2..])..])
    else [s[0]] + Uncommented(s[1..])
  }

  predicate IsCloser(c: char) { c == '}' || c == ']' }

  /** The first character of `s` that is no space closes an object or an array. */
  predicate ClosesNext(s: string) {
    var n := SpaceLength(s);
    n < |s| && IsCloser(s[n])
  }

  function WithoutTrailingCommas(s: string): string
    decreases |s|
  {
    if s == "" then ""
    else if s[0] == '"' then
      var n := 1 + LiteralLength(s[1..]);
      s[..n] + WithoutTrailingCommas(s[n..])
    else if s[0] == ',' && ClosesNext(s[1..]) then WithoutTrailingCommas(s[1..])
    else [s[0]] + WithoutTrailingCommas(s[1..])
  }

  function Stripped(s: string): string {
    WithoutTrailingCommas(Uncommented(s))
  }

  // ------------------------------------------------------------- the scanners --

  /** Where a string literal whose quote opens at `from` ends. */
  method SkipLiteral(text: string, from: nat) returns (i: nat)
    requires from < |text| && text[from] == '"'
    ensures i == from + 1 + LiteralLength(text[from + 1..])
  {
    i := from + 1;
    while i < |text|
      invariant from < i <= |text|
      invariant from + 1 + LiteralLength(text[from + 1..]) == i + LiteralLength(text[i..])
    {
      if text[i] == '\\' && i + 1 < |text| {
        assert text[i..][2..] == text[i + 2..];
        i := i + 2;
        continue;
      }
      if text[i] == '"' {
        i := i + 1;
        return;
      }
      assert text[i..][1..] == text[i + 1..];
      i := i + 1;
    }
  }

  method SkipLine(text: string, from: nat) returns (i: nat)
    requires from <= |text|
    ensures i == from + LineLength(text[from..])
  {
    i := from;
    while i < |text| && text[i] != '\n'
      invariant from <= i <= |text|
      invariant from + LineLength(text[from..]) == i + LineLength(text[i..])
    {
      assert text[i..][1..] == text[i + 1..];
      i := i + 1;
    }
  }

  /** Past the end of the text, for a block comment nothing closes. */
  method SkipBlock(text: string, from: nat) returns (i: nat)
    requires from + 2 <= |text|
    ensures (if i <= |text| then i else |text|) == from + 2 + BlockLength(text[from + 2..])
  {
    i := from + 2;
    while i < |text| && !(text[i] == '*' && i + 1 < |text| && text[i + 1] == '/')
      invariant from + 2 <= i <= |text|
      invariant from + 2 + BlockLength(text[from + 2..]) == i + BlockLength(text[i..])
    {
      assert text[i..][1..] == text[i + 1..];
      i := i + 1;
    }
    i := i + 2;
  }

  /** What is left to do at `i`, past the end included. */
  function UncommentedFrom(text: string, i: nat): string {
    if i <= |text| then Uncommented(text[i..]) else ""
  }

  lemma LiteralIsKept(text: string, i: nat, j: nat)
    requires i < |text| && text[i] == '"' && j == i + 1 + LiteralLength(text[i + 1..])
    ensures UncommentedFrom(text, i) == text[i..j] + UncommentedFrom(text, j)
  {
    var rest := text[i..];
    assert rest[1..] == text[i + 1..];
    assert rest[..j - i] == text[i..j];
    assert rest[j - i..] == text[j..];
  }

  predicate CommentAt(text: string, i: nat, second: char) {
    i + 1 < |text| && text[i] == '/' && text[i + 1] == second
  }

  lemma LineIsDropped(text: string, i: nat, j: nat)
    requires CommentAt(text, i, '/') && j == i + LineLength(text[i..])
    ensures i < j && UncommentedFrom(text, i) == UncommentedFrom(text, j)
  {
    var rest := text[i..];
    assert rest[j - i..] == text[j..];
  }

  lemma BlockIsDropped(text: string, i: nat, j: nat)
    requires CommentAt(text, i, '*') && (if j <= |text| then j else |text|) == i + 2 + BlockLength(text[i + 2..])
    ensures UncommentedFrom(text, i) == UncommentedFrom(text, j)
  {
    var rest, end := text[i..], if j <= |text| then j else |text|;
    assert rest[2..] == text[i + 2..] && rest[end - i..] == text[end..];
    assert Uncommented(rest) == UncommentedFrom(text, end);
    NothingAtTheEnd(text, end);
    NothingAtTheEnd(text, j);
  }

  lemma CharacterIsKept(text: string, i: nat)
    requires i < |text| && text[i] != '"' && !CommentAt(text, i, '/') && !CommentAt(text, i, '*')
    ensures UncommentedFrom(text, i) == [text[i]] + UncommentedFrom(text, i + 1)
  {
    assert text[i..][1..] == text[i + 1..];
  }

  lemma NothingAtTheEnd(text: string, i: nat)
    ensures |text| <= i ==> UncommentedFrom(text, i) == ""
  {
    assert i == |text| ==> text[i..] == "";
  }

  /** What stands at `i` -- a literal, a comment, a character -- and what of it is kept. */
  method Next(text: string, i: nat) returns (j: nat, copied: string)
    requires i < |text|
    ensures i < j && UncommentedFrom(text, i) == copied + UncommentedFrom(text, j)
  {
    var c, n := text[i], |text|;
    if c == '"' {
      j := SkipLiteral(text, i);
      LiteralIsKept(text, i, j);
      return j, text[i..j];
    }
    if c == '/' && i + 1 < n && text[i + 1] == '/' {
      j := SkipLine(text, i);
      LineIsDropped(text, i, j);
      return j, "";
    }
    if c == '/' && i + 1 < n && text[i + 1] == '*' {
      j := SkipBlock(text, i);
      BlockIsDropped(text, i, j);
      return j, "";
    }
    CharacterIsKept(text, i);
    return i + 1, [c];
  }

  method Uncomment(text: string) returns (out: string)
    ensures out == Uncommented(text)
  {
    out := "";
    var i := 0;
    assert text[0..] == text;
    while i < |text|
      invariant out + UncommentedFrom(text, i) == Uncommented(text)
      decreases |text| - i
    {
      var j, copied := Next(text, i);
      Regroup(out, copied, UncommentedFrom(text, j));
      out := out + copied;
      i := j;
    }
    NothingAtTheEnd(text, i);
  }

  /** Strip comments and trailing commas. */
  method Strip(text: string) returns (r: string)
    ensures r == Stripped(text)
  {
    var out := Uncomment(text);
    r := RemoveTrailingCommas(out);
  }

  function WithoutFrom(text: string, i: nat): string
    requires i <= |text|
  {
    WithoutTrailingCommas(text[i..])
  }

  lemma LiteralStays(text: string, i: nat, j: nat)
    requires i < |text| && text[i] == '"' && j == i + 1 + LiteralLength(text[i + 1..])
    ensures WithoutFrom(text, i) == text[i..j] + WithoutFrom(text, j)
  {
    var rest := text[i..];
    assert rest[1..] == text[i + 1..];
    assert rest[..j - i] == text[i..j];
    assert rest[j - i..] == text[j..];
  }

  /** A comma goes if `j`, past the space after it, is at a closing bracket. */
  lemma CommaMayGo(text: string, i: nat, j: nat)
    requires i < |text| && text[i] == ',' && j == i + 1 + SpaceLength(text[i + 1..])
    ensures WithoutFrom(text, i)
         == (if j < |text| && IsCloser(text[j]) then "" else ",") + WithoutFrom(text, i + 1)
  {
    var rest := text[i + 1..];
    assert text[i..][1..] == rest;
    assert j < |text| ==> rest[j - i - 1] == text[j];
  }

  lemma OtherStays(text: string, i: nat)
    requires i < |text| && text[i] != '"' && text[i] != ','
    ensures WithoutFrom(text, i) == [text[i]] + WithoutFrom(text, i + 1)
  {
    assert text[i..][1..] == text[i + 1..];
  }

  method SkipSpace(text: string, from: nat) returns (j: nat)
    requires from <= |text|
    ensures j == from + SpaceLength(text[from..])
  {
    j := from;
    while j < |text| && IsSpace(text[j])
      invariant from <= j <= |text|
      invariant from + SpaceLength(text[from..]) == j + SpaceLength(text[j..])
    {
      assert text[j..][1..] == text[j + 1..];
      j := j + 1;
    }
  }

  method RemoveTrailingCommas(text: string) returns (out: string)
    ensures out == WithoutTrailingCommas(text)
  {
    out := "";
    var i, n := 0, |text|;
    assert text[0..] == text;
    while i < n
      invariant i <= n
      invariant out + WithoutFrom(text, i) == WithoutTrailingCommas(text)
    {
      var c := text[i];
      if c == '"' {
        var end := SkipLiteral(text, i);
        LiteralStays(text, i, end);
        Regroup(out, text[i..end], WithoutFrom(text, end));
        out := out + text[i..end];
        i := end;
        continue;
      }
      if c == ',' {
        var j := SkipSpace(text, i + 1);
        CommaMayGo(text, i, j);
        if j < n && IsCloser(text[j]) {
          assert "" + WithoutFrom(text, i + 1) == WithoutFrom(text, i + 1);
          i := i + 1;
          continue;
        }
      } else {
        OtherStays(text, i);
      }
      Regroup(out, [c], WithoutFrom(text, i + 1));
      out := out + [c];
      i := i + 1;
    }
  }
}
