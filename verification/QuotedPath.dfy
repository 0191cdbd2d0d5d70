/**
 * A path as git prints it, read back. git quotes bytes; what reads it walks the
 * UTF-16 units of a string. Text here is a sequence of those units, a path a
 * sequence of Unicode scalar values, and bytes are numbers below 256.
 */
module QuotedPath {
  import opened Collections
  import opened Wrappers

  type Units = seq<nat>
  type Bytes = seq<nat>

  const QUOTE := 34
  const BACKSLASH := 92
  const REPLACEMENT := 0xFFFD

  predicate Surrogate(u: nat) { 0xD800 <= u < 0xE000 }

  predicate Scalar(s: nat) { s < 0x110000 && !Surrogate(s) }

  predicate IsPath(p: seq<nat>) {
    forall s :: s in p ==> Scalar(s)
  }

  // --------------------------------------------------------------- encodings --

  function Utf8Of(s: nat): Bytes {
    if s < 0x80 then [s]
    else if s < 0x800 then [0xC0 + s / 64, 0x80 + s % 64]
    else if s < 0x10000 then [0xE0 + s / 4096, 0x80 + s / 64 % 64, 0x80 + s % 64]
    else [0xF0 + s / 262144, 0x80 + s / 4096 % 64, 0x80 + s / 64 % 64, 0x80 + s % 64]
  }

  function Utf8(p: seq<nat>): Bytes {
    if p == [] then [] else Utf8Of(p[0]) + Utf8(p[1..])
  }

  function Utf16Of(s: nat): Units {
    if s < 0x10000 then [s] else [0xD800 + (s - 0x10000) / 1024, 0xDC00 + (s - 0x10000) % 1024]
  }

  function Utf16(p: seq<nat>): Units {
    if p == [] then [] else Utf16Of(p[0]) + Utf16(p[1..])
  }

  /** The scalar the bytes at the head of `b` spell, going by the first of them. */
  function First(b: Bytes): Option<nat> {
    if |b| >= 1 && b[0] < 0x80 then Some(b[0])
    else if |b| >= 2 && 0xC0 <= b[0] < 0xE0 && b[1] >= 0x80 then Some((b[0] - 0xC0) * 64 + (b[1] - 0x80))
    else if |b| >= 3 && 0xE0 <= b[0] < 0xF0 && b[1] >= 0x80 && b[2] >= 0x80 then
      Some((b[0] - 0xE0) * 4096 + (b[1] - 0x80) * 64 + (b[2] - 0x80))
    else if |b| >= 4 && 0xF0 <= b[0] && b[1] >= 0x80 && b[2] >= 0x80 && b[3] >= 0x80 then
      Some((b[0] - 0xF0) * 262144 + (b[1] - 0x80) * 4096 + (b[2] - 0x80) * 64 + (b[3] - 0x80))
    else None
  }

  predicate Continues(b: Bytes, i: nat) {
    i < |b| && 0x80 <= b[i] < 0xC0
  }

  /** The second byte may go on with the first: no other form of a shorter scalar, no
   *  surrogate, and nothing past the last plane. */
  predicate Seconds(b: Bytes) {
    |b| > 1 && 0xC2 <= b[0] < 0xF5 && Continues(b, 1)
    && (b[0] == 0xE0 ==> b[1] >= 0xA0) && (b[0] == 0xED ==> b[1] < 0xA0)
    && (b[0] == 0xF0 ==> b[1] >= 0x90) && (b[0] == 0xF4 ==> b[1] < 0x90)
  }

  /** How many bytes that spell nothing are given up on at once: as far as they
   *  might have gone on to spell something. */
  function Hopeless(b: Bytes): (n: nat)
    requires b != []
    ensures 1 <= n <= |b|
  {
    if !Seconds(b) then 1
    else if b[0] < 0xE0 || !Continues(b, 2) then 2
    else if b[0] < 0xF0 || !Continues(b, 3) then 3
    else 4
  }

  /** The scalar values UTF-8 bytes stand for, with a replacement for bytes that stand
   *  for none. */
  function FromUtf8(b: Bytes): seq<nat>
    decreases |b|
  {
    if b == [] then []
    else
      var s := First(b).GetOr(0xD800);
      if Scalar(s) && Utf8Of(s) <= b then [s] + FromUtf8(b[|Utf8Of(s)|..])
      else [REPLACEMENT] + FromUtf8(b[Hopeless(b)..])
  }

  // ---------------------------------------------------- how git prints a path --

  /** The letter a named escape is written with. */
  function Named(s: nat): Option<nat> {
    match s
    case 7 => Some('a' as nat)
    case 8 => Some('b' as nat)
    case 9 => Some('t' as nat)
    case 10 => Some('n' as nat)
    case 11 => Some('v' as nat)
    case 12 => Some('f' as nat)
    case 13 => Some('r' as nat)
    case 34 => Some(34)
    case 92 => Some(92)
    case _ => None
  }

  /** Three octal digits. */
  function Octal(b: nat): Units {
    [BACKSLASH, 48 + b / 64 % 8, 48 + b / 8 % 8, 48 + b % 8]
  }

  function OctalAll(bytes: Bytes): Units {
    if bytes == [] then [] else Octal(bytes[0]) + OctalAll(bytes[1..])
  }

  /** `core.quotePath`, when it is on, has every byte past ASCII escaped too. */
  predicate IsQuoted(p: seq<nat>, quotePath: bool) {
    exists s :: s in p && MustBeQuoted(s, quotePath)
  }

  predicate MustBeQuoted(s: nat, quotePath: bool) {
    s < 32 || s == 127 || s == QUOTE || s == BACKSLASH || (quotePath && s >= 128)
  }

  function QuotedOf(s: nat, quotePath: bool): Units {
    if Named(s).Some? then [BACKSLASH, Named(s).value]
    else if s < 32 || s == 127 then Octal(s)
    else if quotePath && s >= 128 then OctalAll(Utf8Of(s))
    else Utf16Of(s)
  }

  function QuotedBody(p: seq<nat>, quotePath: bool): Units {
    if p == [] then [] else QuotedOf(p[0], quotePath) + QuotedBody(p[1..], quotePath)
  }

  ghost function Printed(p: seq<nat>, quotePath: bool): Units {
    if IsQuoted(p, quotePath) then [QUOTE] + QuotedBody(p, quotePath) + [QUOTE] else Utf16(p)
  }

  // --------------------------------------------------------- how it is read back --

  /** The bytes of one unit taken by itself: half a pair is no character. */
  function BytesOf(unit: nat): Bytes {
    if Surrogate(unit) then Utf8Of(REPLACEMENT) else Utf8Of(unit)
  }

  predicate IsOctal(u: nat) { 48 <= u <= 55 }

  function Meant(u: nat): Option<nat> {
    if u == 'a' as nat then Some(7) else if u == 'b' as nat then Some(8) else if u == 't' as nat then Some(9)
    else if u == 'n' as nat then Some(10) else if u == 'v' as nat then Some(11) else if u == 'f' as nat then Some(12)
    else if u == 'r' as nat then Some(13) else if u == 34 then Some(34) else if u == 92 then Some(92) else None
  }

  predicate OctalNext(s: Units) {
    |s| >= 4 && IsOctal(s[1]) && IsOctal(s[2]) && IsOctal(s[3])
  }

  function OctalValue(s: Units): nat
    requires OctalNext(s)
  {
    ((s[1] - 48) * 64 + (s[2] - 48) * 8 + (s[3] - 48)) % 256
  }

  /** What one escape or one unit gives, and how many units it takes. */
  datatype Item = Item(bytes: Bytes, length: nat)

  function Head(s: Units): (item: Item)
    requires s != []
    ensures 0 < item.length <= |s|
  {
    if s[0] != BACKSLASH then Item(BytesOf(s[0]), 1)
    else if OctalNext(s) then Item([OctalValue(s)], 4)
    else if |s| > 1 && Meant(s[1]).Some? then Item([Meant(s[1]).value], 2)
    else Item([BACKSLASH], 1)
  }

  function Unescaped(s: Units): Bytes
    decreases |s|
  {
    if s == [] then [] else Head(s).bytes + Unescaped(s[Head(s).length..])
  }

  predicate InQuotes(raw: Units) {
    |raw| >= 2 && raw[0] == QUOTE && raw[|raw| - 1] == QUOTE
  }

  /** The bytes between the quotes, escapes undone. */
  method UnquotedBytes(inner: Units) returns (bytes: Bytes)
    ensures bytes == Unescaped(inner)
  {
    bytes := [];
    var i := 0;
    while i < |inner|
      invariant 0 <= i <= |inner|
      invariant bytes + Unescaped(inner[i..]) == Unescaped(inner)
    {
      var rest := inner[i..];
      var next := 1;
      var pushed: Bytes;
      if rest[0] != BACKSLASH {
        pushed := BytesOf(rest[0]);
      } else if OctalNext(rest) {
        pushed := [OctalValue(rest)];
        next := 4;
      } else if |rest| > 1 && Meant(rest[1]).Some? {
        pushed := [Meant(rest[1]).value];
        next := 2;
      } else {
        pushed := [BACKSLASH];
      }
      assert Head(rest) == Item(pushed, next);
      assert rest[next..] == inner[i + next..];
      Regroup(bytes, pushed, Unescaped(rest[next..]));
      bytes := bytes + pushed;
      i := i + next;
    }
    assert inner[|inner|..] == [];
  }

  /** The path git printed: as it stands, or out of its quotes. */
  method UnquoteGitPath(raw: Units) returns (path: Units)
    ensures path == Unquoted(raw)
    ensures |raw| < 2 || raw[0] != '"' as nat || raw[|raw| - 1] != '"' as nat ==> path == raw
  {
    if !InQuotes(raw) { return raw; }
    var bytes := UnquotedBytes(raw[1..|raw| - 1]);
    return Utf16(FromUtf8(bytes));
  }

  function Unquoted(raw: Units): Units {
    if !InQuotes(raw) then raw else Utf16(FromUtf8(Unescaped(raw[1..|raw| - 1])))
  }

  // ------------------------------------------------------------- round trips --

  /** The six-bit digits of a scalar, put together again. */
  lemma Digits(s: nat)
    ensures s == s / 64 * 64 + s % 64
    ensures s == s / 4096 * 4096 + s / 64 % 64 * 64 + s % 64
    ensures s == s / 262144 * 262144 + s / 4096 % 64 * 4096 + s / 64 % 64 * 64 + s % 64
  {
    var t, u := s / 64, s / 64 / 64;
    assert u == s / 4096 && t == u * 64 + t % 64;
    assert u / 64 == s / 262144 && u == u / 64 * 64 + u % 64;
  }

  // ------------------------------------------------- the encodings, told apart --

  lemma ScalarsExactly(s: nat)
    ensures Scalar(s) <==> s <= 0x10FFFF && !(0xD800 <= s <= 0xDFFF)
  {
  }

  /** Section 3 of RFC 3629: one byte to four, the fewest there can be, seven, eleven,
   *  sixteen or twenty-one bits among them. */
  lemma Utf8Exactly(s: nat)
    requires Scalar(s)
    ensures var b := Utf8Of(s);
      && (s <= 0x7F ==> b == [s])
      && (0x80 <= s <= 0x7FF ==>
            |b| == 2 && 0xC2 <= b[0] <= 0xDF && 0x80 <= b[1] <= 0xBF && s == (b[0] - 0xC0) * 64 + (b[1] - 0x80))
      && (0x800 <= s <= 0xFFFF ==>
            && |b| == 3 && 0xE0 <= b[0] <= 0xEF && 0x80 <= b[1] <= 0xBF && 0x80 <= b[2] <= 0xBF
            && s == (b[0] - 0xE0) * 4096 + (b[1] - 0x80) * 64 + (b[2] - 0x80))
      && (0x10000 <= s ==>
            && |b| == 4 && 0xF0 <= b[0] <= 0xF4 && 0x80 <= b[1] <= 0xBF && 0x80 <= b[2] <= 0xBF && 0x80 <= b[3] <= 0xBF
            && s == (b[0] - 0xF0) * 262144 + (b[1] - 0x80) * 4096 + (b[2] - 0x80) * 64 + (b[3] - 0x80))
  {
    Digits(s);
  }

  /** Section 2.1 of RFC 2781: a unit, or half of what is past the first plane in each of two. */
  lemma Utf16Exactly(s: nat)
    requires Scalar(s)
    ensures s <= 0xFFFF ==> Utf16Of(s) == [s]
    ensures 0x10000 <= s ==>
              var u := Utf16Of(s);
              && |u| == 2 && 0xD800 <= u[0] <= 0xDBFF && 0xDC00 <= u[1] <= 0xDFFF
              && s == 0x10000 + (u[0] - 0xD800) * 0x400 + (u[1] - 0xDC00)
  {
  }

  /** Some scalar's bytes begin with the first `k` of these, and go on. */
  ghost predicate MightGoOn(b: Bytes, k: nat)
    requires k <= |b|
  {
    exists s :: Scalar(s) && k < |Utf8Of(s)| && Utf8Of(s)[..k] == b[..k]
  }

  lemma SecondByteFits(s: nat)
    requires Scalar(s) && s >= 0x80
    ensures Seconds(Utf8Of(s)) && forall i :: 1 <= i < |Utf8Of(s)| ==> Continues(Utf8Of(s), i)
  {
    Utf8Exactly(s);
  }

  lemma ThreeFrom(first: nat, second: nat)
    requires 0xE0 <= first < 0xF0 && Seconds([first, second])
    ensures var s := (first - 0xE0) * 4096 + (second - 0x80) * 64;
      Scalar(s) && Utf8Of(s) == [first, second, 0x80]
  {
    var s := (first - 0xE0) * 4096 + (second - 0x80) * 64;
    assert s / 4096 == first - 0xE0 && s / 64 == (first - 0xE0) * 64 + (second - 0x80);
  }

  lemma FourFrom(first: nat, second: nat, third: nat)
    requires 0xF0 <= first && Seconds([first, second]) && 0x80 <= third < 0xC0
    ensures var s := (first - 0xF0) * 262144 + (second - 0x80) * 4096 + (third - 0x80) * 64;
      Scalar(s) && Utf8Of(s) == [first, second, third, 0x80]
  {
    var s := (first - 0xF0) * 262144 + (second - 0x80) * 4096 + (third - 0x80) * 64;
    assert s / 64 == (first - 0xF0) * 4096 + (second - 0x80) * 64 + (third - 0x80);
    assert s / 4096 == (first - 0xF0) * 64 + (second - 0x80) && s / 262144 == first - 0xF0;
  }

  /** What is given up on at once is as much as might have gone on, and one byte at least
   *  (section 3.9 of the Unicode Standard: a maximal subpart). */
  lemma HopelessExactly(b: Bytes)
    requires b != [] && forall s :: Scalar(s) ==> !(Utf8Of(s) <= b)
    ensures var n := Hopeless(b);
      && (n == 1 || MightGoOn(b, n))
      && (forall k :: n < k <= |b| ==> !MightGoOn(b, k))
  {
    var n := Hopeless(b);
    if n > 1 { ItMightGoOn(b); }
    forall k | n < k <= |b| ensures !MightGoOn(b, k) {
      if MightGoOn(b, k) { WhatGoesOnFits(b, k); }
    }
  }

  lemma ItMightGoOn(b: Bytes)
    requires Seconds(b) && forall s :: Scalar(s) ==> !(Utf8Of(s) <= b)
    ensures MightGoOn(b, Hopeless(b))
  {
    var first, second := b[0], b[1];
    assert Seconds([first, second]);
    if first < 0xE0 {
      WholeTwo(b);
    } else if first < 0xF0 {
      var s := (first - 0xE0) * 4096 + (second - 0x80) * 64;
      ThreeFrom(first, second);
      assert Utf8Of(s)[..2] == b[..2];
      if Continues(b, 2) { WholeThree(b); }
    } else {
      var third := if Continues(b, 2) then b[2] else 0x80;
      var s := (first - 0xF0) * 262144 + (second - 0x80) * 4096 + (third - 0x80) * 64;
      FourFrom(first, second, third);
      assert Utf8Of(s)[..2] == b[..2] && (Continues(b, 2) ==> Utf8Of(s)[..3] == b[..3]);
      if Continues(b, 2) && Continues(b, 3) { WholeFour(b); }
    }
  }

  lemma WholeTwo(b: Bytes)
    requires Seconds(b) && b[0] < 0xE0
    ensures exists s :: Scalar(s) && Utf8Of(s) <= b
  {
    var s := (b[0] - 0xC0) * 64 + (b[1] - 0x80);
    assert Scalar(s) && Utf8Of(s) == b[..2];
  }

  lemma WholeThree(b: Bytes)
    requires Seconds(b) && 0xE0 <= b[0] < 0xF0 && Continues(b, 2)
    ensures exists s :: Scalar(s) && Utf8Of(s) <= b
  {
    var s := (b[0] - 0xE0) * 4096 + (b[1] - 0x80) * 64 + (b[2] - 0x80);
    assert s / 4096 == b[0] - 0xE0 && s / 64 == (b[0] - 0xE0) * 64 + (b[1] - 0x80);
    assert Scalar(s) && Utf8Of(s) == b[..3];
  }

  lemma WholeFour(b: Bytes)
    requires Seconds(b) && 0xF0 <= b[0] && Continues(b, 2) && Continues(b, 3)
    ensures exists s :: Scalar(s) && Utf8Of(s) <= b
  {
    var s := (b[0] - 0xF0) * 262144 + (b[1] - 0x80) * 4096 + (b[2] - 0x80) * 64 + (b[3] - 0x80);
    assert s / 64 == (b[0] - 0xF0) * 4096 + (b[1] - 0x80) * 64 + (b[2] - 0x80);
    assert s / 4096 == (b[0] - 0xF0) * 64 + (b[1] - 0x80) && s / 262144 == b[0] - 0xF0;
    assert Scalar(s) && Utf8Of(s) == b[..4];
  }

  lemma WhatGoesOnFits(b: Bytes, k: nat)
    requires 2 <= k <= |b| && MightGoOn(b, k)
    ensures k <= 3 && Seconds(b) && (k == 3 ==> b[0] >= 0xF0 && Continues(b, 2))
  {
    var s :| Scalar(s) && k < |Utf8Of(s)| && Utf8Of(s)[..k] == b[..k];
    var own := Utf8Of(s);
    Utf8Exactly(s);
    SecondByteFits(s);
    assert forall i :: 0 <= i < k ==> own[..k][i] == b[..k][i] == b[i];
    assert own[0] == b[0] && own[1] == b[1] && (k == 3 ==> own[2] == b[2]);
  }

  /** What reading makes of bytes: the scalar they begin with, if they begin with one; if
   *  not, a replacement for as many as are given up on. */
  lemma DecodingExactly(b: Bytes)
    requires b != []
    ensures forall s :: Scalar(s) && Utf8Of(s) <= b ==> FromUtf8(b) == [s] + FromUtf8(b[|Utf8Of(s)|..])
    ensures (forall s :: Scalar(s) ==> !(Utf8Of(s) <= b)) ==> FromUtf8(b) == [0xFFFD] + FromUtf8(b[Hopeless(b)..])
  {
    forall s | Scalar(s) && Utf8Of(s) <= b ensures FromUtf8(b) == [s] + FromUtf8(b[|Utf8Of(s)|..]) {
      var rest := b[|Utf8Of(s)|..];
      assert b == Utf8Of(s) + rest;
      FirstIsTheScalar(s, rest);
    }
  }

  /** git names a control by the letter that is read as that control, and no other. */
  lemma NamedExactly(s: nat, u: nat)
    ensures Named(s) == Some(u) <==> Meant(u) == Some(s)
  {
  }

  /** A scalar is printed as it is exactly if it need not be escaped. */
  lemma EscapedExactly(s: nat, quotePath: bool)
    requires Scalar(s)
    ensures QuotedOf(s, quotePath) == Utf16Of(s) <==>
            !(s <= 31 || s == 127 || s == '"' as nat || s == '\\' as nat || (quotePath && s > 127))
  {
    Utf16Exactly(s);
    if quotePath && s > 127 {
      Utf8Exactly(s);
      assert |OctalAll(Utf8Of(s))| >= 4 by { assert Utf8Of(s) != []; }
    }
  }

  /** Three digits below eight make a byte, and more than a byte holds wraps. */
  lemma OctalIsReadExactly(x: nat, y: nat, z: nat)
    requires x < 10 && y < 10 && z < 10
    ensures OctalNext([BACKSLASH, 48 + x, 48 + y, 48 + z]) <==> x < 8 && y < 8 && z < 8
    ensures x < 8 && y < 8 && z < 8 ==>
              var v := x * 64 + y * 8 + z;
              Unescaped([BACKSLASH, 48 + x, 48 + y, 48 + z]) == [if v < 256 then v else v - 256]
  {
    var s := [BACKSLASH, 48 + x, 48 + y, 48 + z];
    assert x < 8 && y < 8 && z < 8 ==> OctalNext(s) && s[4..] == [];
  }

  lemma QuotedExactly(p: seq<nat>, quotePath: bool)
    ensures IsQuoted(p, quotePath) <==>
            exists s :: s in p && (s <= 31 || s == 127 || s == '"' as nat || s == '\\' as nat || (quotePath && s > 127))
  {
    if IsQuoted(p, quotePath) {
      var s :| s in p && MustBeQuoted(s, quotePath);
    }
    if s :| s in p && (s <= 31 || s == 127 || s == '"' as nat || s == '\\' as nat || (quotePath && s > 127)) {
      assert MustBeQuoted(s, quotePath);
    }
  }

  lemma FirstIsTheScalar(s: nat, rest: Bytes)
    requires Scalar(s)
    ensures First(Utf8Of(s) + rest) == Some(s)
  {
    Digits(s);
  }

  lemma {:induction false} Utf8IsReadBack(p: seq<nat>)
    requires IsPath(p)
    ensures FromUtf8(Utf8(p)) == p
  {
    if p != [] {
      FirstIsTheScalar(p[0], Utf8(p[1..]));
      assert Utf8(p)[|Utf8Of(p[0])|..] == Utf8(p[1..]);
      Utf8IsReadBack(p[1..]);
      assert [p[0]] + p[1..] == p;
    }
  }

  /** Whatever the bytes, what is read of them is text; and it spells the same bytes
   *  exactly when they spelled text to begin with. */
  lemma {:induction false} BytesAreReadAsText(b: Bytes)
    ensures IsPath(FromUtf8(b))
    ensures Utf8(FromUtf8(b)) == b <==> exists p :: IsPath(p) && Utf8(p) == b
    decreases |b|
  {
    if b != [] {
      var s := First(b).GetOr(0xD800);
      if Scalar(s) && Utf8Of(s) <= b {
        BytesAreReadAsText(b[|Utf8Of(s)|..]);
      } else {
        BytesAreReadAsText(b[Hopeless(b)..]);
      }
    }
    forall p | IsPath(p) && Utf8(p) == b ensures FromUtf8(b) == p {
      Utf8IsReadBack(p);
    }
  }

  lemma {:induction false} Utf8Concat(a: seq<nat>, b: seq<nat>)
    ensures Utf8(a + b) == Utf8(a) + Utf8(b)
  {
    if a == [] {
      assert a + b == b;
    } else {
      assert (a + b)[1..] == a[1..] + b;
      Utf8Concat(a[1..], b);
    }
  }

  lemma OctalIsUndone(byte: nat, rest: Units)
    requires byte < 256
    ensures Unescaped(Octal(byte) + rest) == [byte] + Unescaped(rest)
  {
    var s := Octal(byte) + rest;
    assert s[4..] == rest;
    assert byte == byte / 64 % 8 * 64 + byte / 8 % 8 * 8 + byte % 8;
    assert OctalNext(s) && OctalValue(s) == byte;
  }

  lemma {:induction false} OctalsAreUndone(bytes: Bytes, rest: Units)
    requires forall b :: b in bytes ==> b < 256
    ensures Unescaped(OctalAll(bytes) + rest) == bytes + Unescaped(rest)
  {
    if bytes == [] {
      assert OctalAll(bytes) + rest == rest;
    } else {
      assert bytes[0] in bytes && forall b :: b in bytes[1..] ==> b in bytes;
      var tail := OctalAll(bytes[1..]);
      Regroup(Octal(bytes[0]), tail, rest);
      OctalIsUndone(bytes[0], tail + rest);
      OctalsAreUndone(bytes[1..], rest);
      Regroup([bytes[0]], bytes[1..], Unescaped(rest));
      assert [bytes[0]] + bytes[1..] == bytes;
    }
  }

  lemma NamedIsUndone(s: nat, rest: Units)
    requires Named(s).Some?
    ensures Unescaped([BACKSLASH, Named(s).value] + rest) == [s] + Unescaped(rest)
  {
    var t := [BACKSLASH, Named(s).value] + rest;
    assert t[2..] == rest;
    assert t[1] == Named(s).value && !IsOctal(t[1]);
    assert Meant(t[1]) == Some(s);
  }

  lemma UnitIsRead(u: nat, rest: Units)
    requires u != BACKSLASH
    ensures Unescaped([u] + rest) == BytesOf(u) + Unescaped(rest)
  {
    assert ([u] + rest)[1..] == rest;
  }

  lemma PlainIsRead(s: nat, rest: Units)
    requires Scalar(s) && s != BACKSLASH
    ensures Unescaped(Utf16Of(s) + rest) == Utf8(Halves(s)) + Unescaped(rest)
  {
    var r := Utf8Of(REPLACEMENT);
    if s < 0x10000 {
      UnitIsRead(s, rest);
      assert Utf8([s]) == Utf8Of(s);
    } else {
      var high, low := Utf16Of(s)[0], Utf16Of(s)[1];
      UnitIsRead(low, rest);
      UnitIsRead(high, [low] + rest);
      assert Utf16Of(s) + rest == [high] + ([low] + rest);
      Regroup(r, r, Unescaped(rest));
      assert Halves(s)[1..] == [REPLACEMENT] && Utf8([REPLACEMENT]) == r;
    }
  }

  // ------------------------------------------------------------- the theorem --

  /** What is made of a scalar whose UTF-16 units are each read alone. */
  function Halves(s: nat): seq<nat> {
    if s < 0x10000 then [s] else [REPLACEMENT, REPLACEMENT]
  }

  /** What is made of the scalars of a quoted path. */
  function Reread(p: seq<nat>, quotePath: bool): seq<nat> {
    if p == [] then []
    else (if quotePath then [p[0]] else Halves(p[0])) + Reread(p[1..], quotePath)
  }

  lemma OneIsReread(s: nat, quotePath: bool, rest: Units)
    requires Scalar(s)
    ensures Unescaped(QuotedOf(s, quotePath) + rest)
         == Utf8(if quotePath then [s] else Halves(s)) + Unescaped(rest)
  {
    assert Utf8([s]) == Utf8Of(s);
    if Named(s).Some? {
      NamedIsUndone(s, rest);
    } else if s < 32 || s == 127 {
      OctalIsUndone(s, rest);
    } else if quotePath && s >= 128 {
      OctalsAreUndone(Utf8Of(s), rest);
    } else {
      PlainIsRead(s, rest);
    }
  }

  lemma {:induction false} BodyIsReread(p: seq<nat>, quotePath: bool)
    requires IsPath(p)
    ensures Unescaped(QuotedBody(p, quotePath)) == Utf8(Reread(p, quotePath))
    ensures IsPath(Reread(p, quotePath))
  {
    if p != [] {
      var tail := p[1..];
      BodyIsReread(tail, quotePath);
      OneIsReread(p[0], quotePath, QuotedBody(tail, quotePath));
      Utf8Concat(if quotePath then [p[0]] else Halves(p[0]), Reread(tail, quotePath));
    }
  }

  /** No scalar outside the Basic Multilingual Plane. */
  predicate Basic(p: seq<nat>) {
    forall s :: s in p ==> s < 0x10000
  }

  lemma {:induction false} RereadIsTheSame(p: seq<nat>, quotePath: bool)
    requires quotePath || Basic(p)
    ensures Reread(p, quotePath) == p
  {
    if p != [] {
      assert p[0] in p && forall s :: s in p[1..] ==> s in p;
      RereadIsTheSame(p[1..], quotePath);
      assert [p[0]] + p[1..] == p;
    }
  }

  /** Half a pair stands in the units of a path exactly where a scalar outside the
   *  Basic Multilingual Plane stands in the path. */
  lemma {:induction false} PairsComeFromAbove(p: seq<nat>)
    requires IsPath(p)
    ensures Basic(p) <==> forall u :: u in Utf16(p) ==> !Surrogate(u)
  {
    if p != [] {
      var head, tail := p[0], p[1..];
      PairsComeFromAbove(tail);
      assert head in p && p == [head] + tail;
      assert head < 0x10000 ==> Utf16Of(head) == [head];
      assert head >= 0x10000 ==> Surrogate(Utf16Of(head)[0]) && Utf16Of(head)[0] in Utf16(p);
      assert Basic(p) ==> Basic(tail) by {
        assert forall s :: s in tail ==> s in p;
      }
    }
  }

  lemma {:induction false} RereadIsBasic(p: seq<nat>)
    ensures Basic(Reread(p, false))
  {
    if p != [] {
      RereadIsBasic(p[1..]);
    }
  }

  lemma {:induction false} NoQuoteInTheUnits(p: seq<nat>)
    requires QUOTE !in p
    ensures QUOTE !in Utf16(p)
  {
    if p != [] {
      NoQuoteInTheUnits(p[1..]);
    }
  }

  lemma QuotedIsReread(p: seq<nat>, quotePath: bool)
    requires IsPath(p) && IsQuoted(p, quotePath)
    ensures Unquoted(Printed(p, quotePath)) == Utf16(Reread(p, quotePath))
  {
    var raw := Printed(p, quotePath);
    assert raw[1..|raw| - 1] == QuotedBody(p, quotePath);
    BodyIsReread(p, quotePath);
    Utf8IsReadBack(Reread(p, quotePath));
  }

  /** A path git printed is read back as itself exactly when git did not quote it,
   *  escaped every byte past ASCII, or had no scalar past the first plane to print.
   *  The scripts that print paths turn `core.quotePath` off, so a quoted name with
   *  such a scalar in it comes back as replacement characters. */
  lemma PathIsReadBackIff(p: seq<nat>, quotePath: bool)
    requires IsPath(p)
    ensures Unquoted(Printed(p, quotePath)) == Utf16(p)
       <==> !IsQuoted(p, quotePath) || quotePath || Basic(p)
  {
    if !IsQuoted(p, quotePath) {
      assert QUOTE !in p by {
        assert MustBeQuoted(QUOTE, quotePath);
      }
      NoQuoteInTheUnits(p);
      assert !InQuotes(Utf16(p));
    } else {
      QuotedIsReread(p, quotePath);
      if quotePath || Basic(p) {
        RereadIsTheSame(p, quotePath);
      } else {
        BodyIsReread(p, false);
        RereadIsBasic(p);
        PairsComeFromAbove(Reread(p, false));
        PairsComeFromAbove(p);
      }
    }
  }

  /** A tab and a face: a name anyone could give a file. */
  lemma FaceBesideATabIsLost()
    ensures IsPath([9, 0x1F600]) && Unquoted(Printed([9, 0x1F600], false)) != Utf16([9, 0x1F600])
  {
    var p := [9, 0x1F600];
    assert p[0] in p && p[1] in p && MustBeQuoted(p[0], false);
    PathIsReadBackIff(p, false);
  }
}
