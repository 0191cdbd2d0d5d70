/**
 * What stripping preserves: the tokens of a JSON text, whatever whitespace,
 * comments and trailing commas it is written with (sections 2 to 7 of RFC 8259).
 */
module JsoncTokens {
  import opened Text
  import opened Collections
  import opened Wrappers
  import opened Jsonc

  // ------------------------------------------------------------------ tokens --

  /** A structural character; a string as written, quotes and all; a number,
   *  `true`, `false` or `null`. */
  datatype Token = Punct(c: char) | Literal(s: string) | Atom(s: string)

  const PUNCTUATION := "{}[]:,"

  predicate AtomChar(c: char) {
    !IsSpace(c) && c != '"' && c != '/' && c !in PUNCTUATION
  }

  /** The rest of a string literal, up to and with the quote that closes it. */
  predicate Closes(s: string) {
    if s == "" then false
    else if s[0] == '\\' then |s| > 1 && Closes(s[2..])
    else if s[0] == '"' then |s| == 1
    else Closes(s[1..])
  }

  predicate Proper(t: Token) {
    match t
    case Punct(c) => c in PUNCTUATION
    case Literal(s) => s != "" && s[0] == '"' && Closes(s[1..])
    case Atom(s) => s != "" && forall c :: c in s ==> AtomChar(c)
  }

  function TokenText(t: Token): string {
    match t
    case Punct(c) => [c]
    case Literal(s) => s
    case Atom(s) => s
  }

  /** JSON's own whitespace. */
  predicate JsonSpace(c: char) {
    c == ' ' || c == '\t' || c == '\n' || c == '\r'
  }

  function AtomLength(s: string): (n: nat)
    ensures n <= |s|
  {
    if s == "" || !AtomChar(s[0]) then 0 else 1 + AtomLength(s[1..])
  }

  /** The tokens of a text without comments, as a JSON reader takes them; none
   *  for a text that is not made of tokens. */
  function Lex(s: string): Option<seq<Token>>
    decreases |s|
  {
    if s == "" then Some([])
    else if JsonSpace(s[0]) then Lex(s[1..])
    else if s[0] in PUNCTUATION then Before(Punct(s[0]), Lex(s[1..]))
    else if s[0] == '"' then
      var n := 1 + LiteralLength(s[1..]);
      if Closes(s[1..n]) then Before(Literal(s[..n]), Lex(s[n..])) else None
    else
      var n := AtomLength(s);
      if n == 0 then None else Before(Atom(s[..n]), Lex(s[n..]))
  }

  function Before(t: Token, rest: Option<seq<Token>>): Option<seq<Token>> {
    if rest.None? then None else Some([t] + rest.value)
  }

  // -------------------------------------------------------------- decoration --

  /** What a JSONC text is written of: tokens, and what may stand between them. */
  datatype Item = Tok(t: Token) | Space(c: char) | Line(body: string) | Block(body: string)

  function ItemText(item: Item): string {
    match item
    case Tok(t) => TokenText(t)
    case Space(c) => [c]
    case Line(body) => "//" + body
    case Block(body) => "/*" + body + "*/"
  }

  function Render(items: seq<Item>): string {
    if items == [] then "" else ItemText(items[0]) + Render(items[1..])
  }

  /** Tokens and comments as they may be; a line comment runs to a line's end. */
  predicate WellFormed(items: seq<Item>) {
    items == [] ||
    (&& WellFormed(items[1..])
     && FitItem(items[0])
     && (items[0].Line? ==> |items| == 1 || items[1] == Space('\n')))
  }

  predicate FitItem(item: Item) {
    match item
    case Tok(t) => Proper(t)
    case Space(c) => JsonSpace(c)
    case Line(body) => '\n' !in body
    case Block(body) => forall i :: 0 <= i < |body| - 1 ==> !(body[i] == '*' && body[i + 1] == '/')
  }

  predicate IsComment(item: Item) {
    item.Line? || item.Block?
  }

  function NoComments(items: seq<Item>): seq<Item> {
    if items == [] then []
    else (if IsComment(items[0]) then [] else [items[0]]) + NoComments(items[1..])
  }

  function Tokens(items: seq<Item>): seq<Token> {
    if items == [] then []
    else (if items[0].Tok? then [items[0].t] else []) + Tokens(items[1..])
  }

  predicate CloserNext(items: seq<Item>) {
    items != [] &&
    match items[0]
    case Tok(t) => t.Punct? && IsCloser(t.c)
    case _ => CloserNext(items[1..])
  }

  function NoTrailing(items: seq<Item>): seq<Item> {
    if items == [] then []
    else (if items[0] == Tok(Punct(',')) && CloserNext(items[1..]) then [] else [items[0]]) + NoTrailing(items[1..])
  }

  /** Tokens without the commas that come right before a closing bracket. */
  function DropTrailing(ts: seq<Token>): seq<Token> {
    if ts == [] then []
    else
      var goes := ts[0] == Punct(',') && |ts| > 1 && (ts[1] == Punct('}') || ts[1] == Punct(']'));
      (if goes then [] else [ts[0]]) + DropTrailing(ts[1..])
  }

  // ---------------------------------------------------- comments are dropped --

  lemma {:induction false} PlainIsKept(a: string, rest: string)
    requires forall c :: c in a ==> c != '"' && c != '/'
    ensures Uncommented(a + rest) == a + Uncommented(rest)
  {
    if a == "" {
      assert a + rest == rest;
    } else {
      assert (a + rest)[1..] == a[1..] + rest;
      assert a[0] in a && forall c :: c in a[1..] ==> c in a;
      PlainIsKept(a[1..], rest);
      Regroup([a[0]], a[1..], Uncommented(rest));
      assert [a[0]] + a[1..] == a;
    }
  }

  lemma {:induction false} LiteralEndsAlike(s: string, rest: string)
    requires Closes(s)
    ensures LiteralLength(s + rest) == |s|
  {
    if s[0] == '\\' {
      assert (s + rest)[2..] == s[2..] + rest;
      LiteralEndsAlike(s[2..], rest);
    } else if s[0] != '"' {
      assert (s + rest)[1..] == s[1..] + rest;
      LiteralEndsAlike(s[1..], rest);
    }
  }

  lemma LiteralIsWhole(s: string, rest: string)
    requires Proper(Literal(s))
    ensures var text := s + rest; 1 + LiteralLength(text[1..]) == |s| && text[..|s|] == s && text[|s|..] == rest
  {
    LiteralEndsAlike(s[1..], rest);
    assert (s + rest)[1..] == s[1..] + rest;
  }

  lemma {:induction false} LineEndsAlike(body: string, rest: string)
    requires '\n' !in body && (rest == "" || rest[0] == '\n')
    ensures LineLength(body + rest) == |body|
  {
    if body == "" {
      assert body + rest == rest;
    } else {
      assert (body + rest)[1..] == body[1..] + rest;
      LineEndsAlike(body[1..], rest);
    }
  }

  lemma {:induction false} BlockEndsAlike(body: string, rest: string)
    requires forall i :: 0 <= i < |body| - 1 ==> !(body[i] == '*' && body[i + 1] == '/')
    ensures BlockLength(body + "*/" + rest) == |body| + 2
  {
    var text := body + "*/" + rest;
    if body == "" {
      assert text == "*/" + rest;
    } else {
      assert text[1..] == body[1..] + "*/" + rest;
      assert !(text[0] == '*' && text[1] == '/') by {
        if |body| > 1 { assert body[0 + 1] == text[1]; }
      }
      BlockEndsAlike(body[1..], rest);
    }
  }

  lemma LineIsGone(body: string, rest: string)
    requires '\n' !in body && (rest == "" || rest[0] == '\n')
    ensures Uncommented("//" + body + rest) == Uncommented(rest)
  {
    var text := "//" + body + rest;
    assert text == ("//" + body) + rest;
    LineEndsAlike("//" + body, rest);
    assert text[|body| + 2..] == rest;
  }

  lemma BlockIsGone(body: string, rest: string)
    requires forall i :: 0 <= i < |body| - 1 ==> !(body[i] == '*' && body[i + 1] == '/')
    ensures Uncommented("/*" + body + "*/" + rest) == Uncommented(rest)
  {
    var text := "/*" + body + "*/" + rest;
    BlockEndsAlike(body, rest);
    assert text[2..] == body + "*/" + rest;
    assert text[|body| + 4..] == rest;
  }

  lemma OneItem(item: Item, rest: string)
    requires FitItem(item) && (item.Line? ==> rest == "" || rest[0] == '\n')
    ensures Uncommented(ItemText(item) + rest) == (if IsComment(item) then "" else ItemText(item)) + Uncommented(rest)
  {
    match item
    case Tok(t) =>
      if t.Literal? { LiteralIsWhole(t.s, rest); } else { PlainIsKept(TokenText(t), rest); }
    case Space(c) => PlainIsKept([c], rest);
    case Line(body) => LineIsGone(body, rest);
    case Block(body) => BlockIsGone(body, rest);
  }

  lemma NoCommentsStep(items: seq<Item>)
    requires items != []
    ensures IsComment(items[0]) ==> NoComments(items) == NoComments(items[1..])
    ensures !IsComment(items[0]) ==>
              && NoComments(items) == [items[0]] + NoComments(items[1..])
              && Render(NoComments(items)) == ItemText(items[0]) + Render(NoComments(items[1..]))
              && Tokens(NoComments(items)) == (if items[0].Tok? then [items[0].t]
                  else []) + Tokens(NoComments(items[1..]))
  {
    assert ([items[0]] + NoComments(items[1..]))[1..] == NoComments(items[1..]);
  }

  lemma AfterALine(items: seq<Item>)
    requires WellFormed(items) && items != [] && items[0].Line?
    ensures Render(items[1..]) == "" || Render(items[1..])[0] == '\n'
  {
    if |items| > 1 { assert Render(items[1..]) == ItemText(items[1]) + Render(items[1..][1..]); }
  }

  lemma {:induction false} CommentsAreDropped(items: seq<Item>)
    requires WellFormed(items)
    ensures Uncommented(Render(items)) == Render(NoComments(items))
  {
    if items != [] {
      CommentsAreDropped(items[1..]);
      NoCommentsStep(items);
      if items[0].Line? { AfterALine(items); }
      OneItem(items[0], Render(items[1..]));
    }
  }

  /** Tokens, and spaces between them. */
  predicate Plain(items: seq<Item>) {
    forall i :: 0 <= i < |items| ==> FitItem(items[i]) && !IsComment(items[i])
  }

  lemma {:induction false} WhatIsLeftIsPlain(items: seq<Item>)
    requires WellFormed(items)
    ensures Plain(NoComments(items)) && Tokens(NoComments(items)) == Tokens(items)
  {
    if items != [] {
      WhatIsLeftIsPlain(items[1..]);
      NoCommentsStep(items);
    }
  }

  // --------------------------------------------- trailing commas are dropped --

  lemma {:induction false} PlainHasNoCommas(a: string, rest: string)
    requires forall c :: c in a ==> c != '"' && c != ','
    ensures WithoutTrailingCommas(a + rest) == a + WithoutTrailingCommas(rest)
  {
    if a == "" {
      assert a + rest == rest;
    } else {
      assert (a + rest)[1..] == a[1..] + rest && a == [a[0]] + a[1..];
      assert a[0] in a && forall c :: c in a[1..] ==> c in a;
      PlainHasNoCommas(a[1..], rest);
      Regroup([a[0]], a[1..], WithoutTrailingCommas(rest));
    }
  }

  lemma PlainStep(items: seq<Item>)
    requires Plain(items) && items != []
    ensures Plain(items[1..]) && FitItem(items[0]) && !IsComment(items[0])
    ensures Render(items) == ItemText(items[0]) + Render(items[1..]) && ItemText(items[0]) != ""
  {
  }

  lemma {:induction false} ClosesAlike(items: seq<Item>)
    requires Plain(items)
    ensures ClosesNext(Render(items)) == CloserNext(items)
  {
    if items != [] {
      PlainStep(items);
      var text, rest := ItemText(items[0]), Render(items[1..]);
      assert (text + rest)[0] == text[0];
      match items[0]
      case Space(c) =>
        assert (text + rest)[1..] == rest;
        ClosesAlike(items[1..]);
      case Tok(t) =>
        if t.Atom? { assert text[0] in t.s; }
        assert !IsSpace(text[0]);
        assert SpaceLength(text + rest) == 0;
      case _ =>
    }
  }

  lemma OnePlainItem(item: Item, rest: string)
    requires FitItem(item) && !IsComment(item)
    ensures WithoutTrailingCommas(ItemText(item) + rest)
              == (if item == Tok(Punct(',')) && ClosesNext(rest) then ""
                  else ItemText(item)) + WithoutTrailingCommas(rest)
  {
    match item
    case Tok(t) =>
      if t.Literal? { LiteralIsWhole(t.s, rest); }
      else if t == Punct(',') { assert ("," + rest)[1..] == rest; }
      else { PlainHasNoCommas(TokenText(t), rest); }
    case Space(c) => PlainHasNoCommas([c], rest);
    case _ =>
  }

  lemma NoTrailingStep(items: seq<Item>)
    requires items != []
    ensures var dropped := items[0] == Tok(Punct(',')) && CloserNext(items[1..]);
      && (dropped ==> NoTrailing(items) == NoTrailing(items[1..]))
      && (!dropped ==>
            && NoTrailing(items) == [items[0]] + NoTrailing(items[1..])
            && Render(NoTrailing(items)) == ItemText(items[0]) + Render(NoTrailing(items[1..]))
            && Tokens(NoTrailing(items)) == (if items[0].Tok? then [items[0].t]
                else []) + Tokens(NoTrailing(items[1..])))
  {
    assert ([items[0]] + NoTrailing(items[1..]))[1..] == NoTrailing(items[1..]);
  }

  lemma {:induction false} TrailingCommasAreDropped(items: seq<Item>)
    requires Plain(items)
    ensures WithoutTrailingCommas(Render(items)) == Render(NoTrailing(items))
    ensures Plain(NoTrailing(items))
  {
    if items != [] {
      PlainStep(items);
      TrailingCommasAreDropped(items[1..]);
      NoTrailingStep(items);
      ClosesAlike(items[1..]);
      OnePlainItem(items[0], Render(items[1..]));
    }
  }

  lemma {:induction false} NextTokenDecides(items: seq<Item>)
    requires Plain(items)
    ensures CloserNext(items) <==> Tokens(items) != [] && Tokens(items)[0].Punct? && IsCloser(Tokens(items)[0].c)
  {
    if items != [] {
      PlainStep(items);
      if !items[0].Tok? { NextTokenDecides(items[1..]); }
    }
  }

  lemma TokensStep(items: seq<Item>)
    requires items != []
    ensures items[0].Tok? ==> Tokens(items) == [items[0].t] + Tokens(items[1..])
    ensures items[0].Tok? ==> Tokens(items)[1..] == Tokens(items[1..])
    ensures !items[0].Tok? ==> Tokens(items) == Tokens(items[1..])
  {
  }

  lemma {:induction false} TokensThatAreLeft(items: seq<Item>)
    requires Plain(items)
    ensures Tokens(NoTrailing(items)) == DropTrailing(Tokens(items))
  {
    if items != [] {
      PlainStep(items);
      TokensThatAreLeft(items[1..]);
      NoTrailingStep(items);
      NextTokenDecides(items[1..]);
      TokensStep(items);
      assert [] + DropTrailing(Tokens(items[1..])) == DropTrailing(Tokens(items[1..]));
    }
  }

  // ------------------------------------------------------------ reading it back --

  predicate NoTwoAtoms(ts: seq<Token>) {
    forall i :: 0 <= i < |ts| - 1 ==> !(ts[i].Atom? && ts[i + 1].Atom?)
  }

  lemma {:induction false} AtomEndsAlike(a: string, rest: string)
    requires (forall c :: c in a ==> AtomChar(c)) && (rest == "" || !AtomChar(rest[0]))
    ensures AtomLength(a + rest) == |a|
  {
    if a == "" {
      assert a + rest == rest;
    } else {
      assert (a + rest)[1..] == a[1..] + rest;
      assert a[0] in a && forall c :: c in a[1..] ==> c in a;
      AtomEndsAlike(a[1..], rest);
    }
  }

  lemma LexOne(t: Token, rest: string)
    requires Proper(t) && (t.Atom? ==> rest == "" || !AtomChar(rest[0]))
    ensures Lex(TokenText(t) + rest) == Before(t, Lex(rest))
  {
    var text := TokenText(t) + rest;
    assert text[0] == TokenText(t)[0];
    match t
    case Punct(c) => assert text[1..] == rest;
    case Literal(s) =>
      LiteralIsWhole(s, rest);
      assert text[1..|s|] == s[1..];
    case Atom(s) =>
      assert s[0] in s;
      AtomEndsAlike(s, rest);
      assert text[..|s|] == s && text[|s|..] == rest;
  }

  lemma NoTwoAtomsOn(items: seq<Item>)
    requires items != [] && items[0].Tok? && NoTwoAtoms(Tokens(items))
    ensures Tokens(items) == [items[0].t] + Tokens(items[1..]) && NoTwoAtoms(Tokens(items[1..]))
    ensures items[0].t.Atom? && Tokens(items[1..]) != [] ==> !Tokens(items[1..])[0].Atom?
  {
    TokensStep(items);
    var all, rest := Tokens(items), Tokens(items[1..]);
    assert forall i :: 0 <= i < |rest| ==> rest[i] == all[i + 1];
    assert rest != [] ==> !(all[0].Atom? && all[0 + 1].Atom?);
  }

  lemma {:induction false} TokensAreReadBack(items: seq<Item>)
    requires Plain(items) && NoTwoAtoms(Tokens(items))
    ensures Lex(Render(items)) == Some(Tokens(items))
  {
    if items != [] {
      PlainStep(items);
      TokensStep(items);
      var rest := Render(items[1..]);
      if items[0].Space? {
        TokensAreReadBack(items[1..]);
        assert ([items[0].c] + rest)[1..] == rest;
      } else {
        NoTwoAtomsOn(items);
        TokensAreReadBack(items[1..]);
        if items[0].t.Atom? && items[1..] != [] { NoAtomFollows(items[1..]); }
        LexOne(items[0].t, rest);
      }
    }
  }

  lemma NoAtomFollows(items: seq<Item>)
    requires Plain(items) && items != [] && (Tokens(items) == [] || !Tokens(items)[0].Atom?)
    ensures !AtomChar(Render(items)[0])
  {
    PlainStep(items);
    assert Render(items)[0] == ItemText(items[0])[0];
    if items[0].Tok? { assert Tokens(items)[0] == items[0].t; }
  }

  // ------------------------------------------------------------- JSON itself --

  /** A JSON value, down to the tokens it is written with. */
  datatype Value = Leaf(t: Token) | Array(elements: seq<Value>) | Object(members: seq<Member>)
  datatype Member = Member(key: string, value: Value)

  predicate ProperValue(v: Value) {
    match v
    case Leaf(t) => Proper(t) && !t.Punct?
    case Array(elements) => forall e :: e in elements ==> ProperValue(e)
    case Object(members) => forall m :: m in members ==> Proper(Literal(m.key)) && ProperValue(m.value)
  }

  function ValueTokens(v: Value): seq<Token>
    decreases v, 1
  {
    match v
    case Leaf(t) => [t]
    case Array(elements) => [Punct('[')] + ElementTokens(elements) + [Punct(']')]
    case Object(members) => [Punct('{')] + MemberTokens(members) + [Punct('}')]
  }

  function ElementTokens(elements: seq<Value>): seq<Token>
    decreases elements, 0
  {
    if elements == [] then []
    else ValueTokens(elements[0]) + (if |elements| == 1 then [] else [Punct(',')] + ElementTokens(elements[1..]))
  }

  function MemberTokens(members: seq<Member>): seq<Token>
    decreases members, 0
  {
    if members == [] then []
    else MemberHead(members[0]) + (if |members| == 1 then [] else [Punct(',')] + MemberTokens(members[1..]))
  }

  function MemberHead(m: Member): seq<Token>
    decreases m, 1
  {
    [Literal(m.key)] + [Punct(':')] + ValueTokens(m.value)
  }

  predicate ClosesAt(ts: seq<Token>, i: int) {
    0 <= i < |ts| && ts[i].Punct? && IsCloser(ts[i].c)
  }

  predicate NoTrailingComma(ts: seq<Token>) {
    forall i :: 0 <= i < |ts| ==> !(ts[i] == Punct(',') && ClosesAt(ts, i + 1))
  }

  /** What the grammar sees to, and what makes a run of tokens fit between others. */
  predicate Neat(ts: seq<Token>) {
    && ts != [] && NoTwoAtoms(ts) && NoTrailingComma(ts)
    && !ClosesAt(ts, 0) && ts[|ts| - 1] != Punct(',')
  }

  lemma NeatJoin(a: seq<Token>, p: Token, b: seq<Token>)
    requires Neat(a) && Neat(b) && p in [Punct(','), Punct(':')]
    ensures Neat(a + [p] + b)
  {
    var ts := a + [p] + b;
    forall i | 0 <= i < |ts|
      ensures !(ts[i] == Punct(',') && ClosesAt(ts, i + 1)) && (i < |ts| - 1 ==> !(ts[i].Atom? && ts[i + 1].Atom?))
    {
      if i < |a| { assert ts[i] == a[i] && (i + 1 < |a| ==> ts[i + 1] == a[i + 1]); }
      else if i == |a| { assert i + 1 < |ts| && ts[i + 1] == b[0]; }
      else {
        assert ts[i] == b[i - |a| - 1];
        assert i + 1 < |ts| ==> ts[i + 1] == b[i - |a| - 1 + 1];
        assert !(b[i - |a| - 1] == Punct(',') && ClosesAt(b, i - |a| - 1 + 1));
      }
    }
  }

  lemma NeatWrap(open: char, a: seq<Token>, close: char)
    requires a == [] || Neat(a)
    requires (open == '[' && close == ']') || (open == '{' && close == '}')
    ensures Neat([Punct(open)] + a + [Punct(close)])
  {
    var ts := [Punct(open)] + a + [Punct(close)];
    forall i | 0 <= i < |ts|
      ensures !(ts[i] == Punct(',') && ClosesAt(ts, i + 1)) && (i < |ts| - 1 ==> !(ts[i].Atom? && ts[i + 1].Atom?))
    {
      if 0 < i <= |a| {
        assert ts[i] == a[i - 1] && (i < |a| ==> ts[i + 1] == a[i - 1 + 1]);
        assert !(a[i - 1] == Punct(',') && ClosesAt(a, i - 1 + 1));
      }
    }
  }

  lemma {:induction false} ValuesAreNeat(v: Value)
    requires ProperValue(v)
    ensures Neat(ValueTokens(v))
    decreases v, 1
  {
    match v
    case Leaf(_) =>
    case Array(elements) =>
      ElementsAreNeat(elements);
      NeatWrap('[', ElementTokens(elements), ']');
    case Object(members) =>
      MembersAreNeat(members);
      NeatWrap('{', MemberTokens(members), '}');
  }

  lemma ElementsInOrder(elements: seq<Value>)
    requires elements != []
    ensures |elements| == 1 ==> ElementTokens(elements) == ValueTokens(elements[0])
    ensures |elements| > 1 ==>
              ElementTokens(elements) == ValueTokens(elements[0]) + [Punct(',')] + ElementTokens(elements[1..])
  {
    Joined(ValueTokens(elements[0]), Punct(','), if |elements| > 1 then ElementTokens(elements[1..]) else []);
  }

  lemma MembersInOrder(members: seq<Member>)
    requires members != []
    ensures |members| == 1 ==> MemberTokens(members) == MemberHead(members[0])
    ensures |members| > 1 ==>
              MemberTokens(members) == MemberHead(members[0]) + [Punct(',')] + MemberTokens(members[1..])
  {
    Joined(MemberHead(members[0]), Punct(','), if |members| > 1 then MemberTokens(members[1..]) else []);
  }

  lemma Joined(a: seq<Token>, p: Token, b: seq<Token>)
    ensures a + [] == a && a + ([p] + b) == a + [p] + b
  {
  }

  lemma {:induction false} ElementsAreNeat(elements: seq<Value>)
    requires forall e :: e in elements ==> ProperValue(e)
    ensures elements == [] || Neat(ElementTokens(elements))
    decreases elements, 0
  {
    if elements != [] {
      ElementsInOrder(elements);
      ValuesAreNeat(elements[0]);
      if |elements| > 1 {
        ElementsAreNeat(elements[1..]);
        NeatJoin(ValueTokens(elements[0]), Punct(','), ElementTokens(elements[1..]));
      }
    }
  }

  lemma OneTokenIsNeat(t: Token)
    requires t.Literal?
    ensures Neat([t])
  {
  }

  lemma {:induction false} MembersAreNeat(members: seq<Member>)
    requires forall m :: m in members ==> Proper(Literal(m.key)) && ProperValue(m.value)
    ensures members == [] || Neat(MemberTokens(members))
    decreases members, 0
  {
    if members != [] {
      MembersInOrder(members);
      ValuesAreNeat(members[0].value);
      OneTokenIsNeat(Literal(members[0].key));
      NeatJoin([Literal(members[0].key)], Punct(':'), ValueTokens(members[0].value));
      if |members| > 1 {
        MembersAreNeat(members[1..]);
        NeatJoin(MemberHead(members[0]), Punct(','), MemberTokens(members[1..]));
      }
    }
  }

  // ------------------------------------------------------------- what is kept --

  /** Any JSON text, written with whatever whitespace, comments and trailing
   *  commas: stripped, it reads as that JSON, token for token and every string
   *  as it was written. */
  lemma StripKeepsTheTokens(v: Value, items: seq<Item>)
    requires ProperValue(v) && WellFormed(items) && DropTrailing(Tokens(items)) == ValueTokens(v)
    ensures Lex(Stripped(Render(items))) == Some(ValueTokens(v))
  {
    var plain := NoComments(items);
    CommentsAreDropped(items);
    WhatIsLeftIsPlain(items);
    TrailingCommasAreDropped(plain);
    TokensThatAreLeft(plain);
    ValuesAreNeat(v);
    TokensAreReadBack(NoTrailing(plain));
  }

  /** A reader that takes tokens takes none that is not one. */
  lemma {:induction false} WhatIsReadIsProper(s: string)
    ensures Lex(s).Some? ==> forall t :: t in Lex(s).value ==> Proper(t)
    decreases |s|
  {
    if s == "" {
    } else if JsonSpace(s[0]) || s[0] in PUNCTUATION {
      WhatIsReadIsProper(s[1..]);
    } else if s[0] == '"' {
      WhatIsReadIsProper(s[1 + LiteralLength(s[1..])..]);
      assert s[..1 + LiteralLength(s[1..])][1..] == s[1..1 + LiteralLength(s[1..])];
    } else {
      AtomsAreAtoms(s);
      if AtomLength(s) > 0 { WhatIsReadIsProper(s[AtomLength(s)..]); }
    }
  }

  /** What its numbers and names are written with, and its whitespace. */
  lemma CharactersOfJson(c: char)
    ensures IsAlnum(c) || c == '-' || c == '+' || c == '.' ==> AtomChar(c)
    ensures JsonSpace(c) <==> c as int == 9 || c as int == 10 || c as int == 13 || c as int == 32
  {
  }

  lemma {:induction false} AtomsAreAtoms(s: string)
    ensures forall c :: c in s[..AtomLength(s)] ==> AtomChar(c)
  {
    if s != "" && AtomChar(s[0]) {
      AtomsAreAtoms(s[1..]);
      assert s[..AtomLength(s)] == [s[0]] + s[1..][..AtomLength(s[1..])];
    }
  }

  lemma OneItemMore(item: Item, rest: seq<Item>)
    ensures Render([item] + rest) == ItemText(item) + Render(rest)
    ensures Tokens([item] + rest) == (if item.Tok? then [item.t] else []) + Tokens(rest)
    ensures WellFormed([item] + rest) <==>
            WellFormed(rest) && FitItem(item) && (item.Line? ==> rest == [] || rest[0] == Space('\n'))
  {
    assert ([item] + rest)[1..] == rest;
  }

  function After(atom: string, block: string, line: string): seq<Item> {
    [Tok(Punct(':'))] + ([Tok(Atom(atom))] + ([Tok(Punct(','))] + End(block, line)))
  }

  function End(block: string, line: string): seq<Item> {
    [Block(block)] + ([Tok(Punct('}'))] + [Line(line)])
  }

  lemma TheEnd(block: string, line: string)
    requires FitItem(Block(block)) && FitItem(Line(line))
    ensures var end := End(block, line);
      && WellFormed(end) && Tokens(end) == [Punct('}')]
      && Render(end) == ("/*" + block + "*/") + ("}" + ("//" + line))
  {
    OneItemMore(Line(line), []);
    assert [Line(line)] + [] == [Line(line)] && Render([Line(line)]) == "//" + line;
    OneItemMore(Tok(Punct('}')), [Line(line)]);
    OneItemMore(Block(block), [Tok(Punct('}'))] + [Line(line)]);
  }

  lemma TheMiddle(atom: string, block: string, line: string)
    requires Proper(Atom(atom)) && FitItem(Block(block)) && FitItem(Line(line))
    ensures var after := After(atom, block, line);
      && WellFormed(after) && Tokens(after) == [Punct(':'), Atom(atom), Punct(','), Punct('}')]
      && Render(after) == ":" + (atom + ("," + (("/*" + block + "*/") + ("}" + ("//" + line)))))
  {
    var end := End(block, line);
    TheEnd(block, line);
    OneItemMore(Tok(Punct(',')), end);
    OneItemMore(Tok(Atom(atom)), [Tok(Punct(','))] + end);
    OneItemMore(Tok(Punct(':')), [Tok(Atom(atom))] + ([Tok(Punct(','))] + end));
  }

  /** One such text: a key and its value, a trailing comma, a comment before what closes
   *  it, and one that runs to the end. */
  lemma ADecoratedText(key: string, atom: string, block: string, line: string)
    requires Proper(Literal(key)) && Proper(Atom(atom)) && FitItem(Block(block)) && FitItem(Line(line))
    ensures var v := Object([Member(key, Leaf(Atom(atom)))]);
      var items := [Tok(Punct('{'))] + ([Space(' ')] + ([Tok(Literal(key))] + After(atom, block, line)));
      && ProperValue(v) && WellFormed(items) && DropTrailing(Tokens(items)) == ValueTokens(v)
      && Render(items)
         == "{" + (" " + (key + (":" + (atom + ("," + (("/*" + block + "*/") + ("}" + ("//" + line))))))))
  {
    var after := After(atom, block, line);
    TheMiddle(atom, block, line);
    OneItemMore(Tok(Literal(key)), after);
    OneItemMore(Space(' '), [Tok(Literal(key))] + after);
    OneItemMore(Tok(Punct('{')), [Space(' ')] + ([Tok(Literal(key))] + after));
    TheTokens(Literal(key), Atom(atom));
    TheValueIsWritten(key, Atom(atom));
  }

  lemma TheTokens(key: Token, atom: Token)
    requires !key.Punct? && !atom.Punct?
    ensures DropTrailing([Punct('{')] + ([] + ([key] + [Punct(':'), atom, Punct(','), Punct('}')])))
         == [Punct('{'), key, Punct(':'), atom, Punct('}')]
  {
    TheCommaGoes(key, atom);
    assert [Punct('{')] + ([] + ([key] + [Punct(':'), atom, Punct(','), Punct('}')]))
        == [Punct('{'), key, Punct(':'), atom, Punct(','), Punct('}')];
  }

  /** A string with an escaped quote, a number, and a comment with a star and a slash. */
  lemma SuchAreProper()
    ensures Proper(Literal("\"k\\\"\"")) && Proper(Atom("1")) && FitItem(Block("*a/b")) && FitItem(Line(" end"))
  {
    assert Closes("\\\"\"");
  }

  lemma OneTokenMore(t: Token, rest: seq<Token>)
    ensures DropTrailing([t] + rest)
         == (if t == Punct(',') && rest != [] && (rest[0] == Punct('}') || rest[0] == Punct(']')) then [] else [t])
            + DropTrailing(rest)
  {
    assert ([t] + rest)[1..] == rest;
  }

  lemma TheCommaGoes(key: Token, atom: Token)
    requires !key.Punct? && !atom.Punct?
    ensures DropTrailing([Punct('{'), key, Punct(':'), atom, Punct(','), Punct('}')])
         == [Punct('{'), key, Punct(':'), atom, Punct('}')]
  {
    var e, d, c, b := [Punct(','), Punct('}')], [atom, Punct(','), Punct('}')],
        [Punct(':'), atom, Punct(','), Punct('}')], [key, Punct(':'), atom, Punct(','), Punct('}')];
    OneTokenMore(Punct('}'), []);
    assert [Punct('}')] + [] == [Punct('}')];
    OneTokenMore(Punct(','), [Punct('}')]);
    assert e == [Punct(',')] + [Punct('}')];
    OneTokenMore(atom, e);
    assert d == [atom] + e;
    OneTokenMore(Punct(':'), d);
    assert c == [Punct(':')] + d;
    OneTokenMore(key, c);
    assert b == [key] + c;
    OneTokenMore(Punct('{'), b);
    assert [Punct('{'), key, Punct(':'), atom, Punct(','), Punct('}')] == [Punct('{')] + b;
  }

  lemma AnArrayIsWritten(a: Token, b: Token)
    ensures ValueTokens(Array([])) == [Punct('['), Punct(']')]
    ensures ValueTokens(Array([Leaf(a), Leaf(b)])) == [Punct('['), a, Punct(','), b, Punct(']')]
  {
    ElementsInOrder([Leaf(b)]);
    ElementsInOrder([Leaf(a), Leaf(b)]);
    assert [Leaf(a), Leaf(b)][1..] == [Leaf(b)];
  }

  lemma TheValueIsWritten(key: string, value: Token)
    ensures ValueTokens(Object([Member(key, Leaf(value))])) == [Punct('{'), Literal(key), Punct(':'), value, Punct('}')]
  {
    var m := Member(key, Leaf(value));
    MembersInOrder([m]);
    assert MemberHead(m) == [Literal(key), Punct(':'), value];
  }

  lemma {:induction false} PlainIsWellFormed(items: seq<Item>)
    requires Plain(items)
    ensures WellFormed(items) && NoComments(items) == items
  {
    if items != [] {
      PlainStep(items);
      PlainIsWellFormed(items[1..]);
    }
  }

  lemma {:induction false} NoCommaGoes(items: seq<Item>)
    requires Plain(items) && NoTrailingComma(Tokens(items))
    ensures NoTrailing(items) == items
  {
    if items != [] {
      PlainStep(items);
      TokensStep(items);
      NextTokenDecides(items[1..]);
      var ts, rest := Tokens(items), Tokens(items[1..]);
      if items[0].Tok? {
        assert !(ts[0] == Punct(',') && ClosesAt(ts, 0 + 1));
        forall i | 0 <= i < |rest| ensures !(rest[i] == Punct(',') && ClosesAt(rest, i + 1)) {
          assert !(ts[i + 1] == Punct(',') && ClosesAt(ts, i + 1 + 1));
        }
      }
      NoCommaGoes(items[1..]);
    }
  }

  /** JSON as JSON -- whitespace and all, but no comment -- comes back as it is. */
  lemma JsonIsReturnedAsItIs(v: Value, items: seq<Item>)
    requires ProperValue(v) && Plain(items) && Tokens(items) == ValueTokens(v)
    ensures Stripped(Render(items)) == Render(items)
  {
    PlainIsWellFormed(items);
    CommentsAreDropped(items);
    ValuesAreNeat(v);
    TrailingCommasAreDropped(items);
    NoCommaGoes(items);
  }

  // ------------------------------------------------------ no comment survives --

  /** Nothing outside a string literal begins a comment: no comment is overlooked,
   *  and none is seen in a string. */
  lemma CommentsAreSeen(c: char, literal: string, rest: string)
    requires c != '"' && Closes(literal)
    ensures !CommentFree("//" + rest) && !CommentFree("/*" + rest)
    ensures CommentFree([c] + rest) <==>
            CommentFree(rest) && !(c == '/' && rest != "" && (rest[0] == '/' || rest[0] == '*'))
    ensures CommentFree("\"" + literal + rest) <==> CommentFree(rest)
  {
    assert ([c] + rest)[1..] == rest;
    var text := "\"" + literal + rest;
    assert text == "\"" + (literal + rest) && text[1..] == literal + rest;
    LiteralEndsAlike(literal, rest);
    assert text[1 + |literal|..] == rest;
  }

  predicate CommentFree(s: string)
    decreases |s|
  {
    if s == "" then true
    else if s[0] == '"' then CommentFree(s[1 + LiteralLength(s[1..])..])
    else !(s[0] == '/' && |s| > 1 && (s[1] == '/' || s[1] == '*')) && CommentFree(s[1..])
  }

  /** A literal runs to the quote that closes it, or to the end of the text. */
  lemma {:induction false} LiteralClosesOrEnds(s: string)
    ensures LiteralLength(s) == |s| || Closes(s[..LiteralLength(s)])
  {
    if s == "" {
    } else if s[0] == '\\' && |s| > 1 {
      LiteralClosesOrEnds(s[2..]);
      assert s[..LiteralLength(s)][2..] == s[2..][..LiteralLength(s[2..])];
    } else if s[0] == '"' {
      assert s[..1] == "\"";
    } else {
      LiteralClosesOrEnds(s[1..]);
      assert s[..LiteralLength(s)][1..] == s[1..][..LiteralLength(s[1..])];
    }
  }

  /** A literal that was copied whole is scanned whole again. */
  lemma LiteralScansAgain(s: string, after: string)
    requires s != "" && s[0] == '"'
    ensures var n := 1 + LiteralLength(s[1..]);
      (n == |s| && after == "") || Closes(s[1..n]) ==>
        1 + LiteralLength((s[..n] + after)[1..]) == n && (s[..n] + after)[n..] == after
  {
    var n := 1 + LiteralLength(s[1..]);
    assert (s[..n] + after)[1..] == s[1..n] + after;
    if Closes(s[1..n]) { LiteralEndsAlike(s[1..n], after); }
    else if n == |s| && after == "" { assert s[1..n] + after == s[1..]; }
  }

  lemma KeptLiteralIsCommentFree(s: string, after: string)
    requires s != "" && s[0] == '"' && CommentFree(after)
    requires 1 + LiteralLength(s[1..]) == |s| ==> after == ""
    ensures CommentFree(s[..1 + LiteralLength(s[1..])] + after)
  {
    var n := 1 + LiteralLength(s[1..]);
    LiteralClosesOrEnds(s[1..]);
    assert s[1..][..n - 1] == s[1..n];
    LiteralScansAgain(s, after);
  }

  lemma UncommentedStarts(s: string)
    requires s != "" && s[0] != '/'
    ensures Uncommented(s) != "" && Uncommented(s)[0] == s[0]
  {
  }

  lemma {:induction false} UncommentedIsCommentFree(s: string)
    ensures CommentFree(Uncommented(s))
    decreases |s|
  {
    if s == "" {
    } else if s[0] == '"' {
      var n := 1 + LiteralLength(s[1..]);
      UncommentedIsCommentFree(s[n..]);
      KeptLiteralIsCommentFree(s, Uncommented(s[n..]));
    } else if s[0] == '/' && |s| > 1 && s[1] == '/' {
      UncommentedIsCommentFree(s[LineLength(s)..]);
    } else if s[0] == '/' && |s| > 1 && s[1] == '*' {
      UncommentedIsCommentFree(s[2 + BlockLength(s[2..])..]);
    } else {
      UncommentedIsCommentFree(s[1..]);
      if s[0] == '/' && |s| > 1 { UncommentedStarts(s[1..]); }
      assert ([s[0]] + Uncommented(s[1..]))[1..] == Uncommented(s[1..]);
    }
  }

  lemma CommaFreeStarts(s: string)
    requires s != ""
    ensures var out := WithoutTrailingCommas(s);
      out == "" || out[0] == s[0] || (s[0] == ',' && (IsSpace(out[0]) || IsCloser(out[0])))
  {
  }

  lemma {:induction false} CommaFreeIsCommentFree(s: string)
    requires CommentFree(s)
    ensures CommentFree(WithoutTrailingCommas(s))
    decreases |s|
  {
    if s == "" {
    } else if s[0] == '"' {
      var n := 1 + LiteralLength(s[1..]);
      CommaFreeIsCommentFree(s[n..]);
      KeptLiteralIsCommentFree(s, WithoutTrailingCommas(s[n..]));
    } else {
      CommaFreeIsCommentFree(s[1..]);
      if |s| > 1 { CommaFreeStarts(s[1..]); }
      assert ([s[0]] + WithoutTrailingCommas(s[1..]))[1..] == WithoutTrailingCommas(s[1..]);
    }
  }

  /** Of any text at all: what stripping leaves has no comment outside a string. */
  lemma NoCommentSurvives(s: string)
    ensures CommentFree(Stripped(s))
  {
    UncommentedIsCommentFree(s);
    CommaFreeIsCommentFree(Uncommented(s));
  }
}
