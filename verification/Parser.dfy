/** A command line, taken apart: what its words say, and what may be said in words. */
module Parser {
  import opened Args
  import opened Broker
  import opened Text
  import opened Wrappers

  // --------------------------------------------------- what a line of words is --

  /** An option with its values, or a word that is no option's name. */
  predicate Readable(g: Group) {
    if g.Word? then g.v != "--" && OptionOf(g.v).None? else Printable(g)
  }

  /** The last option lacks its last `n` values, which are then empty. */
  ghost predicate IsCut(argv: seq<string>, gs: seq<Group>, n: nat) {
    argv + seq(n, _ => "") == AllWords(gs) && (n > 0 ==> gs != [] && n <= |Values(gs[|gs| - 1])|)
  }

  /** The words say these options in this order, and after `--` what to execute. */
  ghost predicate Spells(argv: seq<string>, gs: seq<Group>, exec: Option<seq<string>>) {
    && (forall g :: g in gs ==> Readable(g))
    && (if exec.Some? then argv == AllWords(gs) + ["--"] + exec.value else exists n :: IsCut(argv, gs, n))
  }

  /** What options mean, said in this order. */
  function Taken(gs: seq<Group>, exec: Option<seq<string>>, workspaces: string,
                 decode: string -> Option<Appearance>): Option<Args> {
    var o := Said(gs, exec, UNSAID, decode);
    if o.None? then None else Invocation(o.value, workspaces)
  }

  function Said(gs: seq<Group>, exec: Option<seq<string>>, o: Options,
                decode: string -> Option<Appearance>): Option<Options> {
    var said := ApplyAll(gs, o, decode);
    if said.Some? && exec.Some? then Some(said.value.(exec := exec)) else said
  }

  // --------------------------------------------------- what options say at last --

  /** The last of the options that say something of it. */
  function LastOf<T>(gs: seq<Group>, said: Group -> Option<T>): Option<T> {
    if gs == [] then None
    else
      var last := said(gs[|gs| - 1]);
      if last.Some? then last else LastOf(gs[..|gs| - 1], said)
  }

  function Giving(which: nat): Group -> Option<string>
    requires 1 <= which <= 7
  {
    (g: Group) => if ValueGiven(g) == which then Some(Values(g)[0]) else None
  }

  function Commanding(): Group -> Option<Command> { (g: Group) => CommandSaid(g) }

  function Bundling(): Group -> Option<string> { (g: Group) => TransferSaid(g) }

  function ThemingBy(decode: string -> Option<Appearance>): Group -> Option<Appearance> {
    (g: Group) => if g.SetAppearance? then decode(g.v) else None
  }

  function MovingTo(): Group -> Option<Move> {
    (g: Group) => if g.SetMove? then Some(Move(g.l, ToNumber(g.p))) else None
  }

  function WordsOf(gs: seq<Group>): seq<string> {
    if gs == [] then []
    else WordsOf(gs[..|gs| - 1]) + if gs[|gs| - 1].Word? then [gs[|gs| - 1].v] else []
  }

  /** Each thing is what was last said of it; a switch is on if it was thrown at all. */
  ghost predicate IsWhatIsSaid(o: Options, gs: seq<Group>, decode: string -> Option<Appearance>) {
    && AreNamed(o, gs) && AreGiven(o, gs, decode) && AreThrown(o, gs)
    && o.positional == WordsOf(gs) && o.exec.None?
  }

  ghost predicate AreNamed(o: Options, gs: seq<Group>) {
    && o.subrepo == LastOf(gs, Giving(1))
    && o.config == LastOf(gs, Giving(2))
    && o.worktree == LastOf(gs, Giving(3))
    && o.branch == LastOf(gs, Giving(4))
    && o.from == LastOf(gs, Giving(5))
    && o.ref == LastOf(gs, Giving(6))
    && o.path == LastOf(gs, Giving(7))
  }

  ghost predicate AreGiven(o: Options, gs: seq<Group>, decode: string -> Option<Appearance>) {
    && o.command == LastOf(gs, Commanding()).GetOr(Run)
    && o.transfer == LastOf(gs, Bundling())
    && o.appearance == LastOf(gs, ThemingBy(decode))
    && o.move == LastOf(gs, MovingTo())
  }

  ghost predicate AreThrown(o: Options, gs: seq<Group>) {
    && (o.rebuild <==> SetRebuild in gs || SetNoCache in gs)
    && (o.noCache <==> SetNoCache in gs)
    && (o.all <==> SetAll in gs)
    && (o.force <==> SetForce in gs)
    && (o.json <==> SetJson in gs)
    && (o.fetchOnly <==> SetFetchOnly in gs)
  }

  lemma OneMoreLast<T>(gs: seq<Group>, g: Group, said: Group -> Option<T>)
    ensures LastOf(gs + [g], said) == if said(g).Some? then said(g) else LastOf(gs, said)
  {
    assert (gs + [g])[..|gs|] == gs;
  }

  lemma OneMoreNamed(o: Options, gs: seq<Group>, g: Group, decode: string -> Option<Appearance>)
    requires AreNamed(o, gs)
    ensures AreNamed(Updated(g, o, decode), gs + [g])
  {
    OneMoreLast(gs, g, Giving(1));
    OneMoreLast(gs, g, Giving(2));
    OneMoreLast(gs, g, Giving(3));
    OneMoreLast(gs, g, Giving(4));
    OneMoreLast(gs, g, Giving(5));
    OneMoreLast(gs, g, Giving(6));
    OneMoreLast(gs, g, Giving(7));
  }

  lemma OneMoreGiven(o: Options, gs: seq<Group>, g: Group, decode: string -> Option<Appearance>)
    requires AreGiven(o, gs, decode) && !Refused(g, decode)
    ensures AreGiven(Updated(g, o, decode), gs + [g], decode)
  {
    OneMoreLast(gs, g, Commanding());
    OneMoreLast(gs, g, Bundling());
    OneMoreLast(gs, g, ThemingBy(decode));
    OneMoreLast(gs, g, MovingTo());
  }

  lemma OneMoreThrown(o: Options, gs: seq<Group>, g: Group, decode: string -> Option<Appearance>)
    requires AreThrown(o, gs)
    ensures AreThrown(Updated(g, o, decode), gs + [g])
  {
  }

  lemma OneMoreSaid(o: Options, gs: seq<Group>, g: Group, decode: string -> Option<Appearance>)
    requires IsWhatIsSaid(o, gs, decode) && !Refused(g, decode)
    ensures IsWhatIsSaid(Updated(g, o, decode), gs + [g], decode)
  {
    assert (gs + [g])[..|gs|] == gs;
    OneMoreNamed(o, gs, g, decode);
    OneMoreGiven(o, gs, g, decode);
    OneMoreThrown(o, gs, g, decode);
  }

  /** Options in a row are taken exactly when none is refused by itself, and then
   *  mean what is last said of each thing. */
  lemma {:induction false} OptionsSayTheirLast(gs: seq<Group>, decode: string -> Option<Appearance>)
    ensures ApplyAll(gs, UNSAID, decode).Some? <==> forall g :: g in gs ==> !Refused(g, decode)
    ensures ApplyAll(gs, UNSAID, decode).Some? ==> IsWhatIsSaid(ApplyAll(gs, UNSAID, decode).value, gs, decode)
  {
    if gs != [] {
      var front, last := gs[..|gs| - 1], gs[|gs| - 1];
      assert gs == front + [last];
      OptionsSayTheirLast(front, decode);
      AppliedOver(front, [last], UNSAID, decode);
      var o := ApplyAll(front, UNSAID, decode);
      if o.Some? {
        Tail(last, [], o.value, decode);
        assert [last] + [] == [last];
        ApplyIsUpdate(last, o.value, decode);
        if !Refused(last, decode) { OneMoreSaid(o.value, front, last, decode); }
      }
    }
  }

  // ------------------------------------------------------- a line read as spelled --

  lemma ReadableIsKnown(g: Group, decode: string -> Option<Appearance>)
    requires Readable(g)
    ensures Knows(Desolate(decode), g)
  {
    if !g.Word? { EveryOptionIsKnown(g, decode); }
  }

  lemma CutStandsApart(g: Group, n: nat, reader: Reader)
    requires Knows(reader, g) && 0 < n <= |Values(g)|
    requires forall i :: |Values(g)| - n <= i < |Values(g)| ==> Values(g)[i] == ""
    ensures BeginsWith([Head(g)] + Values(g)[..|Values(g)| - n], g, [], reader)
  {
    var queue := [Head(g)] + Values(g)[..|Values(g)| - n];
    var v, w := Shift(queue[1..]), Shift(Rest(queue[1..]));
    GroupIsBack(g, Head(g), v, w);
  }

  lemma {:induction false} SpelledIsRead(argv: seq<string>, gs: seq<Group>, exec: Option<seq<string>>, o: Options,
                                         decode: string -> Option<Appearance>)
    requires Spells(argv, gs, exec)
    ensures Read(argv, o, Desolate(decode)) == Said(gs, exec, o, decode)
  {
    if gs == [] {
      assert exec.Some? ==> argv == ["--"] + exec.value && argv[1..] == exec.value;
    } else {
      var g, more := gs[0], gs[1..];
      ReadableIsKnown(g, decode);
      var rest := AfterFirst(argv, gs, exec, decode);
      ReadOne(argv, g, rest, o, Desolate(decode));
      assert gs == [g] + more;
      Tail(g, more, o, decode);
      var next := Apply(g, o, decode);
      if next.Some? { SpelledIsRead(rest, more, exec, next.value, decode); }
    }
  }

  /** The first option stands at the head of the line, and the rest spells the rest. */
  lemma AfterFirst(argv: seq<string>, gs: seq<Group>, exec: Option<seq<string>>, decode: string -> Option<Appearance>)
    returns (rest: seq<string>)
    requires Spells(argv, gs, exec) && gs != []
    ensures Spells(rest, gs[1..], exec)
    ensures BeginsWith(argv, gs[0], rest, Desolate(decode))
  {
    var g, more := gs[0], gs[1..];
    ReadableIsKnown(g, decode);
    assert forall m :: m in more ==> m in gs;
    if exec.Some? {
      rest := AllWords(more) + ["--"] + exec.value;
      assert argv == Words(g) + rest;
      WordsStandApart(Head(g), Values(g), g, rest, Desolate(decode));
    } else {
      rest := AfterCut(argv, gs, Desolate(decode));
    }
  }

  lemma AfterCut(argv: seq<string>, gs: seq<Group>, reader: Reader) returns (rest: seq<string>)
    requires gs != [] && Knows(reader, gs[0]) && exists n :: IsCut(argv, gs, n)
    ensures exists n :: IsCut(rest, gs[1..], n)
    ensures BeginsWith(argv, gs[0], rest, reader)
  {
    var g, more := gs[0], gs[1..];
    var n :| IsCut(argv, gs, n);
    if n > 0 && more == [] {
      LastIsCut(argv, g, gs, n);
      CutStandsApart(g, n, reader);
      rest := [];
      assert IsCut(rest, more, 0);
    } else {
      CutFurtherOn(argv, gs, n);
      rest := argv[|Words(g)|..];
      assert IsCut(rest, more, n);
      WordsStandApart(Head(g), Values(g), g, rest, reader);
    }
  }

  lemma LastIsCut(argv: seq<string>, g: Group, gs: seq<Group>, n: nat)
    requires gs == [g] && n > 0 && IsCut(argv, gs, n)
    ensures argv == [Head(g)] + Values(g)[..|Values(g)| - n]
    ensures forall i :: |Values(g)| - n <= i < |Values(g)| ==> Values(g)[i] == ""
  {
    assert AllWords(gs) == Words(g);
    var whole := argv + seq(n, _ => "");
    assert argv == whole[..|argv|];
    forall i | |Values(g)| - n <= i < |Values(g)| ensures Values(g)[i] == "" {
      assert whole[i + 1] == Values(g)[i];
    }
  }

  lemma CutFurtherOn(argv: seq<string>, gs: seq<Group>, n: nat)
    requires gs != [] && IsCut(argv, gs, n) && (n > 0 ==> |gs| > 1)
    ensures |Words(gs[0])| <= |argv| && argv == Words(gs[0]) + argv[|Words(gs[0])|..]
    ensures IsCut(argv[|Words(gs[0])|..], gs[1..], n)
  {
    var first, blanks := Words(gs[0]), seq(n, _ => "");
    assert AllWords(gs) == first + AllWords(gs[1..]);
    LastWordsFit(gs[1..], n);
    assert argv + blanks == first + AllWords(gs[1..]);
    assert |argv| >= |first|;
    assert (argv + blanks)[..|first|] == argv[..|first|];
    assert (argv + blanks)[|first|..] == argv[|first|..] + blanks;
  }

  lemma {:induction false} LastWordsFit(gs: seq<Group>, n: nat)
    requires n > 0 ==> gs != [] && n <= |Values(gs[|gs| - 1])|
    ensures n <= |AllWords(gs)|
  {
    if |gs| > 1 { LastWordsFit(gs[1..], n); }
  }

  // ------------------------------------------------------- every line is spelled --

  lemma ShortIsSpelled(word: string, v: string, w: string)
    requires OptionOf(word).Some? && |word| <= 6
    ensures var g := GroupOf(OptionOf(word), word, v, w); Printable(g) && Head(g) == word
  {
    if OptionOf(word).value.Saying? || OptionOf(word).value.Transferring? { CommandIsSpelled(word, v, w); }
  }

  lemma CommandIsSpelled(word: string, v: string, w: string)
    requires OptionOf(word).Some? && |word| <= 6 && (OptionOf(word).value.Saying? || OptionOf(word).value.Transferring?)
    ensures var g := GroupOf(OptionOf(word), word, v, w); Printable(g) && Head(g) == word
  {
  }

  lemma MiddlingIsSpelled(word: string, v: string, w: string)
    requires OptionOf(word).Some? && 6 < |word| <= 9
    ensures var g := GroupOf(OptionOf(word), word, v, w); Printable(g) && Head(g) == word
  {
  }

  lemma LongIsSpelled(word: string, v: string, w: string)
    requires OptionOf(word).Some? && |word| > 9
    ensures var g := GroupOf(OptionOf(word), word, v, w); Printable(g) && Head(g) == word
  {
  }

  lemma GroupIsReadable(word: string, v: string, w: string)
    requires word != "--"
    ensures var g := GroupOf(OptionOf(word), word, v, w);
      Readable(g) && Words(g) == [word] + (match Arity(OptionOf(word)) case 0 => [] case 1 => [v] case _ => [v, w])
  {
    if OptionOf(word).Some? {
      if |word| <= 6 { ShortIsSpelled(word, v, w); }
      else if |word| <= 9 { MiddlingIsSpelled(word, v, w); }
      else { LongIsSpelled(word, v, w); }
    }
  }

  /** Any words at all are spelled in some way. */
  lemma {:induction false} EveryLineIsSpelled(argv: seq<string>) returns (gs: seq<Group>, exec: Option<seq<string>>)
    ensures Spells(argv, gs, exec)
    decreases |argv|
  {
    if argv == [] {
      assert IsCut(argv, [], 0);
      return [], None;
    }
    if argv[0] == "--" {
      assert argv == [] + ["--"] + argv[1..];
      return [], Some(argv[1..]);
    }
    var v, w := Shift(argv[1..]), Shift(Rest(argv[1..]));
    var g, k := GroupOf(OptionOf(argv[0]), argv[0], v, w), Arity(OptionOf(argv[0]));
    GroupIsReadable(argv[0], v, w);
    if |argv| > k {
      var more;
      var rest := argv[1 + k..];
      more, exec := EveryLineIsSpelled(rest);
      gs := [g] + more;
      assert argv == Words(g) + rest;
      FirstIsSpelled(rest, g, more, exec);
    } else {
      gs, exec := [g], None;
      ShortLineIsSpelled(argv, g, 1 + k - |argv|);
    }
  }

  lemma ShortLineIsSpelled(argv: seq<string>, g: Group, n: nat)
    requires Readable(g) && argv + seq(n, _ => "") == Words(g) && n <= |Values(g)|
    ensures Spells(argv, [g], None)
  {
    assert AllWords([g]) == Words(g) + AllWords([]);
    assert IsCut(argv, [g], n);
  }

  lemma FirstIsSpelled(rest: seq<string>, g: Group, more: seq<Group>, exec: Option<seq<string>>)
    requires Readable(g) && Spells(rest, more, exec)
    ensures Spells(Words(g) + rest, [g] + more, exec)
  {
    var gs := [g] + more;
    assert gs[1..] == more && AllWords(gs) == Words(g) + AllWords(more);
    if exec.Some? {
      assert Words(g) + rest == AllWords(gs) + ["--"] + exec.value;
    } else {
      var n :| IsCut(rest, more, n);
      assert IsCut(Words(g) + rest, gs, n);
    }
  }

  // ------------------------------------------------------------------ the parser --

  /** The next word; none there is an empty one. */
  method Next(queue: seq<string>) returns (word: string, rest: seq<string>)
    ensures word == Shift(queue) && rest == Rest(queue)
  {
    if queue == [] { return "", []; }
    return queue[0], queue[1..];
  }

  /** An option that takes no value. */
  method TakeFlag(option: Known, o: Options) returns (next: Options)
    requires Arity(Some(option)) == 0
    ensures Apply(GroupOf(Some(option), "", "", ""), o, _ => None) == Some(next)
  {
    match option
    case Saying(c) => next := o.(command := c);
    case Force => next := o.(force := true);
    case FetchOnly => next := o.(fetchOnly := true);
    case All => next := o.(all := true);
    case Json => next := o.(json := true);
    case Rebuild => next := o.(rebuild := true);
    case NoCache => next := o.(noCache := true, rebuild := true);
  }

  /** An option whose value may be any word, for now. */
  method TakeValue(option: Known, queue: seq<string>, o: Options) returns (next: Options, rest: seq<string>)
    requires option.Config? || option.Worktree? || option.Branch? || option.From? || option.Within?
    ensures Apply(GroupOf(Some(option), "", Shift(queue), ""), o, _ => None) == Some(next)
    ensures rest == Rest(queue)
  {
    var v;
    v, rest := Next(queue);
    match option
    case Config => next := o.(config := Some(v));
    case Worktree => next := o.(worktree := Some(v));
    case Branch => next := o.(branch := Some(v));
    case From => next := o.(from := Some(v));
    case Within => next := o.(path := Some(v));
  }

  /** An option whose value has a grammar: nothing when it is refused. */
  method TakeChecked(option: Known, queue: seq<string>, o: Options, decode: string -> Option<Appearance>)
    returns (next: Option<Options>, rest: seq<string>)
    requires option.Transferring? || option.Subrepo? || option.Transfer? || option.Ref? || option.Theme?
    ensures next == Apply(GroupOf(Some(option), "", Shift(queue), ""), o, decode)
    ensures rest == Rest(queue)
  {
    var v;
    v, rest := Next(queue);
    next := None;
    match option {
      case Transferring(c) => if IsTransferName(v) { next := Some(o.(command := c, transfer := Some(v))); }
      case Subrepo =>
        if RelativeWithin(v) && !StartsWith(v, "-") { next := Some(o.(command := SuedeBuild, subrepo := Some(v))); }
      case Transfer => if IsTransferName(v) { next := Some(o.(transfer := Some(v))); }
      case Ref => if IsRef(v) { next := Some(o.(ref := Some(v))); }
      case Theme =>
        var theme := decode(v);
        if theme.Some? { next := Some(o.(appearance := theme)); }
    }
  }

  method TakeMove(queue: seq<string>, o: Options) returns (next: Option<Options>, rest: seq<string>)
    ensures next == Apply(SetMove(Shift(queue), Shift(Rest(queue))), o, _ => None)
    ensures rest == Rest(Rest(queue))
  {
    var l, p;
    l, rest := Next(queue);
    p, rest := Next(rest);
    if !IsLabel(l) || !IsPortWord(p) { return None, rest; }
    return Some(o.(move := Some(Move(l, ToNumber(p))))), rest;
  }

  /** An option, and the words after it that are its own; nothing when they are refused. */
  method TakeOption(option: Known, queue: seq<string>, o: Options, decode: string -> Option<Appearance>)
    returns (next: Option<Options>, rest: seq<string>)
    ensures next == Apply(GroupOf(Some(option), "", Shift(queue), Shift(Rest(queue))), o, decode)
    ensures rest == (match Arity(Some(option)) case 0 => queue case 1 => Rest(queue) case _ => Rest(Rest(queue)))
  {
    if option.Moving? {
      next, rest := TakeMove(queue, o);
    } else if option.Config? || option.Worktree? || option.Branch? || option.From? || option.Within? {
      var taken;
      taken, rest := TakeValue(option, queue, o);
      next := Some(taken);
    } else if option.Transferring? || option.Subrepo? || option.Transfer? || option.Ref? || option.Theme? {
      next, rest := TakeChecked(option, queue, o, decode);
    } else {
      var taken := TakeFlag(option, o);
      next, rest := Some(taken), queue;
    }
  }

  /** Combinations that mean nothing, asked after in turn. */
  method Check(o: Options) returns (ok: bool)
    ensures ok <==> Coherent(o)
  {
    if o.all && o.command != Stop { return false; }
    if o.branch.Some? && o.command != CreateWorktree { return false; }
    if o.from.Some? && o.command != CreateWorktree { return false; }
    if o.force && o.command != RemoveWorktree { return false; }
    if (o.command == CreateWorktree || o.command == RemoveWorktree) && o.worktree.None? { return false; }
    if o.move.Some? && o.command != PortsOf { return false; }
    if o.appearance.Some? && o.command != Run { return false; }
    if o.json && o.command != List && o.command != PortsOf { return false; }
    if o.exec.Some? && o.command != Exec { return false; }
    if o.command == Exec && (o.exec.None? || o.exec.value == []) { return false; }
    if o.fetchOnly && o.command != Pull { return false; }
    if o.ref.Some? && o.command != SuedeReport && o.command != SuedeBuild { return false; }
    if o.command == SuedeBuild && o.transfer.None? { return false; }
    if o.transfer.Some? && o.command !in [Bundle, Pull, SuedeBuild] { return false; }
    if o.path.Some? && o.command != Reclaim { return false; }
    if o.path.Some? && !RelativeWithin(o.path.value) { return false; }
    return true;
  }

  lemma OptionIsRead(queue: seq<string>, o: Options, reader: Reader)
    requires queue != [] && queue[0] != "--" && reader.known(queue[0]).Some?
    ensures var option, rest := reader.known(queue[0]), queue[1..];
      var next := Apply(GroupOf(option, "", Shift(rest), Shift(Rest(rest))), o, reader.decode);
      var after := match Arity(option) case 0 => rest case 1 => Rest(rest) case _ => Rest(Rest(rest));
      Read(queue, o, reader) == if next.None? then None else Read(after, next.value, reader)
  {
    var option, v, w := reader.known(queue[0]), Shift(queue[1..]), Shift(Rest(queue[1..]));
    assert GroupOf(option, "", v, w) == GroupOf(option, queue[0], v, w);
  }

  lemma WordIsRead(queue: seq<string>, o: Options, reader: Reader)
    requires queue != [] && queue[0] != "--" && reader.known(queue[0]).None?
    ensures Read(queue, o, reader)
         == if StartsWith(queue[0], "--") then None
            else Read(queue[1..], o.(positional := o.positional + [queue[0]]), reader)
  {
    var g := Word(queue[0]);
    assert GroupOf(None, queue[0], Shift(queue[1..]), Shift(Rest(queue[1..]))) == g && Arity(None) == 0;
    var next := Apply(g, o, reader.decode);
    assert Read(queue, o, reader) == if next.None? then None else Read(queue[1..], next.value, reader);
  }

  /** What all the words say; nothing when one of them is refused. */
  method Scan(argv: seq<string>, decode: string -> Option<Appearance>) returns (r: Option<Options>)
    ensures r == Read(argv, UNSAID, Desolate(decode))
  {
    var o, queue := UNSAID, argv;
    while queue != []
      invariant Read(argv, UNSAID, Desolate(decode)) == Read(queue, o, Desolate(decode))
      decreases |queue|
    {
      ghost var before := queue;
      var arg;
      arg, queue := Next(queue);
      if arg == "--" { return Some(o.(exec := Some(queue))); }
      var option := OptionOf(arg);
      if option.Some? {
        OptionIsRead(before, o, Desolate(decode));
        var next;
        next, queue := TakeOption(option.value, queue, o, decode);
        if next.None? { return None; }
        o := next.value;
      } else {
        WordIsRead(before, o, Desolate(decode));
        if StartsWith(arg, "--") { return None; }
        o := o.(positional := o.positional + [arg]);
      }
    }
    return Some(o);
  }

  /**
   * Parse a command line; nothing when its usage is refused. However the line is
   * spelled as options and their values -- and any line is spelled somehow -- it is
   * taken to mean what they say in turn. `decode` reads the JSON of `--appearance`.
   */
  method ParseArgs(argv: seq<string>, workspaces: string, decode: string -> Option<Appearance>)
    returns (r: Option<Args>)
    ensures r == Parsed(argv, workspaces, decode)
    ensures forall gs, exec :: Spells(argv, gs, exec) ==> r == Taken(gs, exec, workspaces, decode)
    ensures exists gs, exec :: Spells(argv, gs, exec)
  {
    ghost var spelling, tail := EveryLineIsSpelled(argv);
    forall gs, exec | Spells(argv, gs, exec)
      ensures Parsed(argv, workspaces, decode) == Taken(gs, exec, workspaces, decode)
    {
      SpelledIsRead(argv, gs, exec, UNSAID, decode);
    }
    var o := Scan(argv, decode);
    if o.None? { return None; }
    var ok := Check(o.value);
    if !ok { return None; }
    r := Invocation(o.value, workspaces);
  }
}
