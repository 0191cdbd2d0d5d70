/** What the editor may ask of the broker, and what the runner is told. */
module Requests {
  import opened Args
  import opened Broker
  import opened Parser
  import opened Text
  import opened Wrappers
  import Names

  datatype TargetOp =
    | Start(rebuild: bool, theme: Appearance)
    | StopIt
    | PortsOfIt(move: Option<(string, nat)>, json: bool)
    | ReviewIt
    | PopulateIt
    | AddWorktree(branch: Option<string>, from: Option<string>)
    | RemoveIt(force: bool)
    | BundleIt(transfer: string)
    | PullIt(transfer: string, fetch: bool)

  datatype Request =
    | ListAll(json: bool)
    | StopAll
    | ShowDinds
    | On(project: string, worktree: Option<string>, op: TargetOp)

  const HIGHEST_PORT := 65535

  /** A ref `add` may hand git: no option, and no word split in two. */
  predicate ValidBranch(b: string) {
    0 < |b| <= 255 && b[0] != '-' && forall c :: c in b ==> !IsSpace(c) && '\U{001f}' < c && c != '\U{007f}'
  }

  predicate IsMove(m: (string, nat)) {
    IsLabel(m.0) && 1 <= m.1 <= HIGHEST_PORT
  }

  /** The shape and the names the broker holds a request to. */
  predicate Accepted(r: Request) {
    r.On? ==>
      && Names.ValidName(r.project)
      && (r.worktree.Some? ==> Names.ValidWorktree(r.worktree.value))
      && match r.op
         case PortsOfIt(move, _) => move.Some? ==> IsMove(move.value)
         case AddWorktree(branch, from) =>
           && r.worktree.Some? && ValidBranch(branch.GetOr(r.worktree.value))
           && (from.Some? ==> ValidBranch(from.value))
         case RemoveIt(_) => r.worktree.Some?
         case BundleIt(transfer) => IsTransferName(transfer)
         case PullIt(transfer, _) => IsTransferName(transfer)
         case _ => true
  }

  function If(condition: bool, g: Group): seq<Group> {
    if condition then [g] else []
  }

  /** The flags built for an operation. `config` is the frozen copy of the spec
   *  a start was judged by; `encode` prints a theme as JSON. */
  function Flags(op: TargetOp, worktree: Option<string>, config: string, encode: Appearance -> string): seq<Group> {
    match op
    case Start(rebuild, theme) =>
      [SetConfig(config)] + If(rebuild, SetRebuild) + If(theme != map[], SetAppearance(encode(theme)))
    case StopIt => [Says(Stop)]
    case PortsOfIt(move, json) =>
      [Says(PortsOf)] + (if move.Some? then [SetMove(move.value.0, Digits(move.value.1))] else []) + If(json, SetJson)
    case ReviewIt => [Says(Review)]
    case PopulateIt => [Says(Populate)]
    case AddWorktree(branch, from) =>
      [Says(CreateWorktree), SetBranch(branch.GetOr(worktree.GetOr("")))]
      + (if from.Some? then [SetFrom(from.value)] else [])
    case RemoveIt(force) => [Says(RemoveWorktree)] + If(force, SetForce)
    case BundleIt(transfer) => [WithTransfer(Bundle, transfer)]
    case PullIt(transfer, fetch) => [WithTransfer(Pull, transfer)] + If(fetch, SetFetchOnly)
  }

  /** Then the names that select the target. */
  function Selecting(project: string, worktree: Option<string>): seq<Group> {
    (if worktree.Some? then [SetWorktree(worktree.value)] else []) + [Word(project)]
  }

  function Groups(r: Request, config: string, encode: Appearance -> string): seq<Group> {
    match r
    case ListAll(json) => [Says(List)] + If(json, SetJson)
    case StopAll => [Says(Stop), SetAll]
    case ShowDinds => [Says(Dinds)]
    case On(project, worktree, op) => Flags(op, worktree, config, encode) + Selecting(project, worktree)
  }

  function Argv(r: Request, config: string, encode: Appearance -> string): seq<string> {
    AllWords(Groups(r, config, encode))
  }

  /** What a request asks the runner for. */
  function Meant(op: TargetOp, worktree: Option<string>, config: string): Options {
    match op
    case Start(rebuild, theme) =>
      UNSAID.(config := Some(config), rebuild := rebuild, appearance := if theme == map[] then None else Some(theme))
    case StopIt => UNSAID.(command := Stop)
    case PortsOfIt(move, json) =>
      var moved := if move.Some? then Some(Move(move.value.0, move.value.1)) else None;
      UNSAID.(command := PortsOf, json := json, move := moved)
    case ReviewIt => UNSAID.(command := Review)
    case PopulateIt => UNSAID.(command := Populate)
    case AddWorktree(branch, from) =>
      UNSAID.(command := CreateWorktree, branch := Some(branch.GetOr(worktree.GetOr(""))), from := from)
    case RemoveIt(force) => UNSAID.(command := RemoveWorktree, force := force)
    case BundleIt(transfer) => UNSAID.(command := Bundle, transfer := Some(transfer))
    case PullIt(transfer, fetch) => UNSAID.(command := Pull, transfer := Some(transfer), fetchOnly := fetch)
  }

  function Meaning(r: Request, config: string): Args {
    match r
    case ListAll(json) => Args(None, UNSAID.(command := List, json := json))
    case StopAll => Args(None, UNSAID.(command := Stop, all := true))
    case ShowDinds => Args(None, UNSAID.(command := Dinds))
    case On(project, worktree, op) => Args(Some(project), Meant(op, worktree, config).(worktree := worktree))
  }

  // ------------------------------------------------------------------ proofs --

  lemma {:induction false} DigitsAreRead(n: nat)
    ensures ToNumber(Digits(n)) == n
    ensures Digits(n) != "" && (n > 0 ==> Digits(n)[0] != '0')
    ensures forall i :: 0 <= i < |Digits(n)| ==> IsDigit(Digits(n)[i])
    ensures n < 10 ==> |Digits(n)| == 1
    ensures n >= 10 ==> |Digits(n)| == 1 + |Digits(n / 10)|
  {
    if n >= 10 {
      DigitsAreRead(n / 10);
      assert Digits(n)[..|Digits(n)| - 1] == Digits(n / 10);
    } else {
      assert Digits(n)[..0] == "";
    }
  }

  lemma PortsHaveFiveDigits(n: nat)
    requires 1 <= n <= HIGHEST_PORT
    ensures IsPortWord(Digits(n))
  {
    DigitsAreRead(n);
    DigitsAreRead(n / 10);
    DigitsAreRead(n / 10 / 10);
    DigitsAreRead(n / 10 / 10 / 10);
    DigitsAreRead(n / 10 / 10 / 10 / 10);
  }

  lemma AppliedOne(g: Group, o: Options, decode: string -> Option<Appearance>)
    ensures ApplyAll([g], o, decode) == Apply(g, o, decode)
    ensures ApplyAll([], o, decode) == Some(o)
  {
    Tail(g, [], o, decode);
    assert [g] + [] == [g];
  }

  lemma AppliedTwo(g: Group, more: seq<Group>, o: Options, decode: string -> Option<Appearance>)
    requires |more| <= 1 && Apply(g, o, decode).Some?
    ensures ApplyAll([g] + more, o, decode)
         == if more == [] then Apply(g, o, decode) else Apply(more[0], Apply(g, o, decode).value, decode)
  {
    Tail(g, more, o, decode);
    if more != [] {
      assert more == [more[0]];
      AppliedOne(more[0], Apply(g, o, decode).value, decode);
    }
  }

  lemma StartIsMeant(rebuild: bool, theme: Appearance, worktree: Option<string>, config: string,
                     encode: Appearance -> string, decode: string -> Option<Appearance>)
    requires theme != map[] ==> decode(encode(theme)) == Some(theme)
    ensures ApplyAll(Flags(Start(rebuild, theme), worktree, config, encode), UNSAID, decode)
         == Some(Meant(Start(rebuild, theme), worktree, config))
  {
    var a, b, c := [SetConfig(config)], If(rebuild, SetRebuild), If(theme != map[], SetAppearance(encode(theme)));
    AppliedOver(a + b, c, UNSAID, decode);
    AppliedTwo(SetConfig(config), b, UNSAID, decode);
    var o := UNSAID.(config := Some(config), rebuild := rebuild);
    AppliedOne(SetAppearance(encode(theme)), o, decode);
  }

  /** The flags of an operation say what it means, whatever the target. */
  lemma FlagsAreMeant(r: Request, config: string, encode: Appearance -> string, decode: string -> Option<Appearance>)
    requires Accepted(r) && r.On?
    requires r.op.Start? && r.op.theme != map[] ==> decode(encode(r.op.theme)) == Some(r.op.theme)
    ensures ApplyAll(Flags(r.op, r.worktree, config, encode), UNSAID, decode) == Some(Meant(r.op, r.worktree, config))
  {
    match r.op
    case Start(rebuild, theme) => StartIsMeant(rebuild, theme, r.worktree, config, encode, decode);
    case StopIt => AppliedOne(Says(Stop), UNSAID, decode);
    case ReviewIt => AppliedOne(Says(Review), UNSAID, decode);
    case PopulateIt => AppliedOne(Says(Populate), UNSAID, decode);
    case PortsOfIt(move, json) => PortsAreMeant(move, json, r.worktree, config, encode, decode);
    case AddWorktree(branch, from) => AddIsMeant(branch, from, r.worktree, config, encode, decode);
    case RemoveIt(force) => AppliedTwo(Says(RemoveWorktree), If(force, SetForce), UNSAID, decode);
    case BundleIt(transfer) => AppliedOne(WithTransfer(Bundle, transfer), UNSAID, decode);
    case PullIt(transfer, fetch) => AppliedTwo(WithTransfer(Pull, transfer), If(fetch, SetFetchOnly), UNSAID, decode);
  }

  lemma PortsAreMeant(move: Option<(string, nat)>, json: bool, worktree: Option<string>, config: string,
                      encode: Appearance -> string, decode: string -> Option<Appearance>)
    requires move.Some? ==> IsMove(move.value)
    ensures ApplyAll(Flags(PortsOfIt(move, json), worktree, config, encode), UNSAID, decode)
         == Some(Meant(PortsOfIt(move, json), worktree, config))
  {
    var b := if move.Some? then [SetMove(move.value.0, Digits(move.value.1))] else [];
    if move.Some? {
      PortsHaveFiveDigits(move.value.1);
      DigitsAreRead(move.value.1);
    }
    AppliedOver([Says(PortsOf)] + b, If(json, SetJson), UNSAID, decode);
    AppliedTwo(Says(PortsOf), b, UNSAID, decode);
    AppliedOne(SetJson, Meant(PortsOfIt(move, false), worktree, config), decode);
  }

  lemma AddIsMeant(branch: Option<string>, from: Option<string>, worktree: Option<string>, config: string,
                   encode: Appearance -> string, decode: string -> Option<Appearance>)
    ensures ApplyAll(Flags(AddWorktree(branch, from), worktree, config, encode), UNSAID, decode)
         == Some(Meant(AddWorktree(branch, from), worktree, config))
  {
    var a := [Says(CreateWorktree), SetBranch(branch.GetOr(worktree.GetOr("")))];
    var b := if from.Some? then [SetFrom(from.value)] else [];
    var o := UNSAID.(command := CreateWorktree, branch := Some(branch.GetOr(worktree.GetOr(""))));
    AppliedOver(a, b, UNSAID, decode);
    assert a == [a[0]] + [a[1]];
    AppliedTwo(a[0], [a[1]], UNSAID, decode);
    AppliedOne(SetFrom(from.GetOr("")), o, decode);
  }

  lemma SelectingIsMeant(project: string, worktree: Option<string>, o: Options, decode: string -> Option<Appearance>)
    requires !StartsWith(project, "--")
    ensures ApplyAll(Selecting(project, worktree), o, decode)
         == Some(o.(worktree := if worktree.Some? then worktree else o.worktree,
                    positional := o.positional + [project]))
  {
    if worktree.Some? { AppliedTwo(SetWorktree(worktree.value), [Word(project)], o, decode); }
    else {
      AppliedOne(Word(project), o, decode);
      assert [] + [Word(project)] == [Word(project)];
    }
  }

  /** A project's name is a plain word: no option, and already in its one form. */
  lemma NameIsPlain(p: string, workspaces: string)
    requires Names.ValidName(p) && workspaces != "" && workspaces[0] == '/'
    ensures p != "" && !StartsWith(p, "--") && ProjectName(p, workspaces) == p
  {
    assert IsAlnum(p[0]) && p[|p| - 1] != '/' by {
      if !Names.Segment(p) {
        var k :| 0 <= k < |p| && p[k] == '/' && Names.Segment(p[..k]) && Names.Segment(p[k + 1..]);
        assert p[..k][0] == p[0] && p[k + 1..][|p| - k - 2] == p[|p| - 1];
        assert p[|p| - 1] in p[k + 1..];
      } else {
        assert p[|p| - 1] in p;
      }
    }
    assert TrimSlashes(p) == p;
    assert "--"[0] == '-';
  }

  lemma EveryGroupIsPrintable(r: Request, config: string, encode: Appearance -> string, workspaces: string)
    requires Accepted(r) && workspaces != "" && workspaces[0] == '/'
    ensures forall g :: g in Groups(r, config, encode) ==> Printable(g)
  {
    if r.On? { NameIsPlain(r.project, workspaces); }
  }

  lemma MeaningIsCoherent(r: Request, config: string, workspaces: string)
    requires Accepted(r) && r.On? && workspaces != "" && workspaces[0] == '/'
    ensures Invocation(Meant(r.op, r.worktree, config).(worktree := r.worktree, positional := [r.project]), workspaces)
         == Some(Meaning(r, config))
  {
    NameIsPlain(r.project, workspaces);
  }

  lemma GlobalIsTaken(r: Request, config: string, workspaces: string, encode: Appearance -> string,
                      decode: string -> Option<Appearance>)
    requires !r.On?
    ensures Taken(Groups(r, config, encode), None, workspaces, decode) == Some(Meaning(r, config))
  {
    match r
    case ListAll(json) => AppliedTwo(Says(List), If(json, SetJson), UNSAID, decode);
    case StopAll =>
      assert [Says(Stop), SetAll] == [Says(Stop)] + [SetAll];
      AppliedTwo(Says(Stop), [SetAll], UNSAID, decode);
    case ShowDinds => AppliedOne(Says(Dinds), UNSAID, decode);
  }

  lemma TargetIsTaken(r: Request, config: string, workspaces: string, encode: Appearance -> string,
                      decode: string -> Option<Appearance>)
    requires Accepted(r) && r.On? && workspaces != "" && workspaces[0] == '/'
    requires r.op.Start? && r.op.theme != map[] ==> decode(encode(r.op.theme)) == Some(r.op.theme)
    ensures Taken(Groups(r, config, encode), None, workspaces, decode) == Some(Meaning(r, config))
  {
    NameIsPlain(r.project, workspaces);
    FlagsAreMeant(r, config, encode, decode);
    var flags, meant := Flags(r.op, r.worktree, config, encode), Meant(r.op, r.worktree, config);
    AppliedOver(flags, Selecting(r.project, r.worktree), UNSAID, decode);
    SelectingIsMeant(r.project, r.worktree, meant, decode);
    MeantIsPlain(r, config);
    MeaningIsCoherent(r, config, workspaces);
  }

  lemma MeantIsPlain(r: Request, config: string)
    requires r.On?
    ensures Meant(r.op, r.worktree, config).worktree == None && Meant(r.op, r.worktree, config).positional == []
  {
  }

  /**
   * The broker and the runner agree: every request that is accepted becomes a
   * command line the runner takes, and takes to mean that request -- the same
   * command, project, worktree and values.
   */
  lemma RequestsArriveAsMeant(r: Request, config: string, workspaces: string,
                              encode: Appearance -> string, decode: string -> Option<Appearance>)
    requires Accepted(r) && workspaces != "" && workspaces[0] == '/'
    requires r.On? && r.op.Start? && r.op.theme != map[] ==> decode(encode(r.op.theme)) == Some(r.op.theme)
    ensures Parsed(Argv(r, config, encode), workspaces, decode) == Some(Meaning(r, config))
  {
    EveryGroupIsPrintable(r, config, encode, workspaces);
    OptionsAreReadBack(Groups(r, config, encode), UNSAID, decode);
    if r.On? {
      TargetIsTaken(r, config, workspaces, encode, decode);
    } else {
      GlobalIsTaken(r, config, workspaces, encode, decode);
    }
  }

  /** Two ways to write one command line, with the options in another order. */
  lemma ReorderedLinesParseAlike(gs: seq<Group>, hs: seq<Group>, workspaces: string,
                                 decode: string -> Option<Appearance>)
    requires multiset(gs) == multiset(hs) && OneOfEach(gs)
    requires forall g :: g in gs ==> Printable(g)
    requires NamesOneBundle(gs)
    ensures Parsed(AllWords(gs), workspaces, decode) == Parsed(AllWords(hs), workspaces, decode)
  {
    NothingAtOdds(gs);
    OrderDoesNotMatter(gs, hs, UNSAID, decode);
    forall h | h in hs ensures Printable(h) {
      assert h in multiset(hs) && h in gs;
    }
    OptionsAreReadBack(gs, UNSAID, decode);
    OptionsAreReadBack(hs, UNSAID, decode);
  }

  ghost predicate AnyLineOrder(gs: seq<Group>, workspaces: string, decode: string -> Option<Appearance>) {
    forall hs :: multiset(hs) == multiset(gs) ==>
      Parsed(AllWords(hs), workspaces, decode) == Parsed(AllWords(gs), workspaces, decode)
  }

  /** A coherent line may be written in any order exactly when it does not name two
   *  bundles that differ. */
  lemma LineOrderMattersExactly(gs: seq<Group>, workspaces: string, decode: string -> Option<Appearance>)
    requires OneOfEach(gs) && forall g :: g in gs ==> Printable(g)
    requires Parsed(AllWords(gs), workspaces, decode).Some?
    ensures AnyLineOrder(gs, workspaces, decode) <==> NamesOneBundle(gs)
  {
    if NamesOneBundle(gs) {
      OneBundleInAnyOrder(gs, workspaces, decode);
    } else {
      var _ := TwoBundlesNotInAnyOrder(gs, workspaces, decode);
    }
  }

  lemma OneBundleInAnyOrder(gs: seq<Group>, workspaces: string, decode: string -> Option<Appearance>)
    requires OneOfEach(gs) && NamesOneBundle(gs) && forall g :: g in gs ==> Printable(g)
    ensures AnyLineOrder(gs, workspaces, decode)
  {
    forall hs | multiset(hs) == multiset(gs)
      ensures Parsed(AllWords(hs), workspaces, decode) == Parsed(AllWords(gs), workspaces, decode)
    {
      ReorderedLinesParseAlike(gs, hs, workspaces, decode);
    }
  }

  lemma TwoBundlesNotInAnyOrder(gs: seq<Group>, workspaces: string, decode: string -> Option<Appearance>)
    returns (hs: seq<Group>)
    requires OneOfEach(gs) && !NamesOneBundle(gs) && forall g :: g in gs ==> Printable(g)
    requires Parsed(AllWords(gs), workspaces, decode).Some?
    ensures multiset(hs) == multiset(gs)
    ensures Parsed(AllWords(hs), workspaces, decode) != Parsed(AllWords(gs), workspaces, decode)
  {
    var i: nat, j: nat :| i < j < |gs| && AtOdds(gs[i], gs[j]);
    hs := gs[i := gs[j]][j := gs[i]];
    SwappedCounts(gs, i, j);
    SwappedLinesDiffer(gs, i, j, workspaces, decode);
  }

  lemma SwappedLinesDiffer(gs: seq<Group>, i: nat, j: nat, workspaces: string, decode: string -> Option<Appearance>)
    requires OneOfEach(gs) && forall g :: g in gs ==> Printable(g)
    requires Parsed(AllWords(gs), workspaces, decode).Some?
    requires i < j < |gs| && AtOdds(gs[i], gs[j])
    ensures Parsed(AllWords(gs[i := gs[j]][j := gs[i]]), workspaces, decode) != Parsed(AllWords(gs), workspaces, decode)
  {
    var hs := gs[i := gs[j]][j := gs[i]];
    forall h | h in hs ensures Printable(h) {
      var k :| 0 <= k < |hs| && hs[k] == h;
      assert h == gs[if k == i then j else if k == j then i else k];
    }
    OptionsAreReadBack(gs, UNSAID, decode);
    OptionsAreReadBack(hs, UNSAID, decode);
    var o, p := ApplyAll(gs, UNSAID, decode), ApplyAll(hs, UNSAID, decode);
    LastTwoDiffer(gs, i, j, UNSAID, decode);
    BundleIsKept(o.value, workspaces);
    if p.Some? { BundleIsKept(p.value, workspaces); }
  }

  lemma BundleIsKept(o: Options, workspaces: string)
    ensures Invocation(o, workspaces).Some? ==> Invocation(o, workspaces).value.options.transfer == o.transfer
  {
  }
}
