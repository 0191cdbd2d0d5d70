/**
 * The requests the editor may make, and the command line each becomes: what
 * one process prints, the other must read as it was meant.
 */
module Broker {
  import opened Args
  import opened Text
  import opened Wrappers

  // ---------------------------------------------------------------- printing --

  function Spelling(c: Command): string {
    match c
    case Stop => "--stop"
    case PortsOf => "--ports"
    case Purge => "--purge"
    case Populate => "--populate"
    case Uncommitted => "--uncommitted"
    case CreateWorktree => "--create-worktree"
    case RemoveWorktree => "--remove-worktree"
    case Reclaim => "--reclaim"
    case Exec => "--exec"
    case Review => "--review"
    case SuedeReport => "--suede-report"
    case List => "--list"
    case Dinds => "--dinds"
    case Bundle => "--bundle"
    case Pull => "--pull"
    case SuedeBuild => "--suede-build"
    case Run => ""
  }

  /** The word an option begins with. */
  function Head(g: Group): string {
    match g
    case SetConfig(_) => "--config"
    case SetWorktree(_) => "--worktree"
    case Says(c) => Spelling(c)
    case SetBranch(_) => "--branch"
    case SetFrom(_) => "--from"
    case SetForce => "--force"
    case WithTransfer(c, _) => Spelling(c)
    case SetFetchOnly => "--fetch-only"
    case SetSubrepo(_) => "--suede-build"
    case SetTransfer(_) => "--transfer"
    case SetRef(_) => "--ref"
    case SetPath(_) => "--path"
    case SetAll => "--all"
    case SetJson => "--json"
    case SetAppearance(_) => "--appearance"
    case SetMove(_, _) => "--move"
    case SetRebuild => "--rebuild"
    case SetNoCache => "--no-cache"
    case Word(v) => v
  }

  /** And the values after it. */
  function Values(g: Group): seq<string> {
    match g
    case SetMove(l, p) => [l, p]
    case SetConfig(v) => [v]
    case SetWorktree(v) => [v]
    case SetBranch(v) => [v]
    case SetFrom(v) => [v]
    case WithTransfer(_, v) => [v]
    case SetSubrepo(v) => [v]
    case SetTransfer(v) => [v]
    case SetRef(v) => [v]
    case SetPath(v) => [v]
    case SetAppearance(v) => [v]
    case _ => []
  }

  function Words(g: Group): seq<string> {
    [Head(g)] + Values(g)
  }

  /** An option as it can be printed: a word that looks like an option is none. */
  predicate Printable(g: Group) {
    match g
    case Says(c) => !c.Run? && !c.Bundle? && !c.Pull? && !c.SuedeBuild?
    case WithTransfer(c, _) => c.Bundle? || c.Pull?
    case Word(v) => !StartsWith(v, "--")
    case _ => true
  }

  function AllWords(gs: seq<Group>): seq<string> {
    if gs == [] then [] else Words(gs[0]) + AllWords(gs[1..])
  }

  function ApplyAll(gs: seq<Group>, o: Options, decode: string -> Option<Appearance>): Option<Options> {
    if gs == [] then Some(o)
    else
      var next := Apply(gs[0], o, decode);
      if next.None? then None else ApplyAll(gs[1..], next.value, decode)
  }

  /** The option an option is. */
  function KnownOf(g: Group): Option<Known> {
    match g
    case SetConfig(_) => Some(Config)
    case SetWorktree(_) => Some(Worktree)
    case Says(c) => Some(Saying(c))
    case SetBranch(_) => Some(Branch)
    case SetFrom(_) => Some(From)
    case SetForce => Some(Force)
    case WithTransfer(c, _) => Some(Transferring(c))
    case SetFetchOnly => Some(FetchOnly)
    case SetSubrepo(_) => Some(Subrepo)
    case SetTransfer(_) => Some(Transfer)
    case SetRef(_) => Some(Ref)
    case SetPath(_) => Some(Within)
    case SetAll => Some(All)
    case SetJson => Some(Json)
    case SetAppearance(_) => Some(Theme)
    case SetMove(_, _) => Some(Moving)
    case SetRebuild => Some(Rebuild)
    case SetNoCache => Some(NoCache)
    case Word(_) => None
  }

  /** A reader knows an option by its printed word. */
  ghost predicate Knows(reader: Reader, g: Group) {
    Head(g) != "--" && reader.known(Head(g)) == KnownOf(g)
  }

  lemma CommandIsKnown(c: Command)
    requires !c.Run? && !c.Bundle? && !c.Pull? && !c.SuedeBuild?
    ensures OptionOf(Spelling(c)) == Some(Saying(c)) && Spelling(c) != "--"
  {
  }

  lemma FlagIsKnown(g: Group)
    requires g.SetForce? || g.SetFetchOnly? || g.SetAll? || g.SetJson? || g.SetRebuild? || g.SetNoCache? || g.SetMove?
    ensures Head(g) != "--" && OptionOf(Head(g)) == KnownOf(g)
  {
  }

  lemma ValuedIsKnown(g: Group)
    requires g.SetConfig? || g.SetWorktree? || g.SetBranch? || g.SetFrom? || g.SetRef? || g.SetPath? || g.SetAppearance?
    ensures Head(g) != "--" && OptionOf(Head(g)) == KnownOf(g)
  {
  }

  lemma TransferIsKnown(g: Group)
    requires g.SetTransfer? || g.SetSubrepo? || (g.WithTransfer? && (g.c.Bundle? || g.c.Pull?))
    ensures Head(g) != "--" && OptionOf(Head(g)) == KnownOf(g)
  {
  }

  lemma EveryOptionIsKnown(g: Group, decode: string -> Option<Appearance>)
    requires Printable(g)
    ensures Knows(Desolate(decode), g)
  {
    match g
    case Says(c) => CommandIsKnown(c);
    case WithTransfer(_, _) => TransferIsKnown(g);
    case SetTransfer(_) => TransferIsKnown(g);
    case SetSubrepo(_) => TransferIsKnown(g);
    case Word(v) => assert StartsWith("--", "--");
    case SetConfig(_) => ValuedIsKnown(g);
    case SetWorktree(_) => ValuedIsKnown(g);
    case SetBranch(_) => ValuedIsKnown(g);
    case SetFrom(_) => ValuedIsKnown(g);
    case SetRef(_) => ValuedIsKnown(g);
    case SetPath(_) => ValuedIsKnown(g);
    case SetAppearance(_) => ValuedIsKnown(g);
    case _ => FlagIsKnown(g);
  }

  function After(queue: seq<string>, arity: nat): seq<string> {
    match arity case 0 => Rest(queue) case 1 => Rest(Rest(queue)) case _ => Rest(Rest(Rest(queue)))
  }

  /** The queue begins with the option `g`, and goes on with `rest`. */
  ghost predicate BeginsWith(queue: seq<string>, g: Group, rest: seq<string>, reader: Reader) {
    && queue != [] && queue[0] != "--"
    && GroupOf(reader.known(queue[0]), queue[0], Shift(queue[1..]), Shift(Rest(queue[1..]))) == g
    && After(queue, Arity(reader.known(queue[0]))) == rest
  }

  lemma QueueOf(word: string, values: seq<string>, rest: seq<string>)
    requires |values| <= 2
    ensures var queue := [word] + values + rest;
      && queue[0] == word && After(queue, |values|) == rest
      && (|values| >= 1 ==> Shift(queue[1..]) == values[0])
      && (|values| >= 2 ==> Shift(Rest(queue[1..])) == values[1])
  {
    var queue := [word] + values + rest;
    assert queue[1..] == values + rest;
    if |values| == 0 {
      assert values + rest == rest;
    } else {
      assert (values + rest)[1..] == values[1..] + rest;
      if |values| == 1 { assert values[1..] + rest == rest; }
      else { assert (values[1..] + rest)[1..] == rest; }
    }
  }

  lemma GroupIsBack(g: Group, word: string, v: string, w: string)
    requires g.Word? ==> word == g.v
    requires (|Values(g)| >= 1 ==> v == Values(g)[0]) && (|Values(g)| >= 2 ==> w == Values(g)[1])
    ensures GroupOf(KnownOf(g), word, v, w) == g && Arity(KnownOf(g)) == |Values(g)| <= 2
  {
  }

  lemma WordsStandApart(word: string, values: seq<string>, g: Group, rest: seq<string>, reader: Reader)
    requires word != "--" && reader.known(word) == KnownOf(g) && values == Values(g) && (g.Word? ==> word == g.v)
    ensures BeginsWith([word] + values + rest, g, rest, reader)
  {
    var queue := [word] + values + rest;
    var v, w := Shift(queue[1..]), Shift(Rest(queue[1..]));
    assert |values| <= 2;
    QueueOf(word, values, rest);
    GroupIsBack(g, word, v, w);
  }

  /** An option printed stands at the head of the queue, whatever follows. */
  lemma OptionIsReadBack(g: Group, rest: seq<string>, reader: Reader)
    requires Printable(g) && Knows(reader, g)
    ensures BeginsWith(Words(g) + rest, g, rest, reader)
  {
    WordsStandApart(Head(g), Values(g), g, rest, reader);
  }

  lemma ReadOne(queue: seq<string>, g: Group, rest: seq<string>, o: Options, reader: Reader)
    requires BeginsWith(queue, g, rest, reader)
    ensures var next := Apply(g, o, reader.decode);
      Read(queue, o, reader) == if next.None? then None else Read(rest, next.value, reader)
  {
  }

  /** A whole command line of options is read back as those options. */
  lemma {:induction false} OptionsAreReadBack(gs: seq<Group>, o: Options, decode: string -> Option<Appearance>)
    requires forall g :: g in gs ==> Printable(g)
    ensures Read(AllWords(gs), o, Desolate(decode)) == ApplyAll(gs, o, decode)
  {
    if gs != [] {
      EveryOptionIsKnown(gs[0], decode);
      OptionIsReadBack(gs[0], AllWords(gs[1..]), Desolate(decode));
      ReadOne(AllWords(gs), gs[0], AllWords(gs[1..]), o, Desolate(decode));
      var next := Apply(gs[0], o, decode);
      if next.Some? { OptionsAreReadBack(gs[1..], next.value, decode); }
    }
  }

  // ------------------------------------------------------- in whatever order --

  function CommandSaid(g: Group): Option<Command> {
    match g
    case Says(c) => Some(c)
    case WithTransfer(c, _) => Some(c)
    case SetSubrepo(_) => Some(SuedeBuild)
    case _ => None
  }

  function TransferSaid(g: Group): Option<string> {
    match g
    case WithTransfer(_, v) => Some(v)
    case SetTransfer(v) => Some(v)
    case _ => None
  }

  /** Which value, of those an option alone may give, this one gives. */
  function ValueGiven(g: Group): nat {
    match g
    case SetSubrepo(_) => 1
    case SetConfig(_) => 2
    case SetWorktree(_) => 3
    case SetBranch(_) => 4
    case SetFrom(_) => 5
    case SetRef(_) => 6
    case SetPath(_) => 7
    case SetAppearance(_) => 8
    case SetMove(_, _) => 9
    case Word(_) => 10
    case _ => 0
  }

  /** They say nothing that is not the same: neither gives what the other gives,
   *  unless it is one transfer. */
  predicate Compatible(g: Group, h: Group) {
    && (CommandSaid(g).None? || CommandSaid(h).None?)
    && (TransferSaid(g).Some? && TransferSaid(h).Some? ==> TransferSaid(g) == TransferSaid(h))
    && (ValueGiven(g) == ValueGiven(h) ==> ValueGiven(g) == 0)
  }

  /** What an option does, field by field. */
  function Updated(g: Group, o: Options, decode: string -> Option<Appearance>): Options {
    Options(
      CommandSaid(g).GetOr(o.command),
      if g.SetConfig? then Some(g.v) else o.config,
      if g.SetWorktree? then Some(g.v) else o.worktree,
      o.rebuild || g.SetRebuild? || g.SetNoCache?,
      o.noCache || g.SetNoCache?,
      o.all || g.SetAll?,
      if g.SetBranch? then Some(g.v) else o.branch,
      if g.SetFrom? then Some(g.v) else o.from,
      o.force || g.SetForce?,
      if g.SetMove? then Some(Move(g.l, ToNumber(g.p))) else o.move,
      if g.SetPath? then Some(g.v) else o.path,
      o.json || g.SetJson?,
      if g.SetAppearance? then decode(g.v) else o.appearance,
      if g.Word? then o.positional + [g.v] else o.positional,
      o.exec,
      if TransferSaid(g).Some? then TransferSaid(g) else o.transfer,
      if g.SetRef? then Some(g.v) else o.ref,
      if g.SetSubrepo? then Some(g.v) else o.subrepo,
      o.fetchOnly || g.SetFetchOnly?)
  }

  predicate Refused(g: Group, decode: string -> Option<Appearance>) {
    Apply(g, UNSAID, decode).None?
  }

  predicate IsPlain(g: Group) {
    g.Says? || g.SetForce? || g.SetFetchOnly? || g.SetAll? || g.SetJson? || g.SetRebuild? || g.SetNoCache? || g.Word?
  }

  lemma PlainIsUpdate(g: Group, o: Options, decode: string -> Option<Appearance>)
    requires IsPlain(g)
    ensures Apply(g, o, decode) == if Refused(g, decode) then None else Some(Updated(g, o, decode))
  {
  }

  lemma ValueIsUpdate(g: Group, o: Options, decode: string -> Option<Appearance>)
    requires !IsPlain(g)
    ensures Apply(g, o, decode) == if Refused(g, decode) then None else Some(Updated(g, o, decode))
  {
  }

  lemma ApplyIsUpdate(g: Group, o: Options, decode: string -> Option<Appearance>)
    ensures Apply(g, o, decode) == if Refused(g, decode) then None else Some(Updated(g, o, decode))
  {
    if IsPlain(g) { PlainIsUpdate(g, o, decode); } else { ValueIsUpdate(g, o, decode); }
  }

  lemma UpdatesCommute(g: Group, h: Group, o: Options, decode: string -> Option<Appearance>)
    requires Compatible(g, h)
    ensures Updated(g, Updated(h, o, decode), decode) == Updated(h, Updated(g, o, decode), decode)
  {
  }

  lemma CompatibleCommute(g: Group, h: Group, rest: seq<Group>, o: Options, decode: string -> Option<Appearance>)
    requires Compatible(g, h)
    ensures ApplyAll([g, h] + rest, o, decode) == ApplyAll([h, g] + rest, o, decode)
  {
    ApplyIsUpdate(g, o, decode);
    ApplyIsUpdate(h, o, decode);
    ApplyIsUpdate(g, Updated(h, o, decode), decode);
    ApplyIsUpdate(h, Updated(g, o, decode), decode);
    UpdatesCommute(g, h, o, decode);
    assert ([g, h] + rest)[1..] == [h] + rest && ([h] + rest)[1..] == rest;
    assert ([h, g] + rest)[1..] == [g] + rest && ([g] + rest)[1..] == rest;
  }

  function WithoutOne<T>(s: seq<T>, i: nat): (r: seq<T>)
    requires i < |s|
    ensures |r| == |s| - 1 && forall k :: 0 <= k < |r| ==> r[k] == s[if k < i then k else k + 1]
  {
    s[..i] + s[i + 1..]
  }

  lemma WithoutOneCounts<T>(s: seq<T>, i: nat)
    requires i < |s|
    ensures multiset(WithoutOne(s, i)) == multiset(s) - multiset{s[i]}
  {
    assert s == s[..i] + [s[i]] + s[i + 1..];
  }

  lemma SwappedCounts<T>(s: seq<T>, i: nat, j: nat)
    requires i < j < |s|
    ensures multiset(s[i := s[j]][j := s[i]]) == multiset(s)
  {
  }

  ghost predicate AllCompatible(gs: seq<Group>) {
    forall i, j :: 0 <= i < j < |gs| ==> Compatible(gs[i], gs[j])
  }

  /** Taking out a later one, seen from the first. */
  lemma WithoutLater<T>(s: seq<T>, i: nat)
    requires 0 < i < |s|
    ensures [s[i], s[0]] + WithoutOne(s[1..], i - 1) == [s[i]] + WithoutOne(s, i)
    ensures [s[0], s[i]] + WithoutOne(s[1..], i - 1) == [s[0]] + ([s[i]] + WithoutOne(s[1..], i - 1))
  {
  }

  lemma {:induction false} MoveToFront(gs: seq<Group>, i: nat, o: Options, decode: string -> Option<Appearance>)
    requires i < |gs| && AllCompatible(gs)
    ensures ApplyAll(gs, o, decode) == ApplyAll([gs[i]] + WithoutOne(gs, i), o, decode)
  {
    if i == 0 {
      assert gs == [gs[0]] + WithoutOne(gs, 0);
    } else {
      var tail := gs[1..];
      var rest := WithoutOne(tail, i - 1);
      Tail(gs[0], tail, o, decode);
      assert gs == [gs[0]] + tail;
      var next := Apply(gs[0], o, decode);
      if next.Some? { MoveToFront(tail, i - 1, next.value, decode); }
      Tail(gs[0], [gs[i]] + rest, o, decode);
      CompatibleCommute(gs[0], gs[i], rest, o, decode);
      WithoutLater(gs, i);
    }
  }

  lemma Tail(g: Group, gs: seq<Group>, o: Options, decode: string -> Option<Appearance>)
    ensures ApplyAll([g] + gs, o, decode)
         == (var next := Apply(g, o, decode); if next.None? then None else ApplyAll(gs, next.value, decode))
  {
    assert ([g] + gs)[1..] == gs;
  }

  lemma {:induction false} AppliedOver(a: seq<Group>, b: seq<Group>, o: Options, decode: string -> Option<Appearance>)
    ensures ApplyAll(a + b, o, decode)
         == (var next := ApplyAll(a, o, decode); if next.None? then None else ApplyAll(b, next.value, decode))
  {
    if a == [] {
      assert a + b == b;
    } else {
      Tail(a[0], a[1..] + b, o, decode);
      assert a + b == [a[0]] + (a[1..] + b);
      var next := Apply(a[0], o, decode);
      if next.Some? { AppliedOver(a[1..], b, next.value, decode); }
    }
  }

  /** Options that say nothing different of one thing may come in any order. */
  lemma {:induction false} OrderDoesNotMatter(gs: seq<Group>, hs: seq<Group>, o: Options,
                                              decode: string -> Option<Appearance>)
    requires multiset(gs) == multiset(hs) && AllCompatible(gs)
    ensures ApplyAll(gs, o, decode) == ApplyAll(hs, o, decode)
    decreases |hs|
  {
    if hs == [] {
      assert |multiset(gs)| == 0;
    } else {
      var i := Find(gs, hs);
      var rest, after := WithoutOne(gs, i), WithoutOne(hs, 0);
      MoveToFront(gs, i, o, decode);
      WithoutOneCounts(gs, i);
      WithoutOneCounts(hs, 0);
      assert AllCompatible(rest);
      assert hs == [hs[0]] + after;
      Tail(hs[0], rest, o, decode);
      Tail(hs[0], after, o, decode);
      var next := Apply(hs[0], o, decode);
      if next.Some? { OrderDoesNotMatter(rest, after, next.value, decode); }
    }
  }

  lemma Find<T>(s: seq<T>, t: seq<T>) returns (i: nat)
    requires multiset(s) == multiset(t) && t != []
    ensures i < |s| && s[i] == t[0]
  {
    assert t[0] in multiset(t) && t[0] in s;
    i :| i < |s| && s[i] == t[0];
  }

  /** One command at most, and no option and no project twice. */
  ghost predicate OneOfEach(gs: seq<Group>) {
    forall i, j :: 0 <= i < j < |gs| ==>
      && (CommandSaid(gs[i]).None? || CommandSaid(gs[j]).None?)
      && (ValueGiven(gs[i]) == ValueGiven(gs[j]) ==> ValueGiven(gs[i]) == 0)
      && !(gs[i].SetTransfer? && gs[j].SetTransfer?)
  }

  /** Two options each name a bundle, and not the same one. */
  predicate AtOdds(g: Group, h: Group) {
    TransferSaid(g).Some? && TransferSaid(h).Some? && TransferSaid(g) != TransferSaid(h)
  }

  ghost predicate NamesOneBundle(gs: seq<Group>) {
    forall i, j :: 0 <= i < j < |gs| ==> !AtOdds(gs[i], gs[j])
  }

  function LastTransfer(gs: seq<Group>, t: Option<string>): Option<string> {
    if gs == [] then t
    else
      var last := TransferSaid(gs[|gs| - 1]);
      if last.Some? then last else LastTransfer(gs[..|gs| - 1], t)
  }

  lemma {:induction false} LastTransferOver(g: Group, gs: seq<Group>, t: Option<string>)
    ensures LastTransfer([g] + gs, t) == LastTransfer(gs, if TransferSaid(g).Some? then TransferSaid(g) else t)
  {
    var all := [g] + gs;
    if gs == [] {
      assert all[..0] == [];
    } else {
      assert all[..|all| - 1] == [g] + gs[..|gs| - 1];
      LastTransferOver(g, gs[..|gs| - 1], t);
    }
  }

  lemma {:induction false} LastOneNamesTheBundle(gs: seq<Group>, o: Options, decode: string -> Option<Appearance>)
    requires ApplyAll(gs, o, decode).Some?
    ensures ApplyAll(gs, o, decode).value.transfer == LastTransfer(gs, o.transfer)
  {
    if gs != [] {
      ApplyIsUpdate(gs[0], o, decode);
      LastOneNamesTheBundle(gs[1..], Apply(gs[0], o, decode).value, decode);
      LastTransferOver(gs[0], gs[1..], o.transfer);
      assert gs == [gs[0]] + gs[1..];
    }
  }

  lemma {:induction false} LastIsWhatIsSaidLast(gs: seq<Group>, k: nat, t: Option<string>)
    requires k < |gs| && TransferSaid(gs[k]).Some? && forall n :: k < n < |gs| ==> TransferSaid(gs[n]).None?
    ensures LastTransfer(gs, t) == TransferSaid(gs[k])
  {
    if k < |gs| - 1 { LastIsWhatIsSaidLast(gs[..|gs| - 1], k, t); }
  }

  ghost predicate AnyOrder(gs: seq<Group>, o: Options, decode: string -> Option<Appearance>) {
    forall hs :: multiset(hs) == multiset(gs) ==> ApplyAll(hs, o, decode) == ApplyAll(gs, o, decode)
  }

  /**
   * With one command and no option twice, every order of the options and the
   * project means the same -- exactly unless the command names one bundle and
   * `--transfer` another: they are told apart on the command line, but kept in
   * one place, and the later one stands.
   */
  lemma OrderMattersExactly(gs: seq<Group>, o: Options, decode: string -> Option<Appearance>)
    requires OneOfEach(gs) && ApplyAll(gs, o, decode).Some?
    ensures AnyOrder(gs, o, decode) <==> NamesOneBundle(gs)
  {
    if NamesOneBundle(gs) { OneBundleAnyOrder(gs, o, decode); } else { TwoBundlesOneOrder(gs, o, decode); }
  }

  lemma OneBundleAnyOrder(gs: seq<Group>, o: Options, decode: string -> Option<Appearance>)
    requires OneOfEach(gs) && NamesOneBundle(gs)
    ensures AnyOrder(gs, o, decode)
  {
    NothingAtOdds(gs);
    forall hs | multiset(hs) == multiset(gs) ensures ApplyAll(hs, o, decode) == ApplyAll(gs, o, decode) {
      OrderDoesNotMatter(gs, hs, o, decode);
    }
  }

  lemma TwoBundlesOneOrder(gs: seq<Group>, o: Options, decode: string -> Option<Appearance>)
    requires OneOfEach(gs) && !NamesOneBundle(gs) && ApplyAll(gs, o, decode).Some?
    ensures exists hs :: multiset(hs) == multiset(gs) && ApplyAll(hs, o, decode) != ApplyAll(gs, o, decode)
  {
    var i: nat, j: nat :| i < j < |gs| && AtOdds(gs[i], gs[j]);
    SwappedCounts(gs, i, j);
    LastTwoDiffer(gs, i, j, o, decode);
  }

  /** Any two bundles show it: the one named last is the one taken. */
  lemma TwoBundlesInTwoOrders(a: string, b: string, o: Options, decode: string -> Option<Appearance>)
    requires IsTransferName(a) && IsTransferName(b)
    ensures var first, second := WithTransfer(Bundle, a), SetTransfer(b);
      && ApplyAll([first, second], o, decode) == Some(o.(command := Bundle, transfer := Some(b)))
      && ApplyAll([second, first], o, decode) == Some(o.(command := Bundle, transfer := Some(a)))
  {
    var first, second := WithTransfer(Bundle, a), SetTransfer(b);
    Tail(first, [second], o, decode);
    Tail(second, [first], o, decode);
    Tail(second, [], o.(command := Bundle, transfer := Some(a)), decode);
    Tail(first, [], o.(transfer := Some(b)), decode);
    assert [first] + [second] == [first, second] && [second] + [first] == [second, first];
    assert [first] + [] == [first] && [second] + [] == [second];
  }

  lemma NothingAtOdds(gs: seq<Group>)
    requires OneOfEach(gs) && NamesOneBundle(gs)
    ensures AllCompatible(gs)
  {
    forall i, j | 0 <= i < j < |gs| ensures Compatible(gs[i], gs[j]) {
      assert !AtOdds(gs[i], gs[j]);
    }
  }

  lemma LastTwoDiffer(gs: seq<Group>, i: nat, j: nat, o: Options, decode: string -> Option<Appearance>)
    requires OneOfEach(gs) && ApplyAll(gs, o, decode).Some? && i < j < |gs| && AtOdds(gs[i], gs[j])
    ensures var swapped := ApplyAll(gs[i := gs[j]][j := gs[i]], o, decode);
      swapped.Some? ==> swapped.value.transfer != ApplyAll(gs, o, decode).value.transfer
  {
    var hs := gs[i := gs[j]][j := gs[i]];
    forall n | j < n < |gs| ensures TransferSaid(gs[n]).None? {
      assert gs[i].SetTransfer? || gs[j].SetTransfer?;
    }
    LastOneNamesTheBundle(gs, o, decode);
    LastIsWhatIsSaidLast(gs, j, o.transfer);
    LastIsWhatIsSaidLast(hs, j, o.transfer);
    if ApplyAll(hs, o, decode).Some? { LastOneNamesTheBundle(hs, o, decode); }
  }
}
