/**
 * What comes of a start's requests to the registry: each is over after finitely many
 * steps of its own, whatever the others do meanwhile; and with nobody else about it
 * gets exactly what is nobody else's.
 */
module Progress {
  import opened Collections
  import opened Registry

  predicate AtRest(process: Process) {
    process.Resting? || process.Allocated?
  }

  /** It goes on: a file that is yet to be read is read next, and the ports it is
   *  given once all are read are no two alike. */
  predicate GoesOn(process: Process, c: Choice) {
    && !c.command.Crash?
    && (process.Reading? ==> if process.left == {} then Distinct(c.ports) else c.port in process.left)
  }

  // -------------------------------------------------- whatever the others do --

  datatype Rank = Rank(attempts: nat, phase: nat, steps: nat)

  predicate Below(a: Rank, b: Rank) {
    || a.attempts < b.attempts
    || (a.attempts == b.attempts && (a.phase < b.phase || (a.phase == b.phase && a.steps < b.steps)))
  }

  function ClaimsLeft(ports: nat, next: nat, at: ClaimAt): nat {
    if next >= ports then 0
    else 3 * (ports - next - 1) + match at case Link => 3 case ReadOwner => 2 case Rename => 1
  }

  function DropsLeft(drop: seq<nat>, look: ReleaseAt): nat {
    if drop == [] then 0 else 2 * |drop| - if look.Look? then 0 else 1
  }

  function RankOf(process: Process): Rank {
    var attempts := if process.Listing? || process.Reading? || process.Claiming? || process.GivingBack?
                    then if process.attempt < CLAIM_ATTEMPTS then CLAIM_ATTEMPTS - process.attempt else 0 else 0;
    match process
    case Resting => Rank(0, 0, 0)
    case Allocated(_) => Rank(0, 0, 0)
    case Listing(_) => Rank(attempts, 4, 0)
    case Reading(_, left, _) => Rank(attempts, 3, |left|)
    case Claiming(_, _, want, _, next, at) => Rank(attempts, 2, ClaimsLeft(|want|, next, at))
    case GivingBack(_, _, drop, look) => Rank(attempts, 1, DropsLeft(drop, look))
    case Moving(_, _, at) => Rank(0, 3, ClaimsLeft(1, 0, at))
    case Dropping(_, _, drop, look) => Rank(0, 2, DropsLeft(drop, look))
    case Publishing(m, _, _, next, at) => Rank(0, 1, ClaimsLeft(|m|, next, at))
    case Withdrawing(drop, look) => Rank(0, 1, DropsLeft(drop, look))
  }

  lemma ClaimGetsOn(o: Owner, files: Files, p: nat, dind: string, ports: nat, next: nat, at: ClaimAt)
    requires next < ports
    ensures match ClaimStep(files, o, p, dind, at).1
            case Trying(at') => ClaimsLeft(ports, next, at') < ClaimsLeft(ports, next, at)
            case _ => ClaimsLeft(ports, next + 1, Link) < ClaimsLeft(ports, next, at)
  {
  }

  lemma ReleaseGetsOn(o: Owner, files: Files, drop: seq<nat>, look: ReleaseAt)
    requires drop != []
    ensures var (_, drop', look') := ReleaseStep(files, o, drop, look);
      DropsLeft(drop', look') < DropsLeft(drop, look)
  {
  }

  lemma ClaimingGetsOn(o: Owner, files: Files, process: Process, c: Choice)
    requires (process.Claiming? || process.Publishing? || process.Moving?) && !c.command.Crash?
    ensures Below(RankOf(Advance(o, files, process, c).1), RankOf(process))
  {
    match process
    case Claiming(_, _, want, _, next, at) =>
      if next < |want| { ClaimGetsOn(o, files, want[next], c.dind, |want|, next, at); }
    case Publishing(m, _, _, next, at) =>
      if next < |m| { ClaimGetsOn(o, files, m[next], c.dind, |m|, next, at); }
    case Moving(m, port, at) =>
      ClaimGetsOn(o, files, port, c.dind, 1, 0, at);
  }

  lemma DroppingGetsOn(o: Owner, files: Files, process: Process, c: Choice)
    requires (process.GivingBack? || process.Dropping? || process.Withdrawing?) && !c.command.Crash?
    ensures Below(RankOf(Advance(o, files, process, c).1), RankOf(process))
  {
    if process.drop != [] { ReleaseGetsOn(o, files, process.drop, process.look); }
  }

  lemma EveryStepGetsOn(o: Owner, files: Files, process: Process, c: Choice)
    requires !AtRest(process) && GoesOn(process, c)
    ensures Below(RankOf(Advance(o, files, process, c).1), RankOf(process))
  {
    if process.Claiming? || process.Publishing? || process.Moving? {
      ClaimingGetsOn(o, files, process, c);
    } else if !process.Listing? && !process.Reading? {
      DroppingGetsOn(o, files, process, c);
    } else if process.Reading? && process.left != {} {
      assert process.left == (process.left - {c.port}) + {c.port};
    }
  }

  /** A process, step by step, the directory being whatever the others have made of it
   *  by then. */
  ghost predicate Goes(o: Owner, processes: nat -> Process, files: nat -> Files, choices: nat -> Choice) {
    forall i: nat :: GoesOn(processes(i), choices(i))
      && (!AtRest(processes(i)) ==> processes(i + 1) == Advance(o, files(i), processes(i), choices(i)).1)
  }

  /** No request waits for another: it is over after some number of its own steps. */
  lemma {:induction false} EveryRequestEnds(o: Owner, processes: nat -> Process, files: nat -> Files,
                                            choices: nat -> Choice, from: nat)
    returns (end: nat)
    requires Goes(o, processes, files, choices)
    ensures from <= end && AtRest(processes(end))
    decreases RankOf(processes(from)).attempts, RankOf(processes(from)).phase, RankOf(processes(from)).steps
  {
    end := from;
    if !AtRest(processes(from)) {
      EveryStepGetsOn(o, files(from), processes(from), choices(from));
      end := EveryRequestEnds(o, processes, files, choices, from + 1);
    }
  }

  // -------------------------------------------------------- nobody else about --

  /** So many steps in a row. */
  function Alone(o: Owner, files: Files, process: Process, c: Choice, n: nat): (Files, Process)
    decreases n
  {
    if n == 0 then (files, process)
    else
      var (files', process') := Advance(o, files, process, c);
      Alone(o, files', process', c, n - 1)
  }

  /** What the directory and the process come to. */
  datatype At = At(files: Files, process: Process)

  ghost predicate ComesTo(o: Owner, c: Choice, a: At, b: At) {
    exists n: nat :: Alone(o, a.files, a.process, c, n) == (b.files, b.process)
  }

  lemma {:induction false} AloneOn(o: Owner, files: Files, process: Process, c: Choice, m: nat, n: nat)
    ensures var (files', process') := Alone(o, files, process, c, m);
      Alone(o, files, process, c, m + n) == Alone(o, files', process', c, n)
    decreases m
  {
    if m > 0 {
      var (files', process') := Advance(o, files, process, c);
      AloneOn(o, files', process', c, m - 1, n);
    }
  }

  lemma ComesOn(o: Owner, c: Choice, x: At, y: At, z: At)
    requires ComesTo(o, c, x, y) && ComesTo(o, c, y, z)
    ensures ComesTo(o, c, x, z)
  {
    var m: nat :| Alone(o, x.files, x.process, c, m) == (y.files, y.process);
    var n: nat :| Alone(o, y.files, y.process, c, n) == (z.files, z.process);
    AloneOn(o, x.files, x.process, c, m, n);
  }

  lemma StaysThere(o: Owner, c: Choice, x: At)
    ensures ComesTo(o, c, x, x)
  {
    assert Alone(o, x.files, x.process, c, 0) == (x.files, x.process);
  }

  lemma OneStep(o: Owner, c: Choice, x: At, y: At)
    requires Advance(o, x.files, x.process, c) == (y.files, y.process)
    ensures ComesTo(o, c, x, y)
  {
    assert Alone(o, y.files, y.process, c, 0) == (y.files, y.process);
    assert Alone(o, x.files, x.process, c, 1) == (y.files, y.process);
  }

  function Theirs(files: Files, o: Owner): set<nat> {
    set p | p in files && files[p].owner != o
  }

  /** Each of these ports, with a file that names `o`. */
  function With(files: Files, o: Owner, ports: seq<nat>, dind: string): Files {
    files + map p | p in ports :: File(dind, o)
  }

  function Kept(p: nat, theirs: set<nat>): seq<nat> {
    if p in theirs then [] else [p]
  }

  lemma OneMoreKept(ports: seq<nat>, i: nat, but: set<nat>)
    requires i < |ports|
    ensures Without(ports[..i + 1], but) == Without(ports[..i], but) + Kept(ports[i], but)
  {
    assert ports[..i + 1][..i] == ports[..i];
  }

  lemma OneWith(files: Files, o: Owner, p: nat, dind: string)
    ensures With(files, o, [], dind) == files
    ensures With(files, o, [p], dind) == files[p := File(dind, o)]
  {
  }

  lemma WithOver(files: Files, o: Owner, a: seq<nat>, b: seq<nat>, dind: string)
    ensures With(With(files, o, a, dind), o, b, dind) == With(files, o, a + b, dind)
  {
  }

  lemma TheirsWith(files: Files, o: Owner, a: seq<nat>, dind: string)
    ensures Theirs(With(files, o, a, dind), o) == Theirs(files, o) - SetOf(a)
  {
  }

  /** A process that claims a port, and what becomes of it when the port is its own, is
   *  another's, or is neither for now. */
  ghost predicate Claims(o: Owner, c: Choice, p: nat, process: ClaimAt -> Process, claimed: Process, lost: Process) {
    forall files, at ::
      var (files', claim) := ClaimStep(files, o, p, c.dind, at);
      Advance(o, files, process(at), c)
        == (files', match claim case Claimed => claimed case Lost => lost case Trying(at') => process(at'))
  }

  /** A port is claimed exactly if it is nobody else's. */
  lemma ClaimComesTo(o: Owner, c: Choice, p: nat, process: ClaimAt -> Process, claimed: Process, lost: Process,
                     files: Files)
    requires Claims(o, c, p, process, claimed, lost)
    ensures ComesTo(o, c, At(files, process(Link)),
                    if p in Theirs(files, o) then At(files, lost) else At(files[p := File(c.dind, o)], claimed))
  {
    var link, read, rename := At(files, process(Link)), At(files, process(ReadOwner)), At(files, process(Rename));
    var after := At(files[p := File(c.dind, o)], claimed);
    if p !in files {
      OneStep(o, c, link, after);
    } else if files[p].owner != o {
      OneStep(o, c, link, read);
      OneStep(o, c, read, At(files, lost));
      ComesOn(o, c, link, read, At(files, lost));
    } else {
      OneStep(o, c, link, read);
      OneStep(o, c, read, rename);
      ComesOn(o, c, link, read, rename);
      OneStep(o, c, rename, after);
      ComesOn(o, c, link, rename, after);
    }
  }

  // ------------------------------------------------------------------ an attempt --

  function ToClaim(attempt: nat, own: set<nat>, want: seq<nat>, got: seq<nat>, next: nat): ClaimAt -> Process {
    (at: ClaimAt) => Claiming(attempt, own, want, got, next, at)
  }

  lemma OneClaimOfMany(o: Owner, c: Choice, files: Files, attempt: nat, own: set<nat>, want: seq<nat>,
                       got: seq<nat>, next: nat)
    requires next < |want| && !c.command.Crash?
    ensures var kept := Kept(want[next], Theirs(files, o));
      ComesTo(o, c, At(files, Claiming(attempt, own, want, got, next, Link)),
              At(With(files, o, kept, c.dind), Claiming(attempt, own, want, got + kept, next + 1, Link)))
  {
    var p := want[next];
    ClaimComesTo(o, c, p, ToClaim(attempt, own, want, got, next),
                 Claiming(attempt, own, want, got + [p], next + 1, Link),
                 Claiming(attempt, own, want, got, next + 1, Link), files);
    OneWith(files, o, p, c.dind);
    assert got + [] == got;
  }

  /** What an attempt has come to after its first `i` ports. */
  function Attempted(o: Owner, c: Choice, files: Files, attempt: nat, own: set<nat>, want: seq<nat>, i: nat): At
    requires i <= |want|
  {
    var got := Without(want[..i], Theirs(files, o));
    At(With(files, o, got, c.dind), Claiming(attempt, own, want, got, i, Link))
  }

  lemma OneMoreAttempted(o: Owner, c: Choice, files: Files, attempt: nat, own: set<nat>, want: seq<nat>, i: nat)
    requires Distinct(want) && i < |want| && !c.command.Crash?
    ensures ComesTo(o, c, Attempted(o, c, files, attempt, own, want, i),
                    Attempted(o, c, files, attempt, own, want, i + 1))
  {
    var got, theirs := Without(want[..i], Theirs(files, o)), Theirs(files, o);
    var before := With(files, o, got, c.dind);
    WithOver(files, o, got, Kept(want[i], theirs), c.dind);
    TheirsWith(files, o, got, c.dind);
    OneMoreKept(want, i, theirs);
    assert want[i] !in SetOf(got);
    assert Kept(want[i], Theirs(before, o)) == Kept(want[i], theirs);
    OneClaimOfMany(o, c, before, attempt, own, want, got, i);
  }

  lemma {:induction false} AttemptComesTo(o: Owner, c: Choice, files: Files, attempt: nat, own: set<nat>,
                                          want: seq<nat>, i: nat)
    requires Distinct(want) && i <= |want| && !c.command.Crash?
    ensures ComesTo(o, c, At(files, Claiming(attempt, own, want, [], 0, Link)),
                    Attempted(o, c, files, attempt, own, want, i))
  {
    var start := At(files, Claiming(attempt, own, want, [], 0, Link));
    if i == 0 {
      OneWith(files, o, 0, c.dind);
      StaysThere(o, c, start);
    } else {
      AttemptComesTo(o, c, files, attempt, own, want, i - 1);
      OneMoreAttempted(o, c, files, attempt, own, want, i - 1);
      ComesOn(o, c, start, Attempted(o, c, files, attempt, own, want, i - 1),
              Attempted(o, c, files, attempt, own, want, i));
    }
  }

  // --------------------------------------------------------------------- dropping --

  /** Of the ports to be dropped those that are `o`'s go. */
  function Dropped(files: Files, o: Owner, drop: seq<nat>): Files {
    files - SetOf(drop) * Mine(files, o)
  }

  /** A process that drops ports, and what it does when it has. */
  ghost predicate Drops(o: Owner, c: Choice, process: (seq<nat>, ReleaseAt) -> Process) {
    forall files, drop, look :: drop != [] ==>
      var (files', drop', look') := ReleaseStep(files, o, drop, look);
      Advance(o, files, process(drop, look), c) == (files', process(drop', look'))
  }

  lemma DropsOne(files: Files, o: Owner, drop: seq<nat>)
    requires drop != []
    ensures Dropped(files, o, drop[..1]) == if Names(files, drop[0], o) then Removed(files, drop[0]) else files
  {
    assert SetOf(drop[..1]) == {drop[0]};
  }

  lemma OneDrop(o: Owner, c: Choice, process: (seq<nat>, ReleaseAt) -> Process, files: Files, drop: seq<nat>)
    requires Drops(o, c, process) && drop != []
    ensures ComesTo(o, c, At(files, process(drop, Look)),
                    At(Dropped(files, o, drop[..1]), process(drop[1..], Look)))
  {
    DropsOne(files, o, drop);
    var after := Dropped(files, o, drop[..1]);
    var x, y := At(files, process(drop, Look)), At(after, process(drop[1..], Look));
    if Names(files, drop[0], o) {
      var found := At(files, process(drop, Remove));
      OneStep(o, c, x, found);
      OneStep(o, c, found, y);
      ComesOn(o, c, x, found, y);
    } else {
      OneStep(o, c, x, y);
    }
  }

  lemma DroppedOver(files: Files, o: Owner, drop: seq<nat>)
    requires drop != []
    ensures Dropped(Dropped(files, o, drop[..1]), o, drop[1..]) == Dropped(files, o, drop)
  {
    assert SetOf(drop) == SetOf(drop[..1]) + SetOf(drop[1..]);
  }

  lemma {:induction false} DropsComeTo(o: Owner, c: Choice, process: (seq<nat>, ReleaseAt) -> Process, files: Files,
                                       drop: seq<nat>)
    requires Drops(o, c, process)
    ensures ComesTo(o, c, At(files, process(drop, Look)), At(Dropped(files, o, drop), process([], Look)))
    decreases |drop|
  {
    var x, z := At(files, process(drop, Look)), At(Dropped(files, o, drop), process([], Look));
    if drop == [] {
      assert Dropped(files, o, drop) == files;
      StaysThere(o, c, x);
    } else {
      var after := Dropped(files, o, drop[..1]);
      OneDrop(o, c, process, files, drop);
      DropsComeTo(o, c, process, after, drop[1..]);
      DroppedOver(files, o, drop);
      ComesOn(o, c, x, At(after, process(drop[1..], Look)), z);
    }
  }

  function ToGiveBack(attempt: nat, own: set<nat>): (seq<nat>, ReleaseAt) -> Process {
    (drop, look) => GivingBack(attempt, own, drop, look)
  }

  function ToDrop(m: seq<nat>, held: set<nat>): (seq<nat>, ReleaseAt) -> Process {
    (drop, look) => Dropping(m, held, drop, look)
  }

  function ToWithdraw(): (seq<nat>, ReleaseAt) -> Process {
    (drop, look) => Withdrawing(drop, look)
  }

  // ------------------------------------------------------------------- publishing --

  function ToPublish(m: seq<nat>, held: set<nat>, lost: seq<nat>, next: nat): ClaimAt -> Process {
    (at: ClaimAt) => Publishing(m, held, lost, next, at)
  }

  lemma OnePublished(o: Owner, c: Choice, files: Files, m: seq<nat>, held: set<nat>, lost: seq<nat>, next: nat)
    requires next < |m| && !c.command.Crash?
    ensures var theirs := Theirs(files, o);
      ComesTo(o, c, At(files, Publishing(m, held, lost, next, Link)),
              At(With(files, o, Kept(m[next], theirs), c.dind),
                 Publishing(m, held, lost + Kept(m[next], SetOf(m) - theirs), next + 1, Link)))
  {
    var p := m[next];
    assert p in SetOf(m);
    ClaimComesTo(o, c, p, ToPublish(m, held, lost, next), Publishing(m, held, lost, next + 1, Link),
                 Publishing(m, held, lost + [p], next + 1, Link), files);
    OneWith(files, o, p, c.dind);
    assert lost + [] == lost;
  }

  /** What has been published of the first `i` ports, and what could not be. */
  function Published(o: Owner, c: Choice, files: Files, m: seq<nat>, held: set<nat>, i: nat): At
    requires i <= |m|
  {
    var theirs := Theirs(files, o);
    At(With(files, o, Without(m[..i], theirs), c.dind),
       Publishing(m, held, Without(m[..i], SetOf(m) - theirs), i, Link))
  }

  lemma OneMorePublished(o: Owner, c: Choice, files: Files, m: seq<nat>, held: set<nat>, i: nat)
    requires Distinct(m) && i < |m| && !c.command.Crash?
    ensures ComesTo(o, c, Published(o, c, files, m, held, i), Published(o, c, files, m, held, i + 1))
  {
    var theirs := Theirs(files, o);
    var got, lost := Without(m[..i], theirs), Without(m[..i], SetOf(m) - theirs);
    var before := With(files, o, got, c.dind);
    WithOver(files, o, got, Kept(m[i], theirs), c.dind);
    TheirsWith(files, o, got, c.dind);
    OneMoreKept(m, i, theirs);
    OneMoreKept(m, i, SetOf(m) - theirs);
    assert m[i] !in SetOf(got) && m[i] in SetOf(m);
    assert Kept(m[i], Theirs(before, o)) == Kept(m[i], theirs);
    assert Kept(m[i], SetOf(m) - Theirs(before, o)) == Kept(m[i], SetOf(m) - theirs);
    OnePublished(o, c, before, m, held, lost, i);
  }

  lemma {:induction false} PublishComesTo(o: Owner, c: Choice, files: Files, m: seq<nat>, held: set<nat>, i: nat)
    requires Distinct(m) && i <= |m| && !c.command.Crash?
    ensures ComesTo(o, c, At(files, Publishing(m, held, [], 0, Link)), Published(o, c, files, m, held, i))
  {
    var start := At(files, Publishing(m, held, [], 0, Link));
    if i == 0 {
      OneWith(files, o, 0, c.dind);
      StaysThere(o, c, start);
    } else {
      PublishComesTo(o, c, files, m, held, i - 1);
      OneMorePublished(o, c, files, m, held, i - 1);
      ComesOn(o, c, start, Published(o, c, files, m, held, i - 1), Published(o, c, files, m, held, i));
    }
  }

  // ---------------------------------------------------- what requests come to --

  lemma {:induction false} NoneIsLeftOut(list: seq<nat>, but: set<nat>)
    requires SetOf(list) !! but
    ensures Without(list, but) == list
  {
    if list != [] {
      var front, last := list[..|list| - 1], list[|list| - 1];
      assert last in SetOf(list) && SetOf(front) !! but;
      NoneIsLeftOut(front, but);
      assert list == front + [last];
    }
  }

  lemma {:induction false} OneIsLeftOut(list: seq<nat>, but: set<nat>)
    requires !(SetOf(list) !! but)
    ensures |Without(list, but)| < |list|
  {
    var front, last := list[..|list| - 1], list[|list| - 1];
    if last in but {
      if SetOf(front) !! but { NoneIsLeftOut(front, but); } else { OneIsLeftOut(front, but); }
    } else {
      assert SetOf(list) == SetOf(front) + {last};
      OneIsLeftOut(front, but);
    }
  }

  lemma AttemptIsOver(o: Owner, c: Choice, files: Files, attempt: nat, own: set<nat>, want: seq<nat>, got: seq<nat>)
    requires !c.command.Crash?
    ensures ComesTo(o, c, At(files, Claiming(attempt, own, want, got, |want|, Link)),
                    At(files, if |got| == |want| then Allocated(want)
                              else GivingBack(attempt, own, Without(got, own), Look)))
  {
    OneStep(o, c, At(files, Claiming(attempt, own, want, got, |want|, Link)),
            At(files, if |got| == |want| then Allocated(want)
                      else GivingBack(attempt, own, Without(got, own), Look)));
  }

  lemma AllIsGivenBack(o: Owner, c: Choice, files: Files, attempt: nat, own: set<nat>, drop: seq<nat>)
    requires !c.command.Crash?
    ensures ComesTo(o, c, At(files, GivingBack(attempt, own, drop, Look)),
                    At(Dropped(files, o, drop), if attempt + 1 < 5 then Listing(attempt + 1) else Resting))
  {
    DropsComeTo(o, c, ToGiveBack(attempt, own), files, drop);
    var given := At(Dropped(files, o, drop), GivingBack(attempt, own, [], Look));
    var done := At(given.files, if attempt + 1 < 5 then Listing(attempt + 1) else Resting);
    OneStep(o, c, given, done);
    ComesOn(o, c, At(files, GivingBack(attempt, own, drop, Look)), given, done);
  }

  lemma WholeAttempt(o: Owner, c: Choice, files: Files, attempt: nat, own: set<nat>, want: seq<nat>)
    requires Distinct(want) && !c.command.Crash?
    ensures var got := Without(want, Theirs(files, o));
      ComesTo(o, c, At(files, Claiming(attempt, own, want, [], 0, Link)),
              At(With(files, o, got, c.dind), Claiming(attempt, own, want, got, |want|, Link)))
  {
    AttemptComesTo(o, c, files, attempt, own, want, |want|);
    assert want[..|want|] == want;
  }

  /** An attempt none of whose ports is another's gets them all. */
  lemma AFreeAttemptGetsAll(o: Owner, c: Choice, files: Files, attempt: nat, own: set<nat>, want: seq<nat>)
    requires Distinct(want) && !c.command.Crash? && SetOf(want) !! Theirs(files, o)
    ensures ComesTo(o, c, At(files, Claiming(attempt, own, want, [], 0, Link)),
                    At(With(files, o, want, c.dind), Allocated(want)))
  {
    var after := With(files, o, want, c.dind);
    NoneIsLeftOut(want, Theirs(files, o));
    WholeAttempt(o, c, files, attempt, own, want);
    AttemptIsOver(o, c, after, attempt, own, want, want);
    ComesOn(o, c, At(files, Claiming(attempt, own, want, [], 0, Link)),
            At(after, Claiming(attempt, own, want, want, |want|, Link)), At(after, Allocated(want)));
  }

  /** What a failed attempt leaves: what it took and did not hold is given back. */
  function GivenBack(o: Owner, c: Choice, files: Files, want: seq<nat>): Files {
    var got := Without(want, Theirs(files, o));
    Dropped(With(files, o, got, c.dind), o, Without(got, Mine(files, o)))
  }

  /** One of whose ports is another's ends with what it held, and is followed by the
   *  next, or after five by none. */
  lemma AContestedAttemptGetsNone(o: Owner, c: Choice, files: Files, attempt: nat, want: seq<nat>)
    requires Distinct(want) && !c.command.Crash? && !(SetOf(want) !! Theirs(files, o))
    ensures ComesTo(o, c, At(files, Claiming(attempt, Mine(files, o), want, [], 0, Link)),
                    At(GivenBack(o, c, files, want), if attempt + 1 < 5 then Listing(attempt + 1) else Resting))
  {
    var own, got := Mine(files, o), Without(want, Theirs(files, o));
    var after, drop := With(files, o, got, c.dind), Without(got, own);
    var start := At(files, Claiming(attempt, own, want, [], 0, Link));
    var giving := At(after, GivingBack(attempt, own, drop, Look));
    OneIsLeftOut(want, Theirs(files, o));
    WholeAttempt(o, c, files, attempt, own, want);
    AttemptIsOver(o, c, after, attempt, own, want, got);
    ComesOn(o, c, start, At(after, Claiming(attempt, own, want, got, |want|, Link)), giving);
    AllIsGivenBack(o, c, after, attempt, own, drop);
    ComesOn(o, c, start, giving,
            At(Dropped(after, o, drop), if attempt + 1 < 5 then Listing(attempt + 1) else Resting));
  }

  lemma GivenBackIsWhatItHeld(o: Owner, c: Choice, files: Files, want: seq<nat>)
    ensures var after := GivenBack(o, c, files, want);
      && after.Keys == files.Keys && Mine(after, o) == Mine(files, o)
      && forall p :: p in Theirs(files, o) ==> after[p] == files[p]
  {
  }

  lemma AllIsDropped(o: Owner, c: Choice, files: Files, m: seq<nat>, held: set<nat>, drop: seq<nat>)
    requires !c.command.Crash?
    ensures ComesTo(o, c, At(files, Dropping(m, held, drop, Look)),
                    At(Dropped(files, o, drop), Publishing(m, held, [], 0, Link)))
  {
    DropsComeTo(o, c, ToDrop(m, held), files, drop);
    var before := At(Dropped(files, o, drop), Dropping(m, held, [], Look));
    var begun := At(before.files, Publishing(m, held, [], 0, Link));
    OneStep(o, c, before, begun);
    ComesOn(o, c, At(files, Dropping(m, held, drop, Look)), before, begun);
  }

  lemma WholePublication(o: Owner, c: Choice, files: Files, m: seq<nat>, held: set<nat>)
    requires Distinct(m) && !c.command.Crash?
    ensures ComesTo(o, c, At(files, Publishing(m, held, [], 0, Link)),
                    At(With(files, o, Without(m, Theirs(files, o)), c.dind),
                       Publishing(m, held, Without(m, SetOf(m) - Theirs(files, o)), |m|, Link)))
  {
    PublishComesTo(o, c, files, m, held, |m|);
    assert m[..|m|] == m;
  }

  lemma PublicationIsOver(o: Owner, c: Choice, files: Files, m: seq<nat>, held: set<nat>, lost: seq<nat>)
    requires !c.command.Crash?
    ensures ComesTo(o, c, At(files, Publishing(m, held, lost, |m|, Link)),
                    At(files, if held == SetOf(m) then Allocated(m) else Resting))
  {
    OneStep(o, c, At(files, Publishing(m, held, lost, |m|, Link)),
            At(files, if held == SetOf(m) then Allocated(m) else Resting));
  }

  lemma AllIsPublished(o: Owner, c: Choice, files: Files, m: seq<nat>, held: set<nat>)
    requires Distinct(m) && !c.command.Crash?
    ensures ComesTo(o, c, At(files, Publishing(m, held, [], 0, Link)),
                    At(With(files, o, Without(m, Theirs(files, o)), c.dind),
                       if held == SetOf(m) then Allocated(m) else Resting))
  {
    var lost := Without(m, SetOf(m) - Theirs(files, o));
    var after := With(files, o, Without(m, Theirs(files, o)), c.dind);
    WholePublication(o, c, files, m, held);
    PublicationIsOver(o, c, after, m, held, lost);
    ComesOn(o, c, At(files, Publishing(m, held, [], 0, Link)), At(after, Publishing(m, held, lost, |m|, Link)),
            At(after, if held == SetOf(m) then Allocated(m) else Resting));
  }

  /** Publishing gives up what is no longer used and is the target's, and writes each
   *  port of the map that is not another's. */
  lemma PublishingComesTo(o: Owner, c: Choice, files: Files, m: seq<nat>, held: set<nat>, drop: seq<nat>)
    requires Distinct(m) && !c.command.Crash?
    ensures ComesTo(o, c, At(files, Dropping(m, held, drop, Look)),
                    At(With(Dropped(files, o, drop), o, Without(m, Theirs(files, o)), c.dind),
                       if held == SetOf(m) then Allocated(m) else Resting))
  {
    var dropped := Dropped(files, o, drop);
    AllIsDropped(o, c, files, m, held, drop);
    AllIsPublished(o, c, dropped, m, held);
    assert Theirs(dropped, o) == Theirs(files, o);
    ComesOn(o, c, At(files, Dropping(m, held, drop, Look)), At(dropped, Publishing(m, held, [], 0, Link)),
            At(With(dropped, o, Without(m, Theirs(files, o)), c.dind),
               if held == SetOf(m) then Allocated(m) else Resting));
  }

  function ToMove(m: seq<nat>, port: nat): ClaimAt -> Process {
    (at: ClaimAt) => Moving(m, port, at)
  }

  /** A move claims its port exactly if that is not another's, and goes on to publish. */
  lemma MovingComesTo(o: Owner, c: Choice, files: Files, m: seq<nat>, port: nat)
    requires !c.command.Crash?
    ensures ComesTo(o, c, At(files, Moving(m, port, Link)),
                    if port in Theirs(files, o) then At(files, Resting)
                    else At(files[port := File(c.dind, o)], Dropping(m, {port}, Without(c.ports, SetOf(m)), Look)))
  {
    ClaimComesTo(o, c, port, ToMove(m, port), Dropping(m, {port}, Without(c.ports, SetOf(m)), Look), Resting, files);
  }

  lemma WithdrawingComesTo(o: Owner, c: Choice, files: Files, drop: seq<nat>)
    requires !c.command.Crash?
    ensures ComesTo(o, c, At(files, Withdrawing(drop, Look)), At(Dropped(files, o, drop), Resting))
  {
    DropsComeTo(o, c, ToWithdraw(), files, drop);
    var dropped := At(Dropped(files, o, drop), Withdrawing([], Look));
    OneStep(o, c, dropped, At(dropped.files, Resting));
    ComesOn(o, c, At(files, Withdrawing(drop, Look)), dropped, At(dropped.files, Resting));
  }

  /** A process at rest does as it is asked, the first attempt being the first. */
  lemma BeginsAsAsked(o: Owner, files: Files, process: Process, c: Choice)
    requires AtRest(process)
    ensures var (files', process') := Advance(o, files, process, c);
      && files' == files
      && (c.command.Allocate? ==> process' == Listing(0))
      && (c.command.Withdraw? ==> process' == Withdrawing(c.ports, Look))
      && (c.command.Move? && Distinct(c.ports) && c.port in c.ports ==> process' == Moving(c.ports, c.port, Link))
      && (c.command.Continue? || (c.command.Publish? && process.Resting?) ==> process' == process)
      && (c.command.Publish? && process.Allocated? ==>
            process' == Dropping(process.map_, SetOf(process.map_), Without(c.ports, SetOf(process.map_)), Look))
  {
  }
}
