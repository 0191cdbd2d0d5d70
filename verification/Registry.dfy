/**
 * The ports/ directory every start shares: one file a host port, naming the
 * target that claimed it. No lock orders two starts. What each may rely on is
 * what none of them ever does to another's file.
 */
module Registry {
  import opened Collections

  type Owner = string
  datatype File = File(dind: string, owner: Owner)
  type Files = map<nat, File>

  const CLAIM_ATTEMPTS := 5

  /** The ports whose file names `o`. */
  function Mine(files: Files, o: Owner): set<nat> {
    set p | p in files && files[p].owner == o
  }

  /** The values of `list` that are not in `but`, in order. */
  function Without(list: seq<nat>, but: set<nat>): (r: seq<nat>)
    ensures forall p :: p in r <==> p in list && p !in but
    ensures Distinct(list) ==> Distinct(r)
  {
    if list == [] then []
    else
      var last := list[|list| - 1];
      var front := Without(list[..|list| - 1], but);
      if last in but then front else front + [last]
  }

  // ------------------------------------------------------ the atomic steps --

  /** A hard link of a staged copy: made only where there is no file. */
  function Linked(files: Files, p: nat, dind: string, o: Owner): Files {
    if p in files then files else files[p := File(dind, o)]
  }

  /** A rename of the staged copy over whatever is there. */
  function Renamed(files: Files, p: nat, dind: string, o: Owner): Files {
    files[p := File(dind, o)]
  }

  function Removed(files: Files, p: nat): Files {
    files - {p}
  }

  predicate Names(files: Files, p: nat, o: Owner) {
    p in files && files[p].owner == o
  }

  // -------------------------------------------------------- one start's run --

  datatype ClaimAt = Link | ReadOwner | Rename
  datatype ReleaseAt = Look | Remove

  /** Where one target's process is, between two accesses to the directory. */
  datatype Process =
    | Resting
    /** `allocate` returned `map`. */
    | Allocated(map_: seq<nat>)
    | Listing(attempt: nat)
    /** The names are listed; their files are read one by one. */
    | Reading(attempt: nat, left: set<nat>, own: set<nat>)
    | Claiming(attempt: nat, own: set<nat>, want: seq<nat>, got: seq<nat>, next: nat, at: ClaimAt)
    | GivingBack(attempt: nat, own: set<nat>, drop: seq<nat>, look: ReleaseAt)
    /** `publish`: first what the target held before and no longer does, then its
     *  map, of which it holds `held` already. */
    | Dropping(map_: seq<nat>, held: set<nat>, drop: seq<nat>, look: ReleaseAt)
    | Publishing(map_: seq<nat>, held: set<nat>, lost: seq<nat>, next: nat, at: ClaimAt)
    /** A port is moved: claimed by itself, and then the moved map is published. */
    | Moving(map_: seq<nat>, port: nat, at: ClaimAt)
    | Withdrawing(drop: seq<nat>, look: ReleaseAt)

  datatype Command = Allocate | Publish | Withdraw | Move | Crash | Continue

  /** What a step does not decide itself: what the process is asked to do, which
   *  listed file it reads next, and the ports it was given. */
  datatype Choice = Choice(command: Command, port: nat, ports: seq<nat>, dind: string)

  function ReleaseStep(files: Files, o: Owner, drop: seq<nat>, look: ReleaseAt): (Files, seq<nat>, ReleaseAt)
    requires drop != []
  {
    if look.Remove? then (Removed(files, drop[0]), drop[1..], Look)
    else if Names(files, drop[0], o) then (files, drop, Remove)
    else (files, drop[1..], Look)
  }

  datatype Claim = Claimed | Lost | Trying(at: ClaimAt)

  function ClaimStep(files: Files, o: Owner, p: nat, dind: string, at: ClaimAt): (Files, Claim) {
    match at
    case Link => if p in files then (files, Trying(ReadOwner)) else (Linked(files, p, dind, o), Claimed)
    case ReadOwner => if Names(files, p, o) then (files, Trying(Rename)) else (files, Lost)
    case Rename => (Renamed(files, p, dind, o), Claimed)
  }

  /** What a process at rest is asked to do. A map to move to has the port in it. */
  function Begun(process: Process, c: Choice): Process {
    match c.command
    case Allocate => Listing(0)
    case Withdraw => Withdrawing(c.ports, Look)
    case Move => if Distinct(c.ports) && c.port in c.ports then Moving(c.ports, c.port, Link) else process
    case _ => process
  }

  /** One access to the directory by `o`'s process, or one step between two. */
  function Advance(o: Owner, files: Files, process: Process, c: Choice): (Files, Process) {
    if c.command.Crash? then (files, Resting) else
    match process
    case Resting => (files, Begun(process, c))
    case Allocated(m) =>
      (files, if c.command.Publish? then Dropping(m, SetOf(m), Without(c.ports, SetOf(m)), Look) else Begun(process, c))
    case Listing(attempt) => (files, Reading(attempt, files.Keys, {}))
    case Reading(attempt, left, own) =>
      (files,
       if left == {} then (if Distinct(c.ports) then Claiming(attempt, own, c.ports, [], 0, Link) else process)
       else if c.port in left then
         Reading(attempt, left - {c.port}, if Names(files, c.port, o) then own + {c.port} else own)
       else process)
    case Claiming(attempt, own, want, got, next, at) =>
      if next >= |want| then
        (files, if |got| == |want| then Allocated(want) else GivingBack(attempt, own, Without(got, own), Look))
      else
        var (files', claim) := ClaimStep(files, o, want[next], c.dind, at);
        (files', match claim
                 case Claimed => Claiming(attempt, own, want, got + [want[next]], next + 1, Link)
                 case Lost => Claiming(attempt, own, want, got, next + 1, Link)
                 case Trying(at') => Claiming(attempt, own, want, got, next, at'))
    case GivingBack(attempt, own, drop, look) =>
      if drop == [] then (files, if attempt + 1 < CLAIM_ATTEMPTS then Listing(attempt + 1) else Resting)
      else
        var (files', drop', look') := ReleaseStep(files, o, drop, look);
        (files', GivingBack(attempt, own, drop', look'))
    case Dropping(m, held, drop, look) =>
      if drop == [] then (files, Publishing(m, held, [], 0, Link))
      else
        var (files', drop', look') := ReleaseStep(files, o, drop, look);
        (files', Dropping(m, held, drop', look'))
    case Publishing(m, held, lost, next, at) =>
      if next >= |m| then (files, if held == SetOf(m) then Allocated(m) else Resting)
      else
        var (files', claim) := ClaimStep(files, o, m[next], c.dind, at);
        (files', match claim
                 case Claimed => Publishing(m, held, lost, next + 1, Link)
                 case Lost => Publishing(m, held, lost + [m[next]], next + 1, Link)
                 case Trying(at') => Publishing(m, held, lost, next, at'))
    case Moving(m, port, at) =>
      var (files', claim) := ClaimStep(files, o, port, c.dind, at);
      (files', match claim
               case Claimed => Dropping(m, {port}, Without(c.ports, SetOf(m)), Look)
               case Lost => Resting
               case Trying(at') => Moving(m, port, at'))
    case Withdrawing(drop, look) =>
      if drop == [] then (files, Resting)
      else
        var (files', drop', look') := ReleaseStep(files, o, drop, look);
        (files', Withdrawing(drop', look'))
  }

  // ------------------------------------------------------------- every run --

  /** The directory, and one process a target: the target's lock sees to that. */
  datatype State = State(files: Files, processes: map<Owner, Process>)

  ghost predicate Step(s: State, t: State, o: Owner, c: Choice) {
    && o in s.processes
    && var (files, process) := Advance(o, s.files, s.processes[o], c);
       t == State(files, s.processes[o := process])
  }

  ghost predicate Next(s: State, t: State) {
    exists o, c :: Step(s, t, o, c)
  }

  ghost predicate Run(run: seq<State>) {
    && run != []
    && (forall o :: o in run[0].processes ==> run[0].processes[o].Resting?)
    && (forall i :: 0 <= i < |run| - 1 ==> Next(run[i], run[i + 1]))
  }

  /** What a process knows of its own files, given that they are its alone. */
  ghost predicate Knows(process: Process, mine: set<nat>) {
    match process
    case Resting => true
    case Allocated(m) => Distinct(m) && SetOf(m) <= mine
    case Listing(_) => true
    case Reading(_, left, own) => own <= mine <= own + left
    case Claiming(_, own, want, got, next, at) =>
      && Distinct(want) && next <= |want|
      && Distinct(got) && SetOf(got) <= SetOf(want[..next])
      && mine == own + SetOf(got)
      && (|got| == next ==> got == want[..next]) && |got| <= next
      && (at.Rename? ==> next < |want| && want[next] in mine)
    case GivingBack(_, own, drop, look) =>
      && Distinct(drop) && SetOf(drop) !! own && mine == own + SetOf(drop)
      && (look.Remove? ==> drop != [])
    case Dropping(m, held, drop, look) =>
      && Distinct(m) && held <= SetOf(m) && held <= mine && SetOf(drop) !! SetOf(m)
      && (look.Remove? ==> drop != [] && drop[0] in mine)
    case Publishing(m, held, lost, next, at) =>
      && Distinct(m) && held <= SetOf(m) && held <= mine && next <= |m|
      && SetOf(lost) <= SetOf(m) - held
      && (at.ReadOwner? || at.Rename? ==> next < |m|)
      && (at.Rename? ==> m[next] in mine)
    case Moving(m, port, at) => Distinct(m) && port in m && (at.Rename? ==> port in mine)
    case Withdrawing(drop, look) => look.Remove? ==> drop != [] && drop[0] in mine
  }

  ghost predicate Inv(s: State) {
    forall o :: o in s.processes ==> Knows(s.processes[o], Mine(s.files, o))
  }

  /** Every file `o` does not own is as it was: not gone, and not rewritten. */
  ghost predicate Spares(o: Owner, before: Files, after: Files) {
    forall p :: p in before && before[p].owner != o ==> p in after && after[p] == before[p]
  }

  /** And every file `o` made where there was none, or already owned, names `o`. */
  ghost predicate OnlyOwn(o: Owner, before: Files, after: Files) {
    Spares(o, before, after) && forall p :: p in after && after[p].owner != o ==> p in before && before[p] == after[p]
  }

  lemma ReleaseKnows(files: Files, o: Owner, drop: seq<nat>, look: ReleaseAt)
    requires drop != [] && (look.Remove? ==> drop[0] in Mine(files, o))
    ensures var (files', drop', look') := ReleaseStep(files, o, drop, look);
      && OnlyOwn(o, files, files')
      && Mine(files', o) == (if look.Remove? then Mine(files, o) - {drop[0]} else Mine(files, o))
      && (look'.Remove? ==> drop' == drop && drop[0] in Mine(files', o))
      && (look.Look? && look'.Look? ==> drop' == drop[1..] && drop[0] !in Mine(files, o))
  {
  }

  lemma ClaimKnows(files: Files, o: Owner, p: nat, dind: string, at: ClaimAt)
    requires at.Rename? ==> p in Mine(files, o)
    ensures var (files', claim) := ClaimStep(files, o, p, dind, at);
      && OnlyOwn(o, files, files')
      && Mine(files', o) == (if claim.Claimed? then Mine(files, o) + {p} else Mine(files, o))
      && (claim.Lost? ==> p !in Mine(files, o))
      && (claim == Trying(Rename) ==> p in Mine(files', o))
  {
  }

  /** A step leaves every other target's files alone, and its own process
   *  knowing what it needs to. */
  lemma AdvanceIsOwn(o: Owner, files: Files, process: Process, c: Choice)
    requires Knows(process, Mine(files, o))
    ensures var (files', process') := Advance(o, files, process, c);
      OnlyOwn(o, files, files') && Knows(process', Mine(files', o))
  {
    if c.command.Crash? { return; }
    match process
    case Claiming(attempt, own, want, got, next, at) =>
      if next < |want| { ClaimAdvance(o, files, process, c); }
      else { assert want[..next] == want; }
    case Publishing(m, held, lost, next, at) =>
      if next < |m| { PublishAdvance(o, files, process, c); }
    case Moving(m, port, at) => ClaimKnows(files, o, port, c.dind, at);
    case GivingBack(attempt, own, drop, look) =>
      if drop != [] { GiveBackAdvance(o, files, process, c); }
    case Dropping(m, held, drop, look) =>
      if drop != [] { DropAdvance(o, files, process, c); }
    case Withdrawing(drop, look) =>
      if drop != [] { ReleaseKnows(files, o, drop, look); }
    case _ =>
  }

  lemma ClaimAdvance(o: Owner, files: Files, process: Process, c: Choice)
    requires Knows(process, Mine(files, o)) && process.Claiming? && process.next < |process.want| && !c.command.Crash?
    ensures var (files', process') := Advance(o, files, process, c);
      OnlyOwn(o, files, files') && Knows(process', Mine(files', o))
  {
    var Claiming(attempt, own, want, got, next, at) := process;
    ClaimKnows(files, o, want[next], c.dind, at);
    assert want[..next + 1] == want[..next] + [want[next]];
    assert SetOf(got + [want[next]]) == SetOf(got) + {want[next]};
    forall g | g in got ensures g != want[next] {
      assert g in SetOf(got) && g in SetOf(want[..next]);
    }
  }

  lemma PublishAdvance(o: Owner, files: Files, process: Process, c: Choice)
    requires Knows(process, Mine(files, o)) && process.Publishing? && process.next < |process.map_| && !c.command.Crash?
    ensures var (files', process') := Advance(o, files, process, c);
      OnlyOwn(o, files, files') && Knows(process', Mine(files', o))
  {
    ClaimKnows(files, o, process.map_[process.next], c.dind, process.at);
  }

  lemma DropAdvance(o: Owner, files: Files, process: Process, c: Choice)
    requires Knows(process, Mine(files, o)) && process.Dropping? && process.drop != [] && !c.command.Crash?
    ensures var (files', process') := Advance(o, files, process, c);
      OnlyOwn(o, files, files') && Knows(process', Mine(files', o))
  {
    ReleaseKnows(files, o, process.drop, process.look);
    assert process.drop[0] in SetOf(process.drop) && SetOf(process.drop[1..]) <= SetOf(process.drop);
  }

  lemma GiveBackAdvance(o: Owner, files: Files, process: Process, c: Choice)
    requires Knows(process, Mine(files, o)) && process.GivingBack? && process.drop != [] && !c.command.Crash?
    ensures var (files', process') := Advance(o, files, process, c);
      OnlyOwn(o, files, files') && Knows(process', Mine(files', o))
  {
    var drop := process.drop;
    ReleaseKnows(files, o, drop, process.look);
    assert drop[0] in SetOf(drop);
    assert SetOf(drop) == {drop[0]} + SetOf(drop[1..]) && drop[0] !in SetOf(drop[1..]);
  }

  /** What every step keeps: each process is right about its own files. */
  lemma StepKeepsInv(s: State, t: State, o: Owner, c: Choice)
    requires Inv(s) && Step(s, t, o, c)
    ensures Inv(t) && OnlyOwn(o, s.files, t.files)
  {
    AdvanceIsOwn(o, s.files, s.processes[o], c);
    forall other | other in t.processes ensures Knows(t.processes[other], Mine(t.files, other)) {
      if other != o {
        assert Mine(t.files, other) == Mine(s.files, other);
      }
    }
  }

  lemma {:induction false} EveryStateIsKnown(run: seq<State>, i: nat)
    requires Run(run) && i < |run|
    ensures Inv(run[i])
  {
    if i > 0 {
      EveryStateIsKnown(run, i - 1);
      assert Next(run[i - 1], run[i]);
      var o, c :| Step(run[i - 1], run[i], o, c);
      StepKeepsInv(run[i - 1], run[i], o, c);
    }
  }

  /** Over every interleaving of any number of starts and stops, crashes
   *  included: no step removes, rewrites or makes a file of another target's. */
  lemma NoStepTouchesAnothersFile(run: seq<State>, i: nat, o: Owner, c: Choice)
    requires Run(run) && i + 1 < |run| && Step(run[i], run[i + 1], o, c)
    ensures OnlyOwn(o, run[i].files, run[i + 1].files)
    ensures forall other :: other != o ==> Mine(run[i + 1].files, other) == Mine(run[i].files, other)
  {
    EveryStateIsKnown(run, i);
    StepKeepsInv(run[i], run[i + 1], o, c);
  }

  /** What a target has been told is its own: the map it was allocated, also while it
   *  publishes that; or the port it moves to, while it publishes the moved map. */
  function Held(process: Process): set<nat> {
    match process
    case Allocated(m) => SetOf(m)
    case Dropping(_, held, _, _) => held
    case Publishing(_, held, _, _, _) => held
    case _ => {}
  }

  /** It holds that: no port of it is anyone else's. */
  ghost predicate HoldsItsMap(s: State, o: Owner) {
    o in s.processes ==> Held(s.processes[o]) <= Mine(s.files, o)
  }

  /** Publishing loses no port of it; and so none at all of an allocated map. */
  ghost predicate LosesNothing(s: State, o: Owner) {
    o in s.processes && s.processes[o].Publishing? ==>
      && SetOf(s.processes[o].lost) !! s.processes[o].held
      && (s.processes[o].held == SetOf(s.processes[o].map_) ==> s.processes[o].lost == [])
  }

  /** The directory read whole is right about the reader's own files, and an
   *  attempt that failed has given back what it took: no more and no less. */
  ghost predicate IsLeftWithItsOwn(s: State, o: Owner) {
    && (o in s.processes && s.processes[o].Reading? && s.processes[o].left == {} ==>
        s.processes[o].own == Mine(s.files, o))
    && (o in s.processes && s.processes[o].GivingBack? && s.processes[o].drop == [] ==>
        s.processes[o].own == Mine(s.files, o))
  }

  lemma EveryRunIsSafe(run: seq<State>, i: nat, o: Owner)
    requires Run(run) && i < |run|
    ensures HoldsItsMap(run[i], o) && LosesNothing(run[i], o) && IsLeftWithItsOwn(run[i], o)
  {
    EveryStateIsKnown(run, i);
    if o in run[i].processes && run[i].processes[o].Publishing? && run[i].processes[o].lost != [] {
      assert run[i].processes[o].lost[0] in SetOf(run[i].processes[o].lost);
    }
  }

  /** Two targets share no port of what they hold, in any interleaving: whether they
   *  have just been allocated it, or drop what they had, or publish it. */
  lemma MapsAreDisjoint(run: seq<State>, i: nat, o: Owner, other: Owner)
    requires Run(run) && i < |run| && o != other
    requires o in run[i].processes && other in run[i].processes
    ensures Held(run[i].processes[o]) !! Held(run[i].processes[other])
  {
    EveryRunIsSafe(run, i, o);
    EveryRunIsSafe(run, i, other);
    assert Mine(run[i].files, o) !! Mine(run[i].files, other);
  }
}
