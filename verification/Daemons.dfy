/**
 * Which Docker daemon a target runs on: the shared one, or its project's own.
 * A saved word says which was last used; stopping and purging go by it. Docker
 * may leave any question unanswered, which reads as "there is none", and anything
 * else may happen meanwhile: a daemon goes down, which stops what it runs, or
 * comes up, which starts nothing (there is no restart policy), or a container
 * exits. One command at a time holds the target.
 */
module Daemons {
  import opened Wrappers

  datatype Daemon = Shared | Project

  /** `built`: the privileges it was created with. */
  datatype Container = Container(running: bool, built: set<string>)

  const PRIVILEGED := "privileged"

  /** The target's containers, at most one to a daemon; which daemons are up; and
   *  the saved word. */
  datatype State = State(containers: map<Daemon, Container>, up: set<Daemon>, file: Option<Daemon>) {
    function Saved(): Daemon {
      file.GetOr(Shared)
    }

    predicate Runs(d: Daemon) {
      d in containers && containers[d].running
    }

    /** What runs, runs on a daemon that is up, and on the one the file names. */
    predicate Sound() {
      forall d :: Runs(d) ==> d in up && d == Saved()
    }
  }

  /** What has happened by the next step: which daemons are up, and what exited. */
  datatype World = World(up: set<Daemon>, exits: set<Daemon>)

  function After(s: State, w: World): State {
    s.(containers := map d | d in s.containers ::
         s.containers[d].(running := s.Runs(d) && d in w.up && d !in w.exits),
       up := w.up)
  }

  /** What happens meanwhile, step by step; nothing where nothing is said. */
  type Worlds = seq<World>

  function Meanwhile(s: State, worlds: Worlds, step: nat): State {
    if step < |worlds| then After(s, worlds[step]) else s
  }

  // ------------------------------------------------------------ docker's part --

  /** Whether docker names a container of the target, stopped ones only if `all`. */
  predicate Finds(s: State, d: Daemon, heard: bool, all: bool) {
    heard && d in s.up && d in s.containers && (all || s.containers[d].running)
  }

  function Removed(s: State, d: Daemon): State {
    if d in s.up then s.(containers := s.containers - {d}) else s
  }

  function Halted(s: State, d: Daemon): State {
    if d in s.up && d in s.containers
    then s.(containers := s.containers[d := s.containers[d].(running := false)])
    else s
  }

  /** How far `devcontainer up` gets. */
  datatype Going = NotBegun | Begun(started: bool) | Done

  /** An existing container is started as it was built. */
  function Upped(s: State, d: Daemon, asked: set<string>, going: Going): State {
    if d !in s.up || going.NotBegun? then s
    else
      var built := if d in s.containers then s.containers[d].built else asked;
      s.(containers := s.containers[d := Container(s.Runs(d) || going.Done? || going.started, built)])
  }

  // ----------------------------------------------------------------- a start --

  datatype Order = Order(declared: Daemon, asked: set<string>, rebuild: bool, passes: bool)

  /** Which of a start's questions docker answers: for a container on the shared
   *  daemon, and whether that is privileged; whether the project's own daemon is
   *  up, and for a container on it; for one to rebuild; for one to start, and what
   *  that was built with; and for one with stale mounts. */
  datatype Heard = Heard(legacy: bool, privileged: bool, info: bool, own: bool, before: bool, existing: bool,
      metadata: bool, stale: bool)

  const ALL_HEARD := Heard(true, true, true, true, true, true, true, true)

  /** How the rest goes: what happens meanwhile, whether the supervisor brings the
   *  project's daemon up, and how `up` goes, and goes again for stale mounts. */
  datatype Course = Course(worlds: Worlds, ensured: bool, going: Going, stale: bool, again: Going)

  datatype Outcome = NeedsMigrating | NoDaemon | AgainstPolicy | BuiltBeyond | NotUp | Ready {
    /** Before anything was to run. */
    predicate Refused() { NeedsMigrating? || NoDaemon? || AgainstPolicy? }
  }

  /** What must leave the shared daemon, as far as docker says. */
  predicate LegacyIn(s: State, o: Order, h: Heard) {
    && Finds(s, Shared, h.legacy, true)
    && (o.declared == Project || (h.privileged && PRIVILEGED in s.containers[Shared].built))
  }

  function OffShared(s: State, o: Order, h: Heard, c: Course): State {
    if LegacyIn(s, o, h) && o.rebuild then Removed(Meanwhile(s, c.worlds, 0), Shared) else s
  }

  /** What must leave the project's own daemon. */
  predicate OwnIn(s: State, o: Order, h: Heard) {
    o.declared == Shared && s.Saved() == Project && h.info && Finds(s, Project, h.own, true)
  }

  function OffOwn(s: State, o: Order, h: Heard, c: Course): State {
    if OwnIn(s, o, h) && o.rebuild then Removed(Meanwhile(s, c.worlds, 2), Project) else s
  }

  function BroughtUp(s: State, d: Daemon): State {
    if d == Project then s.(up := s.up + {Project}) else s
  }

  /** On the daemon the spec declares, nothing left to rebuild. */
  function Settled(s: State, o: Order, h: Heard, c: Course): State {
    var on := Meanwhile(s, c.worlds, 4);
    var rebuilt := o.rebuild && Finds(on, o.declared, h.before, true);
    var clean := if rebuilt then Removed(Meanwhile(on, c.worlds, 5), o.declared) else on;
    Meanwhile(clean, c.worlds, 6)
  }

  predicate BeyondSpec(s: State, o: Order, h: Heard) {
    !o.rebuild && Finds(s, o.declared, h.existing, true) && h.metadata && !(s.containers[o.declared].built <= o.asked)
  }

  function UppedOnce(s: State, o: Order, c: Course): State {
    Upped(Meanwhile(s, c.worlds, 8), o.declared, o.asked, c.going)
  }

  function UppedAgain(s: State, o: Order, h: Heard, c: Course): State {
    var by_then := Meanwhile(s, c.worlds, 9);
    var clean := if Finds(by_then, o.declared, h.stale, true) then Removed(by_then, o.declared) else by_then;
    Upped(Meanwhile(clean, c.worlds, 10), o.declared, o.asked, c.again)
  }

  predicate IsUp(before: Daemon, up: set<Daemon>, going: Going) {
    before in up && going.Done?
  }

  function Launched(s: State, o: Order, h: Heard, c: Course): (State, Outcome) {
    if BeyondSpec(s, o, h) then (s, BuiltBeyond)
    else
      var once := UppedOnce(s, o, c);
      if !IsUp(o.declared, once.up, c.going) then (once, NotUp)
      else if !c.stale then (once, Ready)
      else
        var again := UppedAgain(once, o, h, c);
        (again, if IsUp(o.declared, again.up, c.again) then Ready else NotUp)
  }

  function Left(s: State, o: Order, h: Heard, c: Course): State {
    Meanwhile(OffShared(s, o, h, c), c.worlds, 1)
  }

  function Moved(s: State, o: Order, h: Heard, c: Course): State {
    Meanwhile(OffOwn(Left(s, o, h, c), o, h, c), c.worlds, 3)
  }

  /** What a start has come to when it is judged, and saves its daemon if it passes. */
  function Judged(s: State, o: Order, h: Heard, c: Course): State {
    Settled(BroughtUp(Moved(s, o, h, c), o.declared), o, h, c)
  }

  function Started(s: State, o: Order, h: Heard, c: Course): (State, Outcome) {
    if LegacyIn(s, o, h) && !o.rebuild then (s, NeedsMigrating)
    else if OwnIn(Left(s, o, h, c), o, h) && !o.rebuild then (Left(s, o, h, c), NeedsMigrating)
    else if o.declared == Project && !c.ensured then (Moved(s, o, h, c), NoDaemon)
    else if !o.passes then (Judged(s, o, h, c), AgainstPolicy)
    else Launched(Meanwhile(Judged(s, o, h, c).(file := Some(o.declared)), c.worlds, 7), o, h, c)
  }

  // ------------------------------------------------------- a stop, and a purge --

  /** `info`: whether the project's own daemon answers that it is up. */
  function Stopped(s: State, info: bool, ps: bool, worlds: Worlds): State {
    if s.Saved() == Project && !(info && Project in s.up) then s
    else
      var by_then := Meanwhile(s, worlds, 0);
      if Finds(by_then, s.Saved(), ps, false) then Halted(Meanwhile(by_then, worlds, 1), s.Saved()) else by_then
  }

  /** `worktrees`: one of its worktrees runs. `last`: the project's own daemon goes
   *  too. `running` and `all`: what docker answers when asked for it. */
  datatype Purging = Purging(worktrees: bool, last: bool, running: bool, all: bool)

  function Purged(s: State, p: Purging, ensured: bool, worlds: Worlds): (State, bool) {
    var d := s.Saved();
    if d == Project && !ensured then (s, false)
    else
      var on := BroughtUp(s, d);
      if p.worktrees || Finds(on, d, p.running, false) then (on, false)
      else
        var by_then := Meanwhile(on, worlds, 0);
        var gone := if Finds(by_then, d, p.all, true) then Removed(Meanwhile(by_then, worlds, 1), d) else by_then;
        var forgotten := Meanwhile(gone, worlds, 2).(file := None);
        var left := forgotten.(containers := forgotten.containers - {Project}, up := forgotten.up - {Project});
        (if d == Project && p.last then left else forgotten, true)
  }
}
