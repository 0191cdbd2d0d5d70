/**
 * What becomes of a target's containers over starts, stops and purges: when one at
 * most runs, where a stop finds it, and when what runs is within its spec.
 */
module DaemonRuns {
  import opened Daemons
  import opened Wrappers

  // -------------------------------------------------------- what wears away --

  /** What runs, runs on a daemon that is up. */
  ghost predicate Lively(s: State) {
    forall d :: s.Runs(d) ==> d in s.up
  }

  /** No container is new, none started, and none is other than it was. */
  ghost predicate Waned(s: State, t: State) {
    && Lively(t) && t.file == s.file
    && (forall d :: t.Runs(d) ==> s.Runs(d))
    && (forall d :: d in t.containers ==> d in s.containers && t.containers[d].built == s.containers[d].built)
  }

  lemma MeanwhileWanes(s: State, worlds: Worlds, step: nat)
    requires Lively(s)
    ensures Waned(s, Meanwhile(s, worlds, step))
    ensures Meanwhile(s, worlds, step).containers.Keys == s.containers.Keys
  {
  }

  /** What runs goes on running unless its daemon goes down, or it exits. */
  lemma GoesOnRunning(s: State, worlds: Worlds, step: nat, d: Daemon)
    requires step < |worlds|
    ensures Meanwhile(s, worlds, step).Runs(d) <==> s.Runs(d) && d in worlds[step].up && d !in worlds[step].exits
  {
  }

  lemma RemovedWanes(s: State, d: Daemon)
    requires Lively(s)
    ensures Waned(s, Removed(s, d)) && !Removed(s, d).Runs(d)
  {
  }

  lemma WanesOn(s: State, t: State, u: State)
    requires Waned(s, t) && Waned(t, u)
    ensures Waned(s, u)
  {
  }

  /** What leaves the shared daemon leaves it, if docker tells of it. */
  lemma OffSharedMoves(s: State, o: Order, h: Heard, c: Course)
    requires Lively(s)
    ensures Waned(s, OffShared(s, o, h, c))
    ensures o.declared == Project && (h.legacy || !s.Runs(Shared)) && (o.rebuild || !LegacyIn(s, o, h)) ==>
              !OffShared(s, o, h, c).Runs(Shared)
  {
    if LegacyIn(s, o, h) && o.rebuild {
      var by_then := Meanwhile(s, c.worlds, 0);
      MeanwhileWanes(s, c.worlds, 0);
      RemovedWanes(by_then, Shared);
      WanesOn(s, by_then, Removed(by_then, Shared));
    }
  }

  lemma OffOwnMoves(s: State, o: Order, h: Heard, c: Course)
    requires Lively(s)
    ensures Waned(s, OffOwn(s, o, h, c))
    ensures o.declared == Shared && s.Saved() == Project && ((h.info && h.own) || !s.Runs(Project))
              && (o.rebuild || !OwnIn(s, o, h)) ==>
              !OffOwn(s, o, h, c).Runs(Project)
  {
    if OwnIn(s, o, h) && o.rebuild {
      var by_then := Meanwhile(s, c.worlds, 2);
      MeanwhileWanes(s, c.worlds, 2);
      RemovedWanes(by_then, Project);
      WanesOn(s, by_then, Removed(by_then, Project));
    }
  }

  lemma SettledWanes(s: State, o: Order, h: Heard, c: Course)
    requires Lively(s)
    ensures Waned(s, Settled(s, o, h, c))
  {
    var on := Meanwhile(s, c.worlds, 4);
    MeanwhileWanes(s, c.worlds, 4);
    if o.rebuild && Finds(on, o.declared, h.before, true) {
      var by_then := Meanwhile(on, c.worlds, 5);
      MeanwhileWanes(on, c.worlds, 5);
      RemovedWanes(by_then, o.declared);
      WanesOn(on, by_then, Removed(by_then, o.declared));
      WanesOn(s, on, Removed(by_then, o.declared));
      MeanwhileWanes(Removed(by_then, o.declared), c.worlds, 6);
      WanesOn(s, Removed(by_then, o.declared), Settled(s, o, h, c));
    } else {
      MeanwhileWanes(on, c.worlds, 6);
      WanesOn(s, on, Settled(s, o, h, c));
    }
  }

  lemma WanedIsSound(s: State, t: State)
    requires s.Sound() && Waned(s, t)
    ensures t.Sound() && t.Saved() == s.Saved()
  {
  }

  lemma UppedIsSound(s: State, d: Daemon, asked: set<string>, going: Going)
    requires s.Sound() && s.Saved() == d
    ensures Upped(s, d, asked, going).Sound() && Upped(s, d, asked, going).file == s.file
    ensures IsUp(d, Upped(s, d, asked, going).up, going) ==> Upped(s, d, asked, going).Runs(d)
  {
  }

  lemma UppedAgainIsSound(s: State, o: Order, h: Heard, c: Course)
    requires s.Sound() && s.Saved() == o.declared
    ensures UppedAgain(s, o, h, c).Sound() && UppedAgain(s, o, h, c).file == s.file
    ensures IsUp(o.declared, UppedAgain(s, o, h, c).up, c.again) ==> UppedAgain(s, o, h, c).Runs(o.declared)
  {
    var by_then := Meanwhile(s, c.worlds, 9);
    MeanwhileWanes(s, c.worlds, 9);
    WanedIsSound(s, by_then);
    var clean := if Finds(by_then, o.declared, h.stale, true) then Removed(by_then, o.declared) else by_then;
    RemovedWanes(by_then, o.declared);
    WanedIsSound(by_then, clean);
    MeanwhileWanes(clean, c.worlds, 10);
    WanedIsSound(clean, Meanwhile(clean, c.worlds, 10));
    UppedIsSound(Meanwhile(clean, c.worlds, 10), o.declared, o.asked, c.again);
  }

  /** Once a daemon is saved, `up` and all that comes after starts nothing elsewhere. */
  lemma LaunchedIsSound(s: State, o: Order, h: Heard, c: Course)
    requires s.Sound() && s.Saved() == o.declared
    ensures Launched(s, o, h, c).0.Sound()
  {
    MeanwhileWanes(s, c.worlds, 8);
    WanedIsSound(s, Meanwhile(s, c.worlds, 8));
    UppedIsSound(Meanwhile(s, c.worlds, 8), o.declared, o.asked, c.going);
    UppedAgainIsSound(UppedOnce(s, o, c), o, h, c);
  }

  // ----------------------------------------------- one container at most runs --

  lemma LeftWanes(s: State, o: Order, h: Heard, c: Course)
    requires Lively(s)
    ensures Waned(s, Left(s, o, h, c))
  {
    var off := OffShared(s, o, h, c);
    OffSharedMoves(s, o, h, c);
    MeanwhileWanes(off, c.worlds, 1);
    WanesOn(s, off, Left(s, o, h, c));
  }

  lemma MovedWanes(s: State, o: Order, h: Heard, c: Course)
    requires Lively(s)
    ensures Waned(s, Moved(s, o, h, c))
  {
    var left := Left(s, o, h, c);
    LeftWanes(s, o, h, c);
    var off := OffOwn(left, o, h, c);
    OffOwnMoves(left, o, h, c);
    WanesOn(s, left, off);
    MeanwhileWanes(off, c.worlds, 3);
    WanesOn(s, off, Moved(s, o, h, c));
  }

  lemma JudgedWanes(s: State, o: Order, h: Heard, c: Course)
    requires Lively(s)
    ensures Waned(s, Judged(s, o, h, c))
  {
    var on := BroughtUp(Moved(s, o, h, c), o.declared);
    MovedWanes(s, o, h, c);
    assert Waned(s, on);
    SettledWanes(on, o, h, c);
    WanesOn(s, on, Judged(s, o, h, c));
  }

  /** Up to where it is judged a start only takes away. */
  lemma BeforeSaving(s: State, o: Order, h: Heard, c: Course)
    requires Lively(s)
    ensures Waned(s, Left(s, o, h, c)) && Waned(s, Moved(s, o, h, c)) && Waned(s, Judged(s, o, h, c))
    ensures Started(s, o, h, c).1.Refused() ==> Waned(s, Started(s, o, h, c).0)
  {
    LeftWanes(s, o, h, c);
    MovedWanes(s, o, h, c);
    JudgedWanes(s, o, h, c);
    if Started(s, o, h, c).1.Refused() {
      LaunchedIsAsItSays(Meanwhile(Judged(s, o, h, c).(file := Some(o.declared)), c.worlds, 7), o, h, c);
    }
  }

  /** It runs where the spec no longer has it, and docker does not tell of it. */
  predicate Stray(s: State, o: Order, h: Heard) {
    && s.Runs(s.Saved()) && s.Saved() != o.declared
    && (if o.declared == Project then !h.legacy else !(h.info && h.own) && (o.rebuild || !LegacyIn(s, o, h)))
  }

  lemma JudgedRunsNothingElse(s: State, o: Order, h: Heard, c: Course, d: Daemon)
    requires s.Sound() && !Stray(s, o, h) && d != o.declared
    requires (o.rebuild || !LegacyIn(s, o, h)) && (o.rebuild || !OwnIn(Left(s, o, h, c), o, h))
    ensures !Judged(s, o, h, c).Runs(d)
  {
    var left := Left(s, o, h, c);
    BeforeSaving(s, o, h, c);
    if s.Runs(d) {
      OffSharedMoves(s, o, h, c);
      MeanwhileWanes(OffShared(s, o, h, c), c.worlds, 1);
      OffOwnMoves(left, o, h, c);
      MeanwhileWanes(OffOwn(left, o, h, c), c.worlds, 3);
      assert !Moved(s, o, h, c).Runs(d);
      var on := BroughtUp(Moved(s, o, h, c), o.declared);
      SettledWanes(on, o, h, c);
    }
  }

  /** Whatever happens meanwhile, a start leaves one container at most running, on
   *  the saved daemon, exactly unless it passes and docker does not tell of one
   *  that runs where the spec no longer has it. */
  lemma StartKeepsSoundExactly(s: State, o: Order, h: Heard)
    requires s.Sound()
    ensures (forall c :: Started(s, o, h, c).0.Sound()) <==> !(o.passes && Stray(s, o, h))
  {
    if o.passes && Stray(s, o, h) {
      StrayKeepsRunning(s, o, h);
    } else {
      forall c ensures Started(s, o, h, c).0.Sound() {
        OneStartIsSound(s, o, h, c);
      }
    }
  }

  lemma SavedIsSound(judged: State, o: Order, c: Course)
    requires Lively(judged) && forall d :: judged.Runs(d) ==> d == o.declared
    ensures var saved := Meanwhile(judged.(file := Some(o.declared)), c.worlds, 7);
      saved.Sound() && saved.Saved() == o.declared
  {
    var saved := judged.(file := Some(o.declared));
    forall d | saved.Runs(d) ensures d in saved.up && d == o.declared {
      assert judged.Runs(d);
    }
    MeanwhileWanes(saved, c.worlds, 7);
    WanedIsSound(saved, Meanwhile(saved, c.worlds, 7));
  }

  lemma OneStartIsSound(s: State, o: Order, h: Heard, c: Course)
    requires s.Sound() && !(o.passes && Stray(s, o, h))
    ensures Started(s, o, h, c).0.Sound()
  {
    if Started(s, o, h, c).1.Refused() {
      BeforeSaving(s, o, h, c);
      WanedIsSound(s, Started(s, o, h, c).0);
    } else {
      BeforeSaving(s, o, h, c);
      forall d | d != o.declared ensures !Judged(s, o, h, c).Runs(d) {
        JudgedRunsNothingElse(s, o, h, c, d);
      }
      SavedIsSound(Judged(s, o, h, c), o, c);
      LaunchedIsSound(Meanwhile(Judged(s, o, h, c).(file := Some(o.declared)), c.worlds, 7), o, h, c);
    }
  }

  /** Nothing else happens, the project's daemon comes up, and `up` does not begin. */
  const NOTHING_ELSE := Course([], true, NotBegun, false, NotBegun)

  lemma StrayKeepsRunning(s: State, o: Order, h: Heard)
    requires s.Sound() && o.passes && Stray(s, o, h)
    ensures !Started(s, o, h, NOTHING_ELSE).0.Sound()
  {
    var after := Started(s, o, h, NOTHING_ELSE).0;
    assert after.file == Some(o.declared) && after.Runs(s.Saved());
  }

  /** A failed `docker ps` on a live daemon: two containers of one target run. */
  lemma UnheardStartsASecond()
    ensures var s := State(map[Shared := Container(true, {})], {Shared}, None);
      var after := Started(s, Order(Project, {}, false, true), ALL_HEARD.(legacy := false), EASILY);
      s.Sound() && after.1 == Ready && after.0.Runs(Shared) && after.0.Runs(Project)
  {
  }

  /** What a start says of itself: it saves its daemon exactly when it is not
   *  refused, a refusal starts nothing and without a rebuild loses nothing, and one
   *  that is ready runs where its spec says. */
  lemma StartIsAsItSays(s: State, o: Order, h: Heard, c: Course)
    requires Lively(s)
    ensures Started(s, o, h, c).1.Refused() ==> Waned(s, Started(s, o, h, c).0)
    ensures Started(s, o, h, c).1.Refused() && !o.rebuild ==> Started(s, o, h, c).0.containers.Keys == s.containers.Keys
    ensures !Started(s, o, h, c).1.Refused() ==> o.passes && Started(s, o, h, c).0.file == Some(o.declared)
    ensures Started(s, o, h, c).1.Ready? ==> Started(s, o, h, c).0.Runs(o.declared)
  {
    BeforeSaving(s, o, h, c);
    if !o.rebuild { NothingIsLost(s, o, h, c); }
    if !Started(s, o, h, c).1.Refused() {
      LaunchedIsAsItSays(Meanwhile(Judged(s, o, h, c).(file := Some(o.declared)), c.worlds, 7), o, h, c);
    }
  }

  lemma NothingIsLost(s: State, o: Order, h: Heard, c: Course)
    requires !o.rebuild
    ensures Left(s, o, h, c).containers.Keys == s.containers.Keys
    ensures Moved(s, o, h, c).containers.Keys == s.containers.Keys
    ensures Judged(s, o, h, c).containers.Keys == s.containers.Keys
  {
  }

  lemma LaunchedIsAsItSays(s: State, o: Order, h: Heard, c: Course)
    ensures Launched(s, o, h, c).0.file == s.file && !Launched(s, o, h, c).1.Refused()
    ensures Launched(s, o, h, c).1.Ready? ==> Launched(s, o, h, c).0.Runs(o.declared)
  {
  }

  /** Why a start does not come to run, when every question is answered and nothing
   *  fails: something has to move first, or it is against the policy, or it was
   *  built with more than is asked. */
  function Obstacle(s: State, o: Order): Outcome {
    if o.rebuild then if o.passes then Ready else AgainstPolicy
    else if Shared in s.containers && (o.declared == Project || "privileged" in s.containers[Shared].built)
      then NeedsMigrating
    else if o.declared == Shared && s.Saved() == Project && Project in s.up && Project in s.containers
      then NeedsMigrating
    else if !o.passes then AgainstPolicy
    else if o.declared in s.containers && !(s.containers[o.declared].built <= o.asked) then BuiltBeyond
    else Ready
  }

  /** What it leaves then: what runs was built with what is asked, or is what was there,
   *  and a rebuild has taken from the other daemon what was to leave it. */
  lemma EasyStartExactly(s: State, o: Order)
    requires Shared in s.up
    ensures var (after, outcome) := Started(s, o, ALL_HEARD, EASILY);
      && outcome == Obstacle(s, o)
      && (outcome.Ready? ==>
            && after.containers[o.declared] == Container(true,
                 if o.rebuild || o.declared !in s.containers then o.asked else s.containers[o.declared].built)
            && (o.declared == Project ==> Shared !in after.containers)
            && (o.declared == Shared && s.Saved() == Project && Project in s.up ==> Project !in after.containers)
            && after.file == Some(o.declared))
  {
  }

  // --------------------------------------------------------- stop and purge --

  /** A stop leaves nothing running, whatever happens meanwhile, exactly unless it
   *  runs and docker does not tell of it, or of the project's daemon. */
  lemma StopStopsExactly(s: State, info: bool, ps: bool)
    requires s.Sound()
    ensures (forall worlds: Worlds :: Idle(Stopped(s, info, ps, worlds)))
       <==> !s.Runs(s.Saved()) || (ps && (s.Saved() == Project ==> info))
    ensures forall worlds: Worlds ::
              Stopped(s, info, ps, worlds).Sound() && Stopped(s, info, ps, worlds).containers.Keys == s.containers.Keys
  {
    forall worlds: Worlds
      ensures Stopped(s, info, ps, worlds).Sound() && Stopped(s, info, ps, worlds).containers.Keys == s.containers.Keys
      ensures !s.Runs(s.Saved()) || (ps && (s.Saved() == Project ==> info)) ==> Idle(Stopped(s, info, ps, worlds))
    {
      OneStopIsSound(s, info, ps, worlds);
    }
    assert s.Runs(s.Saved()) && !(ps && (s.Saved() == Project ==> info)) ==> !Idle(Stopped(s, info, ps, []));
  }

  lemma OneStopIsSound(s: State, info: bool, ps: bool, worlds: Worlds)
    requires s.Sound()
    ensures Stopped(s, info, ps, worlds).Sound() && Stopped(s, info, ps, worlds).containers.Keys == s.containers.Keys
    ensures !s.Runs(s.Saved()) || (ps && (s.Saved() == Project ==> info)) ==> Idle(Stopped(s, info, ps, worlds))
  {
    MeanwhileWanes(s, worlds, 0);
    MeanwhileWanes(Meanwhile(s, worlds, 0), worlds, 1);
  }

  ghost predicate Idle(s: State) {
    forall d :: !s.Runs(d)
  }

  /** Purging what runs pulls its files from under it. It is refused exactly when
   *  docker tells that it runs. */
  lemma PurgeRefusesExactly(s: State, p: Purging, worlds: Worlds)
    requires s.Sound() && s.Runs(s.Saved())
    ensures Purged(s, p, true, worlds).1 <==> !p.worktrees && !p.running
  {
  }

  /** Refused exactly when its daemon is not to be had, a worktree runs, or docker tells
   *  that it runs; then nothing of it changes. If nothing else happens the other daemon's
   *  container stays, and one that docker tells of is gone. */
  ghost predicate PurgesAsItSays(s: State, p: Purging, ensured: bool, worlds: Worlds, after: State, purged: bool) {
    var d := s.Saved();
    && (purged <==>
          (d == Project ==> ensured) && !p.worktrees && !(p.running && s.Runs(d) && (d == Project || d in s.up)))
    && (purged ==> after.file == None)
    && (!purged ==> after.containers == s.containers && after.file == s.file)
    && (worlds == [] ==> after.containers - {d} == s.containers - {d})
    && (purged && worlds == [] && p.all && (d == Project || d in s.up) ==> d !in after.containers)
  }

  lemma PurgesExactly(s: State, p: Purging, ensured: bool, worlds: Worlds)
    ensures var (after, purged) := Purged(s, p, ensured, worlds);
      PurgesAsItSays(s, p, ensured, worlds, after, purged)
  {
  }

  /** What a purge forgets does not run, whatever happens meanwhile, exactly unless
   *  it runs on the project's daemon, which stays, and docker tells of it neither
   *  when it is asked what runs nor when it is asked what there is. */
  lemma PurgeKeepsSoundExactly(s: State, p: Purging)
    requires s.Sound()
    ensures (forall ensured, worlds: Worlds :: Purged(s, p, ensured, worlds).0.Sound())
       <==> !(s.Saved() == Project && s.Runs(Project) && !p.running && !p.all && !p.last && !p.worktrees)
  {
    var lost := s.Saved() == Project && s.Runs(Project) && !p.running && !p.all && !p.last && !p.worktrees;
    if lost {
      assert !Purged(s, p, true, []).0.Sound() by {
        assert Purged(s, p, true, []).0.Runs(Project);
      }
    } else {
      forall ensured, worlds: Worlds ensures Purged(s, p, ensured, worlds).0.Sound() {
        OnePurgeIsSound(s, p, ensured, worlds);
      }
    }
  }

  /** What is left when the container has been asked for, and taken away if it is there. */
  function TakenAway(on: State, d: Daemon, all: bool, worlds: Worlds): State {
    var by_then := Meanwhile(on, worlds, 0);
    Meanwhile(if Finds(by_then, d, all, true) then Removed(Meanwhile(by_then, worlds, 1), d) else by_then, worlds, 2)
  }

  lemma TakenAwayWanes(on: State, d: Daemon, all: bool, worlds: Worlds)
    requires Lively(on)
    ensures Waned(on, TakenAway(on, d, all, worlds))
    ensures all ==> !TakenAway(on, d, all, worlds).Runs(d)
  {
    var by_then := Meanwhile(on, worlds, 0);
    MeanwhileWanes(on, worlds, 0);
    if Finds(by_then, d, all, true) {
      var later := Meanwhile(by_then, worlds, 1);
      MeanwhileWanes(by_then, worlds, 1);
      RemovedWanes(later, d);
      WanesOn(by_then, later, Removed(later, d));
      WanesOn(on, by_then, Removed(later, d));
      MeanwhileWanes(Removed(later, d), worlds, 2);
      WanesOn(on, Removed(later, d), TakenAway(on, d, all, worlds));
    } else {
      MeanwhileWanes(by_then, worlds, 2);
      WanesOn(on, by_then, TakenAway(on, d, all, worlds));
    }
  }

  lemma OnePurgeIsSound(s: State, p: Purging, ensured: bool, worlds: Worlds)
    requires s.Sound()
    requires !(s.Saved() == Project && s.Runs(Project) && !p.running && !p.all && !p.last && !p.worktrees)
    ensures Purged(s, p, ensured, worlds).0.Sound()
  {
    var d := s.Saved();
    TakenAwayWanes(BroughtUp(s, d), d, p.all, worlds);
  }

  // -------------------------------------------------------- within its spec --

  /** Both daemons stay up. */
  ghost predicate Steady(c: Course) {
    forall w :: w in c.worlds ==> w.up == {Shared, Project}
  }

  /** Its container is built with more than is asked for. */
  predicate IsBeyond(s: State, o: Order) {
    o.declared in s.containers && !(s.containers[o.declared].built <= o.asked)
  }

  /** Nobody told the start of the container: neither to take it away for a rebuild,
   *  nor to hold what it was built with against what is asked. */
  predicate Overlooked(s: State, o: Order, h: Heard) {
    if o.rebuild then !h.before && !(o.declared == Shared && LegacyIn(s, o, h)) else !(h.existing && h.metadata)
  }

  /** It is not refused for a container that has to move first. */
  predicate GoesOn(s: State, o: Order, h: Heard) {
    o.passes && (o.rebuild || (!LegacyIn(s, o, h) && !OwnIn(s, o, h)))
  }

  lemma SteadyKeeps(s: State, c: Course, step: nat)
    requires Steady(c)
    ensures s.up <= Meanwhile(s, c.worlds, step).up
  {
    if step < |c.worlds| {
      assert c.worlds[step] in c.worlds;
      forall d | d in s.up ensures d in {Shared, Project} {
        match d
        case Shared =>
        case Project =>
      }
    }
  }

  /** Built with no more than is asked, or not there: what `up` then starts is within the spec. */
  predicate IsWithin(s: State, o: Order) {
    o.declared in s.containers ==> s.containers[o.declared].built <= o.asked
  }

  lemma LaunchedWithin(s: State, o: Order, h: Heard, c: Course)
    requires IsWithin(s, o) || (!o.rebuild && h.existing && h.metadata && o.declared in s.up)
    ensures Launched(s, o, h, c).1.Ready? ==> IsWithin(Launched(s, o, h, c).0, o)
  {
  }

  lemma LaunchedBeyond(s: State, o: Order, h: Heard, c: Course)
    requires c == EASILY && IsBeyond(s, o) && o.declared in s.up
    requires o.rebuild || !(h.existing && h.metadata)
    ensures Launched(s, o, h, c).1.Ready? && IsBeyond(Launched(s, o, h, c).0, o)
  {
  }

  /** Nothing else happens, and everything that is done succeeds. */
  const EASILY := Course([], true, Done, false, Done)

  lemma SteadyOn(s: State, o: Order, h: Heard, c: Course)
    requires Lively(s) && Steady(c) && (o.declared == Shared ==> Shared in s.up)
    ensures s.up <= Left(s, o, h, c).up
    ensures o.declared in Judged(s, o, h, c).up
    ensures o.declared in Meanwhile(BroughtUp(Moved(s, o, h, c), o.declared), c.worlds, 4).up
  {
    var left, moved := Left(s, o, h, c), Moved(s, o, h, c);
    SteadyKeeps(s, c, 0);
    SteadyKeeps(OffShared(s, o, h, c), c, 1);
    SteadyKeeps(left, c, 2);
    SteadyKeeps(OffOwn(left, o, h, c), c, 3);
    var on := Meanwhile(BroughtUp(moved, o.declared), c.worlds, 4);
    SteadyKeeps(BroughtUp(moved, o.declared), c, 4);
    SteadyKeeps(on, c, 5);
    var clean := if o.rebuild && Finds(on, o.declared, h.before, true)
        then Removed(Meanwhile(on, c.worlds, 5), o.declared) else on;
    SteadyKeeps(clean, c, 6);
  }

  /** What is told of is taken away for a rebuild. */
  lemma RebuiltIsGone(s: State, o: Order, h: Heard, c: Course)
    requires Lively(s) && Steady(c) && (o.declared == Shared ==> Shared in s.up)
    requires o.rebuild && !Overlooked(s, o, h)
    ensures o.declared !in Judged(s, o, h, c).containers
  {
    SteadyOn(s, o, h, c);
    BeforeSaving(s, o, h, c);
    var on := BroughtUp(Moved(s, o, h, c), o.declared);
    SettledWanes(on, o, h, c);
    if o.declared == Shared && LegacyIn(s, o, h) {
      SteadyKeeps(s, c, 0);
      assert Shared !in OffShared(s, o, h, c).containers;
      OffOwnMoves(Left(s, o, h, c), o, h, c);
      assert Shared !in on.containers;
    } else {
      var by_then := Meanwhile(on, c.worlds, 4);
      SteadyKeeps(by_then, c, 5);
    }
  }

  lemma OneStartIsWithin(s: State, o: Order, h: Heard, c: Course)
    requires Lively(s) && Steady(c) && (o.declared == Shared ==> Shared in s.up)
    requires !(GoesOn(s, o, h) && IsBeyond(s, o) && Overlooked(s, o, h))
    ensures Started(s, o, h, c).1.Ready? ==> IsWithin(Started(s, o, h, c).0, o)
  {
    BeforeSaving(s, o, h, c);
    SteadyOn(s, o, h, c);
    if Started(s, o, h, c).1.Ready? {
      var judged := Judged(s, o, h, c);
      var saved := judged.(file := Some(o.declared));
      SteadyKeeps(saved, c, 7);
      if o.rebuild && !Overlooked(s, o, h) { RebuiltIsGone(s, o, h, c); }
      LaunchedWithin(Meanwhile(saved, c.worlds, 7), o, h, c);
    }
  }

  lemma OverlookedIsStarted(s: State, o: Order, h: Heard)
    requires Lively(s) && (o.declared == Shared ==> Shared in s.up)
    requires GoesOn(s, o, h) && IsBeyond(s, o) && Overlooked(s, o, h)
    ensures Started(s, o, h, EASILY).1.Ready? && IsBeyond(Started(s, o, h, EASILY).0, o)
  {
    assert Judged(s, o, h, EASILY).containers[o.declared] == s.containers[o.declared];
    LaunchedBeyond(Judged(s, o, h, EASILY).(file := Some(o.declared)), o, h, EASILY);
  }

  /** While the daemons stay up, what a start starts was built with no more than its
   *  spec asks, exactly unless docker leaves the very questions about it unanswered. */
  lemma StartedIsWithinExactly(s: State, o: Order, h: Heard)
    requires s.Sound() && (o.declared == Shared ==> Shared in s.up)
    ensures (forall c | Steady(c) :: Started(s, o, h, c).1.Ready? ==> IsWithin(Started(s, o, h, c).0, o))
       <==> !(GoesOn(s, o, h) && IsBeyond(s, o) && Overlooked(s, o, h))
  {
    if GoesOn(s, o, h) && IsBeyond(s, o) && Overlooked(s, o, h) {
      OverlookedIsStarted(s, o, h);
      assert Steady(EASILY);
    } else {
      forall c | Steady(c) ensures Started(s, o, h, c).1.Ready? ==> IsWithin(Started(s, o, h, c).0, o) {
        OneStartIsWithin(s, o, h, c);
      }
    }
  }

  /** Both daemons go down as the start begins, and are back just before `up`. */
  const OUTAGE := Course(seq(8, _ => World({}, {})) + [World({Shared, Project}, {})], true, Done, false, Done)

  lemma DownUntilUp(s: State, step: nat)
    requires step <= 8
    ensures step < 8 ==> Meanwhile(s, OUTAGE.worlds, step).up == {} && Meanwhile(s, OUTAGE.worlds, step).file == s.file
    ensures step == 8 ==> Meanwhile(s, OUTAGE.worlds, step).up == {Shared, Project}
    ensures var t := Meanwhile(s, OUTAGE.worlds, step);
      && t.containers.Keys == s.containers.Keys
      && forall d :: d in s.containers ==> t.containers[d].built == s.containers[d].built
  {
  }

  /** It is still there when it is judged: nobody could be told of it. */
  lemma OutageHidesIt(s: State, o: Order)
    requires IsBeyond(s, o)
    ensures !OwnIn(Left(s, o, ALL_HEARD, OUTAGE), o, ALL_HEARD)
    ensures IsBeyond(Judged(s, o, ALL_HEARD, OUTAGE), o)
  {
    var h, c := ALL_HEARD, OUTAGE;
    DownUntilUp(s, 0);
    DownUntilUp(OffShared(s, o, h, c), 1);
    DownUntilUp(OffOwn(Left(s, o, h, c), o, h, c), 3);
    var on := BroughtUp(Moved(s, o, h, c), o.declared);
    DownUntilUp(on, 4);
    DownUntilUp(Meanwhile(on, c.worlds, 4), 6);
  }

  lemma OutageStartsBeyond(s: State, o: Order)
    requires o.passes && IsBeyond(s, o) && (o.rebuild || !LegacyIn(s, o, ALL_HEARD))
    ensures var (after, outcome) := Started(s, o, ALL_HEARD, OUTAGE); outcome.Ready? && IsBeyond(after, o)
  {
    OutageHidesIt(s, o);
    var saved := Judged(s, o, ALL_HEARD, OUTAGE).(file := Some(o.declared));
    DownUntilUp(saved, 7);
    DownUntilUp(Meanwhile(saved, OUTAGE.worlds, 7), 8);
  }

  /** Though every question is answered while a daemon is up to answer it: with daemons
   *  that go down and come back, the check holds nothing back that it would have. */
  lemma OutagesDefeatTheCheckExactly(s: State, o: Order)
    requires s.Sound()
    ensures (forall c :: Started(s, o, ALL_HEARD, c).1.Ready? ==> IsWithin(Started(s, o, ALL_HEARD, c).0, o))
       <==> !(o.passes && IsBeyond(s, o) && (o.rebuild || !LegacyIn(s, o, ALL_HEARD)))
  {
    if o.passes && IsBeyond(s, o) && (o.rebuild || !LegacyIn(s, o, ALL_HEARD)) {
      OutageStartsBeyond(s, o);
    } else {
      forall c ensures Started(s, o, ALL_HEARD, c).1.Ready? ==> IsWithin(Started(s, o, ALL_HEARD, c).0, o) {
        BeforeSaving(s, o, ALL_HEARD, c);
        if Started(s, o, ALL_HEARD, c).1.Ready? {
          var saved := Judged(s, o, ALL_HEARD, c).(file := Some(o.declared));
          LaunchedWithin(Meanwhile(saved, c.worlds, 7), o, ALL_HEARD, c);
        }
      }
    }
  }

  /** The label that says what it was built with goes unread, and the question whether
   *  it is privileged too: it is started as it was built. */
  lemma UnreadLabelStartsPrivileged()
    ensures var s := State(map[Shared := Container(false, {PRIVILEGED})], {Shared}, None);
      var heard := ALL_HEARD.(privileged := false, metadata := false);
      var (after, outcome) := Started(s, Order(Shared, {}, false, true), heard, EASILY);
      s.Sound() && outcome == Ready && after.Runs(Shared) && PRIVILEGED in after.containers[Shared].built
  {
  }

  // ---------------------------------------------------------------- every run --

  datatype Command =
    | Start(o: Order, h: Heard, c: Course)
    | Stop(info: bool, ps: bool, worlds: Worlds)
    | Purge(p: Purging, ensured: bool, worlds: Worlds)

  function Did(s: State, c: Command): State {
    match c
    case Start(o, h, course) => Started(s, o, h, course).0
    case Stop(info, ps, worlds) => Stopped(s, info, ps, worlds)
    case Purge(p, ensured, worlds) => Purged(s, p, ensured, worlds).0
  }

  /** Whatever is asked of a target and whatever happens meanwhile, one container at
   *  most runs at any point, on the daemon that a stop would drive, if docker answers
   *  what keeps a second from running: where the old one is, for a start, and whether
   *  there is one at all, for a purge. */
  lemma {:induction false} EveryRunIsSound(commands: seq<Command>, states: seq<State>)
    requires |states| == |commands| + 1 && states[0].Sound()
    requires forall i :: 0 <= i < |commands| ==> states[i + 1] == Did(states[i], commands[i])
    requires forall c :: c in commands && c.Start? ==> c.h.legacy && c.h.info && c.h.own
    requires forall c :: c in commands && c.Purge? ==> c.p.running || c.p.all
    ensures forall i :: 0 <= i <= |commands| ==> states[i].Sound()
    ensures forall i, d, e :: 0 <= i <= |commands| && states[i].Runs(d) && states[i].Runs(e) ==>
              d == e == states[i].Saved()
  {
    if commands != [] {
      var last := |commands| - 1;
      assert forall c :: c in commands[..last] ==> c in commands;
      EveryRunIsSound(commands[..last], states[..|commands|]);
      assert states[..|commands|][last].Sound();
      assert commands[last] in commands;
      OneCommandIsSound(states[last], commands[last]);
    }
  }

  lemma OneCommandIsSound(s: State, c: Command)
    requires s.Sound()
    requires (c.Start? ==> c.h.legacy && c.h.info && c.h.own) && (c.Purge? ==> c.p.running || c.p.all)
    ensures Did(s, c).Sound()
  {
    match c
    case Start(o, h, course) => OneStartIsSound(s, o, h, course);
    case Stop(info, ps, worlds) => StopStopsExactly(s, info, ps);
    case Purge(p, ensured, worlds) => OnePurgeIsSound(s, p, ensured, worlds);
  }
}
