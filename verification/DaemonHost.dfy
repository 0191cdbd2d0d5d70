/** What starts, stops and purges a target, call by call, with the daemon it drives. */
module DaemonHost {
  import opened DaemonRuns
  import opened Daemons
  import opened Wrappers

  class Host {
    var containers: map<Daemon, Container>
    var up: set<Daemon>
    var file: Option<Daemon>
    /** DOCKER_HOST: whom the next docker call is to. */
    var driving: Daemon

    function Now(): State
      reads this
    {
      State(containers, up, file)
    }

    constructor ()
      ensures Now() == State(map[], {Shared}, None) && driving == Shared
    {
      containers, up, file, driving := map[], {Shared}, None, Shared;
    }

    method Others(worlds: Worlds, step: nat)
      modifies this`containers, this`up
      ensures Now() == Meanwhile(old(Now()), worlds, step)
    {
      if step < |worlds| {
        var s := After(Now(), worlds[step]);
        containers, up := s.containers, s.up;
      }
    }

    method DevcontainerId(heard: bool, all: bool) returns (found: bool)
      ensures found == Finds(Now(), driving, heard, all)
    {
      return heard && driving in up && driving in containers && (all || containers[driving].running);
    }

    method Remove()
      modifies this`containers
      ensures Now() == Removed(old(Now()), driving)
    {
      if driving in up { containers := containers - {driving}; }
    }

    method Halt()
      modifies this`containers
      ensures Now() == Halted(old(Now()), driving)
    {
      if driving in up && driving in containers {
        containers := containers[driving := containers[driving].(running := false)];
      }
    }

    method Up(asked: set<string>, going: Going) returns (ok: bool)
      modifies this`containers
      ensures Now() == Upped(old(Now()), driving, asked, going)
      ensures ok == IsUp(driving, up, going)
    {
      if driving !in up || going.NotBegun? { return false; }
      var running := driving in containers && containers[driving].running;
      var built := if driving in containers then containers[driving].built else asked;
      containers := containers[driving := Container(running || going.Done? || going.started, built)];
      return going.Done?;
    }

    method MigrateOffTheSharedDaemon(o: Order, h: Heard, c: Course) returns (go: bool)
      requires driving == Shared
      modifies this`containers, this`up
      ensures Now() == OffShared(old(Now()), o, h, c)
      ensures go <==> o.rebuild || !LegacyIn(old(Now()), o, h)
    {
      var legacy := DevcontainerId(h.legacy, true);
      if !legacy { return true; }
      var privileged := h.privileged && PRIVILEGED in containers[Shared].built;
      if o.declared == Shared && !privileged { return true; }
      if !o.rebuild { return false; }
      Others(c.worlds, 0);
      Remove();
      return true;
    }

    /** False when the daemon the target last ran on does not answer. */
    method DriveSaved(info: bool) returns (answers: bool)
      modifies this`driving
      ensures answers <==> Now().Saved() == Shared || (info && Project in up)
      ensures driving == if answers then Now().Saved() else old(driving)
    {
      var daemon := Now().Saved();
      if daemon == Project && !(info && Project in up) { return false; }
      driving := daemon;
      return true;
    }

    method MigrateOffItsOwnDaemon(o: Order, h: Heard, c: Course) returns (go: bool)
      requires driving == Shared
      modifies this`containers, this`up, this`driving
      ensures Now() == OffOwn(old(Now()), o, h, c)
      ensures go <==> o.rebuild || !OwnIn(old(Now()), o, h)
      ensures go ==> driving == Shared
    {
      if o.declared != Shared || Now().Saved() != Project { return true; }
      var answers := DriveSaved(h.info);
      if !answers { driving := Shared; return true; }
      var found := DevcontainerId(h.own, true);
      if found {
        if !o.rebuild { return false; }
        Others(c.worlds, 2);
        Remove();
      }
      driving := Shared;
      return true;
    }

    /** The supervisor brings the project's daemon up, or the start is refused. */
    method UseProjectDaemon(ensured: bool) returns (ok: bool)
      modifies this`up, this`driving
      ensures ok == ensured
      ensures Now() == if ok then BroughtUp(old(Now()), Project) else old(Now())
      ensures driving == if ok then Project else old(driving)
    {
      if ensured { up, driving := up + {Project}, Project; }
      return ensured;
    }

    method Settle(o: Order, h: Heard, c: Course)
      requires driving == o.declared
      modifies this`containers, this`up
      ensures Now() == Settled(old(Now()), o, h, c)
    {
      Others(c.worlds, 4);
      var before := DevcontainerId(h.before, true);
      if o.rebuild && before {
        Others(c.worlds, 5);
        Remove();
      }
      Others(c.worlds, 6);
    }

    /** `up` once more, in place of a container whose mounts are stale. */
    method UpAgain(o: Order, h: Heard, c: Course) returns (ok: bool)
      requires driving == o.declared
      modifies this`containers, this`up
      ensures Now() == UppedAgain(old(Now()), o, h, c) && ok == IsUp(driving, up, c.again)
    {
      Others(c.worlds, 9);
      var stale := DevcontainerId(h.stale, true);
      if stale { Remove(); }
      Others(c.worlds, 10);
      ok := Up(o.asked, c.again);
    }

    /** An existing container is judged by what it was built with, and `up` then
     *  starts it, or makes one. */
    method Launch(o: Order, h: Heard, c: Course) returns (outcome: Outcome)
      requires driving == o.declared
      modifies this`containers, this`up
      ensures (Now(), outcome) == Launched(old(Now()), o, h, c)
    {
      var existing := false;
      if !o.rebuild { existing := DevcontainerId(h.existing, true); }
      if existing && h.metadata && !(containers[driving].built <= o.asked) { return BuiltBeyond; }
      Others(c.worlds, 8);
      var ok := Up(o.asked, c.going);
      if ok && c.stale { ok := UpAgain(o, h, c); }
      return if ok then Ready else NotUp;
    }

    /** A start. One container at most runs afterwards, on the saved daemon, unless one
     *  runs where the spec no longer has it and docker does not tell of it. A refusal
     *  starts nothing and leaves the saved daemon. */
    method RunTarget(o: Order, h: Heard, c: Course) returns (outcome: Outcome)
      modifies this
      ensures (Now(), outcome) == Started(old(Now()), o, h, c)
      ensures old(Now()).Sound() && !(o.passes && Stray(old(Now()), o, h)) ==> Now().Sound()
      ensures old(Now()).Sound() && outcome.Refused() ==> Waned(old(Now()), Now())
      ensures old(Now()).Sound() && !outcome.Refused() ==> o.passes && file == Some(o.declared)
      ensures old(Now()).Sound() && outcome.Ready? ==> Now().Runs(o.declared)
    {
      ghost var before := Now();
      if before.Sound() {
        StartIsAsItSays(before, o, h, c);
        if !(o.passes && Stray(before, o, h)) { OneStartIsSound(before, o, h, c); }
      }
      driving := Shared;
      var go := MigrateOffTheSharedDaemon(o, h, c);
      if !go { return NeedsMigrating; }
      Others(c.worlds, 1);
      go := MigrateOffItsOwnDaemon(o, h, c);
      if !go { return NeedsMigrating; }
      Others(c.worlds, 3);
      if o.declared == Project {
        var ensured := UseProjectDaemon(c.ensured);
        if !ensured { return NoDaemon; }
      } else {
        driving := Shared;
      }
      Settle(o, h, c);
      if !o.passes { return AgainstPolicy; }
      file := Some(o.declared);
      Others(c.worlds, 7);
      outcome := Launch(o, h, c);
    }

    /** Nothing of the target runs afterwards, and its container is kept, unless docker
     *  does not tell that it runs. */
    method StopTarget(info: bool, ps: bool, worlds: Worlds)
      modifies this`containers, this`up, this`driving
      ensures Now() == Stopped(old(Now()), info, ps, worlds)
      ensures old(Now()).Sound() ==> Now().Sound() && containers.Keys == old(containers).Keys
      ensures old(Now()).Sound() && ps && info ==> Idle(Now())
    {
      var answers := DriveSaved(info);
      if !answers { return; }
      Others(worlds, 0);
      var id := DevcontainerId(ps, false);
      if id {
        Others(worlds, 1);
        Halt();
      }
    }

    /** Its container and its saved daemon are forgotten; refused exactly when docker
     *  tells that it runs, or one of its worktrees does, or its daemon is not to be had.
     *  A stopped one that docker tells of is gone, if nothing else happens. */
    method PurgeTarget(p: Purging, ensured: bool, worlds: Worlds) returns (purged: bool)
      modifies this
      ensures (Now(), purged) == Purged(old(Now()), p, ensured, worlds)
      ensures old(Now()).Sound() && (p.running || p.all) ==> Now().Sound()
      ensures PurgesAsItSays(old(Now()), p, ensured, worlds, Now(), purged)
    {
      ghost var before := Now();
      PurgesExactly(before, p, ensured, worlds);
      if before.Sound() && (p.running || p.all) { OnePurgeIsSound(before, p, ensured, worlds); }
      var daemon := Now().Saved();
      driving := Shared;
      if daemon == Project {
        var ok := UseProjectDaemon(ensured);
        if !ok { return false; }
      }
      if p.worktrees { return false; }
      var running := DevcontainerId(p.running, false);
      if running { return false; }
      Others(worlds, 0);
      var id := DevcontainerId(p.all, true);
      if id {
        Others(worlds, 1);
        Remove();
      }
      Others(worlds, 2);
      file := None;
      if daemon == Project && p.last {
        containers, up := containers - {Project}, up - {Project};
      }
      return true;
    }
  }
}
