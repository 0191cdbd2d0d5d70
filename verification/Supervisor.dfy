/**
 * The one process that starts and stops project daemons. Its operations run one
 * at a time, but `ensure` and `reset` wait for a daemon to become healthy, and
 * a `status` -- which observes too -- may be answered meanwhile.
 */
module Supervisor {
  import opened Collections
  import opened History
  import opened Wrappers
  import C = Capacity

  /** A daemon's container; `hosts`: a devcontainer is up inside it. */
  datatype Dind = Dind(running: bool, hosts: bool)

  function RunningOf(dinds: map<Name, Dind>): set<Name> {
    set n | n in dinds && dinds[n].running
  }

  ghost predicate DistinctNames(list: seq<C.Daemon>) {
    forall i, j :: 0 <= i < j < |list| ==> list[i].name != list[j].name
  }

  ghost predicate Lists(list: seq<C.Daemon>, n: Name) {
    exists i :: 0 <= i < |list| && list[i].name == n
  }

  lemma ListedStays(list: seq<C.Daemon>, d: C.Daemon)
    ensures Lists(list + [d], d.name)
    ensures forall n :: Lists(list, n) ==> Lists(list + [d], n)
  {
    assert (list + [d])[|list|] == d;
    forall n | Lists(list, n) ensures Lists(list + [d], n) {
      var i :| 0 <= i < |list| && list[i].name == n;
      assert (list + [d])[i].name == n;
    }
  }

  /** Each daemon of `names` once, as it is. */
  ghost predicate Describes(list: seq<C.Daemon>, names: set<Name>, dinds: map<Name, Dind>, lastBusy: map<Name, int>,
                            memory: map<Name, int>) {
    && DistinctNames(list)
    && (forall n :: n in names ==> Lists(list, n))
    && (forall i :: 0 <= i < |list| ==> list[i].name in names && IsAsSeen(list[i], dinds, lastBusy, memory))
  }

  ghost predicate IsAsSeen(d: C.Daemon, dinds: map<Name, Dind>, lastBusy: map<Name, int>, memory: map<Name, int>) {
    && d.name in dinds && d.running == dinds[d.name].running
    && d.inUse == (dinds[d.name].running && dinds[d.name].hosts)
    && d.name in lastBusy
    && d.idleSince == (if d.inUse then None else Some(lastBusy[d.name]))
    && d.memory == if d.name in memory then Some(memory[d.name]) else None
  }

  /** These may be stopped, and that leaves room for one more. */
  ghost predicate LeavesRoom(evict: seq<Name>, dinds: map<Name, Dind>, lastBusy: map<Name, int>, max: int,
                             idleBy: int) {
    && (forall m :: m in evict ==> m in RunningOf(dinds) && !dinds[m].hosts && m in lastBusy && lastBusy[m] <= idleBy)
    && |RunningOf(dinds) - SetOf(evict)| + 1 <= max
  }

  /** When each was last busy, once all have been looked at: now if somebody is in
   *  it, or if it is seen for the first time. */
  function LookedAt(names: set<Name>, dinds: map<Name, Dind>, lastBusy: map<Name, int>, now: int): map<Name, int>
    requires names <= dinds.Keys
  {
    map n | n in names + lastBusy.Keys ::
      if n in names && ((dinds[n].running && dinds[n].hosts) || n !in lastBusy) then now else lastBusy[n]
  }

  function Looks(log: Log, list: seq<C.Daemon>, now: int): Log {
    if list == [] then log
    else
      var d := list[|list| - 1];
      Then(Looks(log, list[..|list| - 1], now), Observed(d.name, now, d.inUse))
  }

  lemma {:induction false} LooksExtend(log: Log, list: seq<C.Daemon>, now: int)
    ensures Extends(log, Looks(log, list, now))
  {
    if list != [] { LooksExtend(log, list[..|list| - 1], now); }
  }

  lemma LookedAtOneMore(seen: set<Name>, n: Name, dinds: map<Name, Dind>, lastBusy: map<Name, int>, now: int)
    requires seen <= dinds.Keys && n in dinds && n !in seen
    ensures LookedAt({n}, dinds, LookedAt(seen, dinds, lastBusy, now), now)
         == LookedAt(seen + {n}, dinds, lastBusy, now)
  {
  }

  /** What is described stays so when one more is looked at, and that one with it. */
  lemma DescribesOneMore(list: seq<C.Daemon>, seen: set<Name>, d: C.Daemon, dinds: map<Name, Dind>,
                         lastBusy: map<Name, int>, memory: map<Name, int>, now: int)
    requires seen <= dinds.Keys && d.name in dinds && d.name !in seen
    requires Describes(list, seen, dinds, lastBusy, memory)
    requires IsAsSeen(d, dinds, LookedAt({d.name}, dinds, lastBusy, now), memory)
    ensures Describes(list + [d], seen + {d.name}, dinds, LookedAt({d.name}, dinds, lastBusy, now), memory)
  {
    ListedStays(list, d);
  }

  predicate IsReapable(m: Name, dinds: map<Name, Dind>, lastBusy: map<Name, int>, t: int) {
    m in dinds && !dinds[m].hosts && m in lastBusy && lastBusy[m] <= t
  }

  /** Nobody was in any of them, and none had been busy since `t`. */
  ghost predicate WereIdle(gone: set<Name>, before: map<Name, Dind>, lastBusy: map<Name, int>, t: int) {
    forall m :: m in gone ==> IsReapable(m, before, lastBusy, t)
  }

  /** Which is to say: in all its history the supervisor saw nobody in them after
   *  `t`, and had known each of them by then; and whenever it was asked for one
   *  after `t`, that one did not come up. */
  ghost predicate GaveWay(gone: set<Name>, history: seq<Event>, t: int) {
    forall m :: m in gone ==> WasQuiet(history, m, t) && AskedInVain(history, m, t)
  }

  /** What admission came to, on the daemons as they were `seen` just before. */
  ghost predicate Decided(choice: Option<seq<Name>>, admitted: bool, stopped: set<Name>) {
    choice.Some? == admitted && stopped == SetOf(choice.GetOr([]))
  }

  method Decide(list: seq<C.Daemon>, budget: C.Budget, now: int, ghost dinds: map<Name, Dind>,
                ghost lastBusy: map<Name, int>, ghost memory: map<Name, int>)
    returns (admitted: bool, evict: seq<Name>)
    requires Describes(list, dinds.Keys, dinds, lastBusy, memory)
    ensures admitted ==> LeavesRoom(evict, dinds, lastBusy, budget.max, now - budget.grace)
    ensures C.Choice(list, budget, now) == if admitted then Some(evict) else None
  {
    var admission := C.Admit(list, budget, now);
    if admission.Refused? { return false, []; }
    AdmittedLeavesRoom(list, dinds, lastBusy, memory, budget, now, admission.evict);
    return true, admission.evict;
  }

  class Supervisor {
    /** The project daemons' containers, and when each was last seen busy. */
    var dinds: map<Name, Dind>
    var lastBusy: map<Name, int>
    var now: int
    /** The daemon the operation at hand was asked for, until it is up or given up on. */
    var waiting: Option<Name>
    ghost var history: Log

    /** What is remembered of the daemons is what happened to them. */
    ghost predicate Valid()
      reads this
    {
      Recorded(history, now) && Busy(history) == lastBusy && Pending(history) == waiting
    }

    constructor (dinds: map<Name, Dind>, now: int)
      ensures Valid() && this.dinds == dinds && waiting == None && lastBusy == map[]
    {
      this.dinds, this.now, lastBusy, waiting, history := dinds, now, map[], None, Nothing;
    }

    /** Time passes, devcontainers come and go, and a daemon may die; none but
     *  the supervisor starts one. */
    method Elapse(later: int, hosting: set<Name>, died: set<Name>)
      requires Valid() && now <= later
      modifies this`dinds, this`now
      ensures Valid() && now == later
      ensures RunningOf(dinds) == RunningOf(old(dinds)) - died
      ensures dinds.Keys == old(dinds).Keys && forall n :: n in dinds ==> (dinds[n].hosts <==> n in hosting)
    {
      RecordedLater(history, now, later);
      now := later;
      dinds := map n | n in dinds :: Dind(dinds[n].running && n !in died, n in hosting);
    }

    /** One more thing that happened to a daemon, at this moment. */
    ghost method Note(e: Event)
      requires Recorded(history, now) && e.at == now && MayFollow(Pending(history), e)
      modifies this`history
      ensures history == Then(old(history), e) && Recorded(history, now)
    {
      history := Then(history, e);
    }

    /** One daemon as it is now. One first seen idle counts from this moment. */
    method See(n: Name, memory: map<Name, int>) returns (d: C.Daemon)
      requires Valid() && n in dinds
      modifies this`lastBusy, this`history
      ensures Valid() && d.name == n && IsAsSeen(d, dinds, lastBusy, memory)
      ensures history == Then(old(history), Observed(n, now, d.inUse))
      ensures lastBusy == LookedAt({n}, dinds, old(lastBusy), now)
    {
      var inUse := dinds[n].running && dinds[n].hosts;
      Note(Observed(n, now, inUse));
      if inUse || n !in lastBusy { lastBusy := lastBusy[n := now]; }
      d := C.Daemon(n, dinds[n].running, inUse, if inUse then None else Some(lastBusy[n]),
                    if n in memory then Some(memory[n]) else None);
    }

    /** What every operation decides on: each daemon as it is now. */
    method Observe(memory: map<Name, int>) returns (list: seq<C.Daemon>)
      requires Valid()
      modifies this`lastBusy, this`history
      ensures Valid() && Describes(list, dinds.Keys, dinds, lastBusy, memory)
      ensures lastBusy == LookedAt(dinds.Keys, dinds, old(lastBusy), now)
      ensures history == Looks(old(history), list, now) && Extends(old(history), history)
    {
      list := [];
      var left := dinds.Keys;
      ghost var seen: set<Name> := {};
      while left != {}
        invariant Valid() && left <= dinds.Keys
        invariant seen == dinds.Keys - left
        invariant history == Looks(old(history), list, now)
        invariant Describes(list, seen, dinds, lastBusy, memory)
        invariant lastBusy == LookedAt(seen, dinds, old(lastBusy), now)
      {
        var n :| n in left;
        ghost var before := lastBusy;
        left := left - {n};
        var d := See(n, memory);
        LookedAtOneMore(seen, n, dinds, old(lastBusy), now);
        DescribesOneMore(list, seen, d, dinds, before, memory, now);
        assert (list + [d])[..|list|] == list;
        seen, list := seen + {n}, list + [d];
      }
      assert seen == dinds.Keys;
      LooksExtend(old(history), list, now);
    }

    /** Quiesced, then stopped, if it runs; its images stay. Stops succeed. */
    method Halt(n: Name)
      requires Valid() && n in dinds
      modifies this`dinds, this`history
      ensures Valid() && dinds.Keys == old(dinds).Keys
      ensures RunningOf(dinds) == RunningOf(old(dinds)) - {n}
      ensures dinds == if old(dinds)[n].running then old(dinds)[n := Dind(false, false)] else old(dinds)
      ensures history == if old(dinds)[n].running then Then(old(history), Stopped(n, now)) else old(history)
    {
      if dinds[n].running {
        Note(Stopped(n, now));
        dinds := dinds[n := Dind(false, false)];
      }
    }

    method HaltEach(names: seq<Name>)
      requires Valid() && forall n :: n in names ==> n in RunningOf(dinds)
      modifies this`dinds, this`history
      ensures Valid() && Extends(old(history), history) && dinds.Keys == old(dinds).Keys
      ensures RunningOf(dinds) == RunningOf(old(dinds)) - SetOf(names)
    {
      for i := 0 to |names|
        invariant Valid() && Extends(old(history), history) && dinds.Keys == old(dinds).Keys
        invariant RunningOf(dinds) == RunningOf(old(dinds)) - SetOf(names[..i])
      {
        assert names[i] in names;
        Halt(names[i]);
        assert names[..i + 1] == names[..i] + [names[i]] && SetOf(names[..i + 1]) == SetOf(names[..i]) + {names[i]};
      }
      assert names[..|names|] == names;
    }

    /** Look at every daemon, and decide who would have to go for one more to start. */
    method Consider(budget: C.Budget, memory: map<Name, int>)
      returns (admitted: bool, evict: seq<Name>, ghost seen: seq<C.Daemon>)
      requires Valid()
      modifies this`lastBusy, this`history
      ensures Valid() && Extends(old(history), history) && Describes(seen, dinds.Keys, dinds, lastBusy, memory)
      ensures admitted ==> LeavesRoom(evict, dinds, lastBusy, budget.max, now - budget.grace)
      ensures C.Choice(seen, budget, now) == if admitted then Some(evict) else None
    {
      var list := Observe(memory);
      seen := list;
      admitted, evict := Decide(list, budget, now, dinds, lastBusy, memory);
    }

    /** Stop others, if one more may only start without them: the fewest, and the
     *  longest idle. Not admitted, it would not fit whatever were stopped. */
    method MakeRoom(budget: C.Budget, memory: map<Name, int>)
      returns (admitted: bool, ghost seen: seq<C.Daemon>, ghost stopped: set<Name>)
      requires Valid()
      modifies this`dinds, this`lastBusy, this`history
      ensures Valid() && Extends(old(history), history)
      ensures stopped <= RunningOf(old(dinds)) && RunningOf(dinds) == RunningOf(old(dinds)) - stopped
      ensures admitted ==> |RunningOf(dinds)| + 1 <= budget.max
      ensures WereIdle(stopped, old(dinds), lastBusy, now - budget.grace)
      ensures Describes(seen, old(dinds).Keys, old(dinds), lastBusy, memory)
      ensures Decided(C.Choice(seen, budget, now), admitted, stopped)
    {
      var evict;
      admitted, evict, seen := Consider(budget, memory);
      stopped := {};
      if admitted {
        ghost var looked := history;
        HaltEach(evict);
        ExtendsOn(old(history), looked, history);
        stopped := SetOf(evict);
      }
    }

    lemma IdleMeansQuiet(gone: set<Name>, before: map<Name, Dind>, t: int)
      requires Valid() && WereIdle(gone, before, lastBusy, t) && (waiting.Some? ==> waiting.value !in gone)
      ensures GaveWay(gone, Events(history), t)
    {
      forall m | m in gone ensures WasQuiet(Events(history), m, t) && AskedInVain(Events(history), m, t) {
        IdleIsQuiet(history, m, t, now);
      }
    }

    /** `ensure`, up to where it waits: a daemon that is not running is admitted
     *  first, others giving way to it if they must. `stopped`: those that did;
     *  `refused`: whether docker will not make or start it. */
    method Ensure(n: Name, budget: C.Budget, memory: map<Name, int>, refused: bool)
      returns (r: Ensured, ghost seen: seq<C.Daemon>, ghost stopped: set<Name>)
      requires Valid() && waiting.None?
      modifies this`dinds, this`lastBusy, this`waiting, this`history
      ensures Valid() && Extends(Then(old(history), Asked(n, now)), history)
      ensures waiting == if r.Started? then Some(n) else None
      ensures stopped <= RunningOf(old(dinds))
      ensures r.Started? ==> RunningOf(dinds) == RunningOf(old(dinds)) - stopped + {n}
      ensures !r.Started? ==> RunningOf(dinds) == RunningOf(old(dinds)) - stopped
      ensures n in RunningOf(old(dinds)) ==> r.Started? && stopped == {} && dinds == old(dinds)
      ensures n !in RunningOf(old(dinds)) && r.Started? ==> |RunningOf(dinds)| <= budget.max
      ensures n !in RunningOf(old(dinds)) ==>
                && Describes(seen, old(dinds).Keys, old(dinds), lastBusy, memory)
                && Decided(C.Choice(seen, budget, now), !r.NoRoom?, stopped)
                && (r.NotMade? <==> !r.NoRoom? && refused)
      ensures WereIdle(stopped, old(dinds), lastBusy, now - budget.grace)
    {
      Ask(n);
      seen, stopped := [], {};
      if n in dinds && dinds[n].running { return Started, seen, stopped; }
      ghost var askedFor := history;
      var admitted;
      admitted, seen, stopped := MakeRoom(budget, memory);
      ghost var roomMade := history;
      r := Bring(n, admitted, refused);
      ExtendsOn(askedFor, roomMade, history);
    }

    /** It starts, if there is room and docker does not refuse, or is given up on. */
    method Bring(n: Name, room: bool, refused: bool) returns (r: Ensured)
      requires Valid() && waiting == Some(n)
      modifies this`dinds, this`waiting, this`history
      ensures Valid() && Extends(old(history), history)
      ensures (r.NoRoom? <==> !room) && (r.NotMade? <==> room && refused)
      ensures waiting == if r.Started? then Some(n) else None
      ensures r.Started? ==> RunningOf(dinds) == RunningOf(old(dinds)) + {n}
      ensures !r.Started? ==> dinds == old(dinds)
    {
      if room && !refused {
        Start(n);
        return Started;
      }
      GiveUp();
      return if room then NotMade else NoRoom;
    }

    method Ask(n: Name)
      requires Valid() && waiting.None?
      modifies this`waiting, this`history
      ensures Valid() && waiting == Some(n)
      ensures history == Then(old(history), Asked(n, now))
    {
      Note(Asked(n, now));
      waiting := Some(n);
    }

    method GiveUp()
      requires Valid() && waiting.Some?
      modifies this`waiting, this`history
      ensures Valid() && waiting.None?
      ensures history == Then(old(history), GaveUp(old(waiting).value, now))
    {
      Note(GaveUp(waiting.value, now));
      waiting := None;
    }

    method Start(n: Name)
      requires Valid()
      modifies this`dinds
      ensures Valid() && dinds == old(dinds)[n := Dind(true, false)]
      ensures RunningOf(dinds) == RunningOf(old(dinds)) + {n}
    {
      dinds := dinds[n := Dind(true, false)];
    }

    /** The wait is over; only a daemon that came up counts as busy now. */
    method Finish(healthy: bool)
      requires Valid() && waiting.Some?
      modifies this`lastBusy, this`waiting, this`history
      ensures Valid() && waiting.None?
      ensures healthy ==> lastBusy == old(lastBusy)[old(waiting).value := now]
      ensures !healthy ==> lastBusy == old(lastBusy)
      ensures var n := old(waiting).value;
        history == Then(old(history), if healthy then CameUp(n, now) else GaveUp(n, now))
    {
      if !healthy {
        GiveUp();
        return;
      }
      var n := waiting.value;
      Note(CameUp(n, now));
      lastBusy := lastBusy[n := now];
      waiting := None;
    }

    method Stop(n: Name)
      requires Valid() && waiting.None?
      modifies this`dinds, this`history
      ensures Valid() && RunningOf(dinds) == RunningOf(old(dinds)) - {n}
    {
      if n in dinds { Halt(n); }
    }

    method Forget(n: Name)
      requires Valid()
      modifies this`lastBusy, this`history
      ensures Valid() && lastBusy == old(lastBusy) - {n}
      ensures history == Then(old(history), Forgotten(n, now))
    {
      Note(Forgotten(n, now));
      lastBusy := lastBusy - {n};
    }

    /** Its container and images gone, and with them what was known of it. */
    method Purge(n: Name)
      requires Valid() && waiting.None?
      modifies this`dinds, this`lastBusy, this`history
      ensures Valid() && RunningOf(dinds) == RunningOf(old(dinds)) - {n} && n !in dinds && n !in lastBusy
      ensures history == Then(if n in RunningOf(old(dinds)) then Then(old(history), Stopped(n, now)) else old(history),
                              Forgotten(n, now))
    {
      if n in dinds { Halt(n); }
      dinds := dinds - {n};
      Forget(n);
    }

    /** `reset`, up to where it waits. It restarts a stopped daemon as readily as
     *  a running one, and asks nobody whether there is room. */
    method Reset(n: Name, refused: bool) returns (started: bool)
      requires Valid() && waiting.None?
      modifies this`dinds, this`waiting, this`history
      ensures Valid() && (started <==> n in old(dinds) && !refused) && (started ==> waiting == Some(n))
      ensures RunningOf(dinds) == if started then RunningOf(old(dinds)) + {n} else RunningOf(old(dinds))
      ensures !started ==> waiting.None?
      ensures dinds == if started then old(dinds)[n := Dind(true, false)] else old(dinds)
      ensures started ==> history == Then(old(history), Asked(n, now))
      ensures !started ==> history == Then(Then(old(history), Asked(n, now)), GaveUp(n, now))
    {
      Ask(n);
      started := n in dinds && !refused;
      if started { Start(n); } else { GiveUp(); }
    }

    /** Stop what has been idle long enough: exactly the running daemons nobody
     *  is in and that were last busy that long ago or longer. */
    method Reap(idleFor: int, memory: map<Name, int>)
      requires Valid() && waiting.None?
      modifies this`dinds, this`lastBusy, this`history
      ensures Valid() && Extends(old(history), history)
      ensures RunningOf(dinds) <= RunningOf(old(dinds))
      ensures forall m :: m in RunningOf(old(dinds)) ==>
                (m !in RunningOf(dinds) <==> IsReapable(m, old(dinds), lastBusy, now - idleFor))
      ensures lastBusy == LookedAt(old(dinds).Keys, old(dinds), old(lastBusy), now)
      ensures GaveWay(RunningOf(old(dinds)) - RunningOf(dinds), Events(history), now - idleFor)
    {
      ghost var stopped := Cull(idleFor, memory);
      assert RunningOf(old(dinds)) - RunningOf(dinds) == stopped;
      IdleMeansQuiet(stopped, old(dinds), now - idleFor);
    }

    method Cull(idleFor: int, memory: map<Name, int>) returns (ghost stopped: set<Name>)
      requires Valid() && waiting.None?
      modifies this`dinds, this`lastBusy, this`history
      ensures Valid() && Extends(old(history), history)
      ensures stopped == set m | m in RunningOf(old(dinds)) && IsReapable(m, old(dinds), lastBusy, now - idleFor)
      ensures RunningOf(dinds) == RunningOf(old(dinds)) - stopped
      ensures lastBusy == LookedAt(old(dinds).Keys, old(dinds), old(lastBusy), now)
    {
      var list := Observe(memory);
      var idle := C.Reapable(list, now, idleFor);
      ReapableAreIdleAndRunning(list, dinds, lastBusy, memory, now, idleFor);
      ghost var looked := history;
      HaltEach(idle);
      ExtendsOn(old(history), looked, history);
      stopped := SetOf(idle);
    }

    /** What `ensure` and `reset` promise a daemon they do not keep: idle long enough,
     *  asked for this moment and given up on, it is stopped in the same moment. */
    method ReapedThoughAskedFor(n: Name, refused: bool, idleFor: int, memory: map<Name, int>)
      requires Valid() && waiting.None? && n in RunningOf(dinds) && IsReapable(n, dinds, lastBusy, now - idleFor)
      modifies this
      ensures Valid() && now == old(now) && Extends(Then(old(history), Asked(n, now)), history)
      ensures n !in RunningOf(dinds)
    {
      var started := Reset(n, refused);
      if started { Finish(false); }
      ghost var askedFor := history;
      Reap(idleFor, memory);
      ExtendsOn(Then(old(history), Asked(n, now)), askedFor, history);
    }

    /** What an operation finds and leaves. */
    ghost function Now(): State
      reads this
    {
      State(dinds, lastBusy, now, waiting)
    }

    /** One thing that may happen next. What must wait its turn in the queue is
     *  not begun while an operation is waiting. */
    method Do(op: Op, max: int, idleFor: int)
      requires Valid() && |RunningOf(dinds)| <= max && (op.Ensuring? ==> op.budget.max == max)
      modifies this
      ensures Valid() && |RunningOf(dinds)| <= max
      ensures Comes(op, idleFor, old(Now()), Now())
    {
      ghost var before := RunningOf(dinds);
      if op.Waits() {
        if waiting.None? { Serve(op, max, idleFor); }
        return;
      }
      match op
      case Time(later, hosting, died) =>
        if now <= later { Elapse(later, hosting, died); }
      case Status(memory) =>
        var _ := Observe(memory);
      case Finished(healthy) =>
        if waiting.Some? { Finish(healthy); }
      SubsetCounts(RunningOf(dinds), before);
    }

    /** One operation whose turn has come. */
    method Serve(op: Op, max: int, idleFor: int)
      requires Valid() && waiting.None? && op.Waits()
      requires |RunningOf(dinds)| <= max && (op.Ensuring? ==> op.budget.max == max)
      modifies this
      ensures Valid() && |RunningOf(dinds)| <= max
      ensures Served(op, idleFor, old(Now()), Now())
    {
      if op.Ensuring? {
        EnsureOne(op.n, op.budget, op.memory, op.refused);
      } else if op.Resetting? {
        ResetOne(op.n, op.refused);
      } else {
        ghost var before := RunningOf(dinds);
        Lower(op, idleFor);
        SubsetCounts(RunningOf(dinds), before);
      }
    }

    /** What only stops daemons. */
    method Lower(op: Op, idleFor: int)
      requires Valid() && waiting.None? && (op.Stopping? || op.Purging? || op.Reaping?)
      modifies this
      ensures Valid() && RunningOf(dinds) <= RunningOf(old(dinds))
      ensures Served(op, idleFor, old(Now()), Now())
    {
      match op
      case Stopping(n) =>
        Stop(n);
      case Purging(n) =>
        Purge(n);
      case Reaping(memory) =>
        var _ := Cull(idleFor, memory);
    }

    method ResetOne(n: Name, refused: bool)
      requires Valid() && waiting.None?
      modifies this
      ensures Valid() && RunningOf(dinds) == RunningOf(old(dinds))
      ensures Served(Resetting(n, refused), 0, old(Now()), Now())
    {
      if n in RunningOf(dinds) { var _ := Reset(n, refused); }
    }

    method EnsureOne(n: Name, budget: C.Budget, memory: map<Name, int>, refused: bool)
      requires Valid() && waiting.None? && |RunningOf(dinds)| <= budget.max
      modifies this
      ensures Valid() && now == old(now) && |RunningOf(dinds)| <= budget.max
      ensures waiting == Some(n) || waiting == None
      ensures waiting == Some(n) ==> n in RunningOf(dinds)
      ensures n in RunningOf(old(dinds)) ==> waiting == Some(n) && dinds == old(dinds)
      ensures n !in RunningOf(old(dinds)) && refused ==> waiting == None
      ensures RunningOf(dinds) <= RunningOf(old(dinds)) + {n}
    {
      ghost var before := RunningOf(dinds);
      var r, _, _ := Ensure(n, budget, memory, refused);
      if !r.Started? || n in before { SubsetCounts(RunningOf(dinds), before); }
    }

    /** Over every run of the queue, resets of stopped daemons apart: never more
     *  than `max` run at once. `states`: what each operation found, and what the
     *  last one left. */
    method Run(ops: seq<Op>, max: int, idleFor: int) returns (ghost states: seq<State>)
      requires forall op :: op in ops && op.Ensuring? ==> op.budget.max == max
      requires Valid() && |RunningOf(dinds)| <= max
      modifies this
      ensures Valid() && |states| == |ops| + 1 && states[0] == old(Now()) && states[|ops|] == Now()
      ensures forall i :: 0 <= i < |ops| ==> Comes(ops[i], idleFor, states[i], states[i + 1])
      ensures forall i :: 0 <= i <= |ops| ==> |RunningOf(states[i].dinds)| <= max
    {
      states := [Now()];
      for i := 0 to |ops|
        invariant Valid() && |states| == i + 1 && states[0] == old(Now()) && states[i] == Now()
        invariant forall j :: 0 <= j < i ==> Comes(ops[j], idleFor, states[j], states[j + 1])
        invariant forall j :: 0 <= j <= i ==> |RunningOf(states[j].dinds)| <= max
      {
        Do(ops[i], max, idleFor);
        states := states + [Now()];
      }
    }
  }

  datatype State = State(dinds: map<Name, Dind>, lastBusy: map<Name, int>, now: int, waiting: Option<Name>)

  /** What each operation comes to: one that must wait its turn, to nothing till then. */
  ghost predicate Comes(op: Op, idleFor: int, before: State, after: State) {
    if op.Waits() then if before.waiting.Some? then after == before else Served(op, idleFor, before, after)
    else match op
      case Time(later, _, died) =>
        if later < before.now then after == before
        else
          && after.now == later && after.waiting == before.waiting
          && RunningOf(after.dinds) == RunningOf(before.dinds) - died
      case Finished(healthy) =>
        if before.waiting.None? then after == before
        else
          && after == before.(waiting := None, lastBusy := after.lastBusy)
          && after.lastBusy == if healthy then before.lastBusy[before.waiting.value := before.now] else before.lastBusy
      case _ => after == before.(lastBusy := after.lastBusy)
  }

  ghost predicate Served(op: Op, idleFor: int, before: State, after: State) {
    var running, left := RunningOf(before.dinds), RunningOf(after.dinds);
    match op
    case Ensuring(n, _, _, refused) =>
      && (after.waiting == None || (after.waiting == Some(n) && n in left)) && left <= running + {n}
      && (n in running ==> after.waiting == Some(n) && after.dinds == before.dinds)
      && (n !in running && refused ==> after.waiting == None)
    case Stopping(n) => left == running - {n} && after.lastBusy == before.lastBusy
    case Purging(n) => left == running - {n} && n !in after.dinds && n !in after.lastBusy
    case Resetting(n, refused) =>
      if n !in running then after == before
      else left == running && after.lastBusy == before.lastBusy && after.waiting == if refused then None else Some(n)
    case _ =>
      left == set m | m in running && !IsReapable(m, before.dinds, after.lastBusy, before.now - idleFor)
  }

  datatype Ensured = Started | NoRoom | NotMade

  datatype Op =
    | Time(later: int, hosting: set<Name>, died: set<Name>)
    | Status(memory: map<Name, int>)
    | Ensuring(n: Name, budget: C.Budget, memory: map<Name, int>, refused: bool)
    | Finished(healthy: bool)
    | Stopping(n: Name)
    | Purging(n: Name)
    | Resetting(n: Name, refused: bool)
    | Reaping(memory: map<Name, int>)
  {
    /** It is not begun while another is under way. */
    predicate Waits() {
      Ensuring? || Stopping? || Purging? || Resetting? || Reaping?
    }
  }

  // ------------------------------------------------------------------ proofs --

  lemma {:induction false} DistinctNamesCount(names: seq<Name>)
    requires forall i, j :: 0 <= i < j < |names| ==> names[i] != names[j]
    ensures |SetOf(names)| == |names|
  {
    if names != [] {
      var last := |names| - 1;
      DistinctNamesCount(names[..last]);
      assert SetOf(names) == SetOf(names[..last]) + {names[last]};
    }
  }

  lemma {:induction false} FilterIsDistinct(list: seq<C.Daemon>, keep: C.Daemon -> bool)
    requires DistinctNames(list)
    ensures DistinctNames(C.Filter(list, keep))
  {
    if list != [] {
      var front := list[..|list| - 1];
      FilterIsDistinct(front, keep);
      forall d | d in C.Filter(front, keep) ensures d.name != list[|list| - 1].name {
        var i :| 0 <= i < |front| && front[i] == d;
        assert list[i] == d;
      }
    }
  }

  lemma {:induction false} InsertIsDistinct(d: C.Daemon, sorted: seq<C.Daemon>)
    requires DistinctNames(sorted)
    requires forall e :: e in sorted ==> e.name != d.name
    ensures DistinctNames(C.Insert(d, sorted))
  {
    if sorted != [] && !C.Before(d, sorted[0]) {
      InsertIsDistinct(d, sorted[1..]);
      C.InsertKeeps(d, sorted[1..]);
      var rest := C.Insert(d, sorted[1..]);
      forall j | 0 <= j < |rest| ensures rest[j].name != sorted[0].name {
        assert rest[j] in multiset(rest);
      }
    }
  }

  lemma {:induction false} SortIsDistinct(list: seq<C.Daemon>)
    requires DistinctNames(list)
    ensures DistinctNames(C.LongestIdleFirst(list))
  {
    if list != [] {
      var rest := C.LongestIdleFirst(list[1..]);
      SortIsDistinct(list[1..]);
      C.SortKeeps(list[1..]);
      forall e | e in rest ensures e.name != list[0].name {
        assert e in multiset(rest) && e in list[1..];
        var i :| 0 <= i < |list[1..]| && list[1..][i] == e;
        assert list[i + 1] == e;
      }
      InsertIsDistinct(list[0], rest);
    }
  }

  /** The daemons to be evicted: each once, running, with nobody in it, and not
   *  seen busy within the grace. */
  lemma EvictionsAreIdleAndRunning(list: seq<C.Daemon>, dinds: map<Name, Dind>, lastBusy: map<Name, int>,
                                   memory: map<Name, int>, budget: C.Budget, now: int, k: nat)
    requires Describes(list, dinds.Keys, dinds, lastBusy, memory) && k <= |C.Candidates(list, budget, now)|
    ensures var names := C.Names(C.Candidates(list, budget, now)[..k]);
      && (forall i, j :: 0 <= i < j < |names| ==> names[i] != names[j])
      && (forall m :: m in names ==>
            m in dinds && dinds[m].running && !dinds[m].hosts && m in lastBusy && lastBusy[m] <= now - budget.grace)
  {
    var all := C.Candidates(list, budget, now);
    var keep := C.MayGive(budget, now);
    FilterIsDistinct(list, keep);
    SortIsDistinct(C.Filter(list, keep));
    C.CandidatesAreEvictable(list, budget, now);
    forall i | 0 <= i < k
      ensures var m := all[..k][i].name;
        m in dinds && dinds[m].running && !dinds[m].hosts && m in lastBusy && lastBusy[m] <= now - budget.grace
    {
      assert all[i] in all;
      var j :| 0 <= j < |list| && list[j] == all[i];
    }
  }

  /** Stopping what was to be evicted leaves room for one more. */
  lemma AdmittedLeavesRoom(list: seq<C.Daemon>, dinds: map<Name, Dind>, lastBusy: map<Name, int>,
                           memory: map<Name, int>, budget: C.Budget, now: int, evict: seq<Name>)
    requires Describes(list, dinds.Keys, dinds, lastBusy, memory)
    requires C.Choice(list, budget, now) == Some(evict)
    ensures LeavesRoom(evict, dinds, lastBusy, budget.max, now - budget.grace)
  {
    C.ChoiceIsLeast(list, budget, now);
    var k :| 0 <= k <= |C.Candidates(list, budget, now)|
      && evict == C.Names(C.Candidates(list, budget, now)[..k])
      && C.Fits(list, budget, C.Candidates(list, budget, now)[..k]);
    EvictionsAreIdleAndRunning(list, dinds, lastBusy, memory, budget, now, k);
    RunningAreCounted(list, dinds, lastBusy, memory);
    DistinctNamesCount(evict);
    CountWithout(RunningOf(dinds), SetOf(evict));
  }

  lemma CountWithout(all: set<Name>, gone: set<Name>)
    requires gone <= all
    ensures |all - gone| == |all| - |gone|
  {
    assert all == (all - gone) + gone;
  }

  lemma RunningAreCounted(list: seq<C.Daemon>, dinds: map<Name, Dind>, lastBusy: map<Name, int>, memory: map<Name, int>)
    requires Describes(list, dinds.Keys, dinds, lastBusy, memory)
    ensures |C.Running(list)| == |RunningOf(dinds)|
  {
    var running := C.Running(list);
    FilterIsDistinct(list, C.IsRunning());
    var names := C.Names(running);
    DistinctNamesCount(names);
    forall n | n in RunningOf(dinds) ensures n in names {
      assert Lists(list, n);
      var i :| 0 <= i < |list| && list[i].name == n;
      assert IsAsSeen(list[i], dinds, lastBusy, memory) && list[i] in running;
      var j :| 0 <= j < |running| && running[j] == list[i];
      assert names[j] == n;
    }
    forall n | n in names ensures n in RunningOf(dinds) {
      var j :| 0 <= j < |names| && names[j] == n;
      assert running[j] in running;
      var i :| 0 <= i < |list| && list[i] == running[j];
    }
    assert SetOf(names) == RunningOf(dinds);
  }

  lemma ReapableAreIdleAndRunning(list: seq<C.Daemon>, dinds: map<Name, Dind>, lastBusy: map<Name, int>,
                                  memory: map<Name, int>, now: int, idleFor: int)
    requires Describes(list, dinds.Keys, dinds, lastBusy, memory)
    ensures forall m :: m in C.Reapable(list, now, idleFor) <==>
              m in RunningOf(dinds) && IsReapable(m, dinds, lastBusy, now - idleFor)
  {
    var keep := C.IsIdle(now - idleFor);
    var idle := C.Filter(list, keep);
    var names := C.Reapable(list, now, idleFor);
    assert names == C.Names(idle);
    forall m | m in RunningOf(dinds) && IsReapable(m, dinds, lastBusy, now - idleFor)
      ensures m in names
    {
      assert Lists(list, m);
      var i :| 0 <= i < |list| && list[i].name == m;
      assert IsAsSeen(list[i], dinds, lastBusy, memory) && list[i] in idle;
      var j :| 0 <= j < |idle| && idle[j] == list[i];
      assert names[j] == m;
    }
    forall m | m in names
      ensures m in RunningOf(dinds) && IsReapable(m, dinds, lastBusy, now - idleFor)
    {
      var j :| 0 <= j < |names| && names[j] == m;
      assert idle[j] in idle;
      var i :| 0 <= i < |list| && list[i] == idle[j];
    }
  }
}
