/** How many project daemons may run at once, and which gives way to another. */
module Capacity {
  import opened Collections
  import opened Wrappers

  datatype Daemon = Daemon(name: string, running: bool, inUse: bool, idleSince: Option<int>, memory: Option<int>)

  datatype Budget = Budget(max: int, available: int, floor: int, newcomer: int, grace: int)

  datatype Reason = Ceiling | Memory
  datatype Admission = Admitted(evict: seq<string>) | Refused(reason: Reason, blockedBy: seq<string>)

  predicate Stoppable(d: Daemon) {
    d.running && !d.inUse
  }

  predicate IdleSince(d: Daemon, before: int) {
    d.idleSince.Some? && d.idleSince.value <= before
  }

  /** Neither in use nor within its grace: what may be stopped for another. */
  predicate Evictable(d: Daemon, budget: Budget, now: int) {
    Stoppable(d) && IdleSince(d, now - budget.grace)
  }

  function Filter(daemons: seq<Daemon>, keep: Daemon -> bool): (r: seq<Daemon>)
    ensures forall d :: d in r <==> d in daemons && keep(d)
  {
    if daemons == [] then []
    else Filter(daemons[..|daemons| - 1], keep) + if keep(daemons[|daemons| - 1]) then [daemons[|daemons| - 1]] else []
  }

  function IsRunning(): Daemon -> bool { (d: Daemon) => d.running }

  function IsIdle(before: int): Daemon -> bool { (d: Daemon) => Stoppable(d) && IdleSince(d, before) }

  function MayGive(budget: Budget, now: int): Daemon -> bool { (d: Daemon) => Evictable(d, budget, now) }

  function IsInTheWay(budget: Budget, now: int): Daemon -> bool {
    (d: Daemon) => d.running && !Evictable(d, budget, now)
  }

  function Names(daemons: seq<Daemon>): (r: seq<string>)
    ensures |r| == |daemons| && forall i :: 0 <= i < |r| ==> r[i] == daemons[i].name
  {
    seq(|daemons|, i requires 0 <= i < |daemons| => daemons[i].name)
  }

  function Running(daemons: seq<Daemon>): seq<Daemon> {
    Filter(daemons, IsRunning())
  }

  /** The names of those that may be stopped for having been idle so long. */
  function Reapable(daemons: seq<Daemon>, now: int, idleFor: int): seq<string> {
    Names(Filter(daemons, IsIdle(now - idleFor)))
  }

  // ------------------------------------------------------- longest idle first --

  predicate Before(a: Daemon, b: Daemon) {
    a.idleSince.Some? && (b.idleSince.None? || a.idleSince.value <= b.idleSince.value)
  }

  function Insert(d: Daemon, sorted: seq<Daemon>): seq<Daemon> {
    if sorted == [] || Before(d, sorted[0]) then [d] + sorted else [sorted[0]] + Insert(d, sorted[1..])
  }

  /** Sorted by when they were last seen busy, ties in the order they came. */
  function LongestIdleFirst(daemons: seq<Daemon>): seq<Daemon> {
    if daemons == [] then [] else Insert(daemons[0], LongestIdleFirst(daemons[1..]))
  }

  function Candidates(daemons: seq<Daemon>, budget: Budget, now: int): seq<Daemon> {
    LongestIdleFirst(Filter(daemons, MayGive(budget, now)))
  }

  /** What stopping it frees; the newcomer's estimate where that is not known. */
  function Holds(d: Daemon, budget: Budget): int {
    d.memory.GetOr(budget.newcomer)
  }

  function Freed(daemons: seq<Daemon>, budget: Budget): int {
    if daemons == [] then 0 else Freed(daemons[..|daemons| - 1], budget) + Holds(daemons[|daemons| - 1], budget)
  }

  /** Both limits, with `stopped` stopped. */
  predicate Fits(daemons: seq<Daemon>, budget: Budget, stopped: seq<Daemon>) {
    && |Running(daemons)| - |stopped| + 1 <= budget.max
    && budget.available + Freed(stopped, budget) - budget.newcomer >= budget.floor
  }

  /** The first prefix of `queue`, from `k` daemons on, that is enough to stop. */
  ghost function FirstThatFits(daemons: seq<Daemon>, budget: Budget, queue: seq<Daemon>, k: nat): Option<nat>
    decreases |queue| - k
  {
    if k > |queue| then None
    else if Fits(daemons, budget, queue[..k]) then Some(k)
    else FirstThatFits(daemons, budget, queue, k + 1)
  }

  /** Who has to stop, if stopping will do at all. */
  ghost function Choice(daemons: seq<Daemon>, budget: Budget, now: int): Option<seq<string>> {
    var queue := Candidates(daemons, budget, now);
    var k := FirstThatFits(daemons, budget, queue, 0);
    if k.Some? && k.value <= |queue| then Some(Names(queue[..k.value])) else None
  }

  /** The fewest daemons, longest idle first, whose stopping meets both limits. */
  ghost predicate LeastThatFits(daemons: seq<Daemon>, budget: Budget, now: int, evict: seq<string>) {
    exists k :: 0 <= k <= |Candidates(daemons, budget, now)|
      && evict == Names(Candidates(daemons, budget, now)[..k])
      && Fits(daemons, budget, Candidates(daemons, budget, now)[..k])
      && forall j :: 0 <= j < k ==> !Fits(daemons, budget, Candidates(daemons, budget, now)[..j])
  }

  /** However many candidates are stopped, in that order, one limit or the other is not met. */
  ghost predicate NothingFits(daemons: seq<Daemon>, budget: Budget, now: int) {
    var queue := Candidates(daemons, budget, now);
    forall j :: 0 <= j <= |queue| ==> !Fits(daemons, budget, queue[..j])
  }

  /** Whether one more daemon fits, and who makes room for it. */
  method Admit(daemons: seq<Daemon>, budget: Budget, now: int) returns (r: Admission)
    ensures Choice(daemons, budget, now) == if r.Admitted? then Some(r.evict) else None
    ensures r.Refused? ==>
              (r.reason.Ceiling? <==> |Running(daemons)| - |Candidates(daemons, budget, now)| + 1 > budget.max)
    ensures r.Refused? ==> r.blockedBy == Names(Filter(daemons, IsInTheWay(budget, now)))
  {
    var running := Running(daemons);
    var candidates := Candidates(daemons, budget, now);
    var evict := [];
    var count, available := |running|, budget.available;
    var i := 0;
    while i < |candidates| && !(count + 1 <= budget.max && available - budget.newcomer >= budget.floor)
      invariant 0 <= i <= |candidates|
      invariant evict == Names(candidates[..i])
      invariant count == |running| - i && available == budget.available + Freed(candidates[..i], budget)
      invariant FirstThatFits(daemons, budget, candidates, 0) == FirstThatFits(daemons, budget, candidates, i)
    {
      assert candidates[..i + 1][..i] == candidates[..i];
      evict := evict + [candidates[i].name];
      count := count - 1;
      available := available + Holds(candidates[i], budget);
      i := i + 1;
    }
    if count + 1 <= budget.max && available - budget.newcomer >= budget.floor { return Admitted(evict); }
    return Refused(if count + 1 <= budget.max then Memory else Ceiling,
                   Names(Filter(daemons, IsInTheWay(budget, now))));
  }

  // ------------------------------------------------------------------ proofs --

  lemma {:induction false} InsertKeeps(d: Daemon, sorted: seq<Daemon>)
    ensures multiset(Insert(d, sorted)) == multiset{d} + multiset(sorted)
  {
    if !(sorted == [] || Before(d, sorted[0])) {
      InsertKeeps(d, sorted[1..]);
      assert sorted == [sorted[0]] + sorted[1..];
    }
  }

  lemma {:induction false} SortKeeps(daemons: seq<Daemon>)
    ensures multiset(LongestIdleFirst(daemons)) == multiset(daemons)
    ensures |LongestIdleFirst(daemons)| == |daemons|
  {
    if daemons != [] {
      SortKeeps(daemons[1..]);
      InsertKeeps(daemons[0], LongestIdleFirst(daemons[1..]));
      assert daemons == [daemons[0]] + daemons[1..];
    }
    assert |multiset(LongestIdleFirst(daemons))| == |multiset(daemons)|;
  }

  ghost predicate Sorted(daemons: seq<Daemon>) {
    forall i, j :: 0 <= i < j < |daemons| ==> Before(daemons[i], daemons[j])
  }

  lemma {:induction false} InsertSorts(d: Daemon, sorted: seq<Daemon>)
    requires Sorted(sorted) && d.idleSince.Some? && forall e :: e in sorted ==> e.idleSince.Some?
    ensures Sorted(Insert(d, sorted))
  {
    if !(sorted == [] || Before(d, sorted[0])) {
      InsertSorts(d, sorted[1..]);
      var rest := Insert(d, sorted[1..]);
      InsertKeeps(d, sorted[1..]);
      forall j | 0 <= j < |rest| ensures Before(sorted[0], rest[j]) {
        assert rest[j] in multiset(rest);
      }
    }
  }

  lemma {:induction false} SortSorts(daemons: seq<Daemon>)
    requires forall d :: d in daemons ==> d.idleSince.Some?
    ensures Sorted(LongestIdleFirst(daemons))
  {
    if daemons != [] {
      SortSorts(daemons[1..]);
      SortKeeps(daemons[1..]);
      forall e | e in LongestIdleFirst(daemons[1..]) ensures e.idleSince.Some? {
        assert e in multiset(LongestIdleFirst(daemons[1..]));
      }
      InsertSorts(daemons[0], LongestIdleFirst(daemons[1..]));
    }
  }

  lemma {:induction false} FirstIsLeast(daemons: seq<Daemon>, budget: Budget, queue: seq<Daemon>, from: nat)
    ensures match FirstThatFits(daemons, budget, queue, from)
            case Some(k) =>
              && from <= k <= |queue| && Fits(daemons, budget, queue[..k])
              && forall j :: from <= j < k ==> !Fits(daemons, budget, queue[..j])
            case None => forall j :: from <= j <= |queue| ==> !Fits(daemons, budget, queue[..j])
    decreases |queue| - from
  {
    if from <= |queue| && !Fits(daemons, budget, queue[..from]) { FirstIsLeast(daemons, budget, queue, from + 1); }
  }

  /** Whoever stops is the fewest that will do, longest idle first; nobody is chosen
   *  only when not all the candidates together would do, nor any number of them. */
  lemma ChoiceIsLeast(daemons: seq<Daemon>, budget: Budget, now: int)
    ensures match Choice(daemons, budget, now)
            case Some(evict) => LeastThatFits(daemons, budget, now, evict)
            case None => NothingFits(daemons, budget, now)
  {
    FirstIsLeast(daemons, budget, Candidates(daemons, budget, now), 0);
  }

  /** The candidates: running, with nobody in them, and not busy within the grace. */
  lemma CandidatesAreEvictable(daemons: seq<Daemon>, budget: Budget, now: int)
    ensures forall d :: d in Candidates(daemons, budget, now) <==>
              d in daemons && d.running && !d.inUse && d.idleSince.Some? && d.idleSince.value <= now - budget.grace
    ensures forall d :: d in Candidates(daemons, budget, now) <==> d in daemons && Evictable(d, budget, now)
    ensures Sorted(Candidates(daemons, budget, now))
    ensures |Candidates(daemons, budget, now)| == |Filter(daemons, MayGive(budget, now))|
  {
    var evictable := Filter(daemons, MayGive(budget, now));
    SortKeeps(evictable);
    SortSorts(evictable);
    assert forall d :: d in Candidates(daemons, budget, now) <==> d in multiset(Candidates(daemons, budget, now));
    assert forall d :: d in evictable <==> d in multiset(evictable);
  }

  /** What is in the way runs, and is in use or was busy within the grace. */
  lemma InTheWayExactly(daemons: seq<Daemon>, budget: Budget, now: int, name: string)
    ensures name in Names(Filter(daemons, IsInTheWay(budget, now))) <==>
            exists d :: d in daemons && d.name == name && d.running
                        && (d.inUse || d.idleSince.None? || now - d.idleSince.value < budget.grace)
  {
    var inTheWay := Filter(daemons, IsInTheWay(budget, now));
    if d :| d in daemons && d.name == name && d.running
            && (d.inUse || d.idleSince.None? || now - d.idleSince.value < budget.grace)
    {
      assert d in inTheWay;
      var i :| 0 <= i < |inTheWay| && inTheWay[i] == d;
      assert Names(inTheWay)[i] == name;
    }
    if name in Names(inTheWay) {
      var i :| 0 <= i < |inTheWay| && Names(inTheWay)[i] == name;
      assert inTheWay[i] in inTheWay;
    }
  }

  function BusyLast(when: int): Daemon -> bool { (d: Daemon) => d.idleSince == Some(when) }

  lemma {:induction false} FilterFirst(d: Daemon, rest: seq<Daemon>, keep: Daemon -> bool)
    ensures Filter([d] + rest, keep) == (if keep(d) then [d] else []) + Filter(rest, keep)
  {
    var all := [d] + rest;
    if rest == [] {
      assert all[..|all| - 1] == [];
    } else {
      var front, last := rest[..|rest| - 1], rest[|rest| - 1];
      assert all[..|all| - 1] == [d] + front && all[|all| - 1] == last;
      FilterFirst(d, front, keep);
      Regroup(if keep(d) then [d] else [], Filter(front, keep), if keep(last) then [last] else []);
    }
  }

  lemma EitherIsNothing(a: seq<Daemon>, b: seq<Daemon>, c: seq<Daemon>)
    requires a == [] || b == []
    ensures a + (b + c) == b + (a + c)
  {
    assert [] + c == c;
  }

  /** Which of two comes first makes no odds to what is kept of them, if one is not. */
  lemma KeptAlike(a: Daemon, b: Daemon, after: seq<Daemon>, rest: seq<Daemon>, keep: Daemon -> bool)
    requires !keep(a) || !keep(b)
    requires Filter(after, keep) == Filter([b] + rest, keep)
    ensures Filter([a] + after, keep) == Filter([b] + ([a] + rest), keep)
  {
    FilterFirst(a, after, keep);
    FilterFirst(b, rest, keep);
    FilterFirst(b, [a] + rest, keep);
    FilterFirst(a, rest, keep);
    EitherIsNothing(if keep(a) then [a] else [], if keep(b) then [b] else [], Filter(rest, keep));
  }

  lemma {:induction false} InsertGoesFirst(d: Daemon, sorted: seq<Daemon>, when: int)
    requires d.idleSince.Some?
    ensures Filter(Insert(d, sorted), BusyLast(when)) == Filter([d] + sorted, BusyLast(when))
  {
    if sorted != [] && !Before(d, sorted[0]) {
      InsertGoesFirst(d, sorted[1..], when);
      KeptAlike(sorted[0], d, Insert(d, sorted[1..]), sorted[1..], BusyLast(when));
      assert [sorted[0]] + sorted[1..] == sorted;
    }
  }

  /** Those busy last at one moment stop in the order they were listed. */
  lemma {:induction false} TiesKeepTheirOrder(daemons: seq<Daemon>, when: int)
    requires forall d :: d in daemons ==> d.idleSince.Some?
    ensures Filter(LongestIdleFirst(daemons), BusyLast(when)) == Filter(daemons, BusyLast(when))
  {
    if daemons != [] {
      var rest := LongestIdleFirst(daemons[1..]);
      TiesKeepTheirOrder(daemons[1..], when);
      InsertGoesFirst(daemons[0], rest, when);
      FilterFirst(daemons[0], rest, BusyLast(when));
      FilterFirst(daemons[0], daemons[1..], BusyLast(when));
      assert daemons == [daemons[0]] + daemons[1..];
    }
  }

  /** The evictions: none in use or in its grace, and none more recently busy
   *  than one that could have been stopped and was spared. */
  lemma EvictsLongestIdle(daemons: seq<Daemon>, budget: Budget, now: int, k: nat, d: Daemon, spared: Daemon)
    requires k <= |Candidates(daemons, budget, now)|
    requires d in Candidates(daemons, budget, now)[..k]
    requires spared in daemons && Evictable(spared, budget, now) && spared !in Candidates(daemons, budget, now)[..k]
    ensures d in daemons && Evictable(d, budget, now) && d.idleSince.value <= spared.idleSince.value
  {
    CandidatesAreEvictable(daemons, budget, now);
    var all := Candidates(daemons, budget, now);
    var i :| 0 <= i < k && all[i] == d;
    var j :| 0 <= j < |all| && all[j] == spared;
    assert all[i] in all;
    assert forall n :: 0 <= n < k ==> all[..k][n] == all[n];
    assert j >= k;
    assert Before(all[i], all[j]);
  }

  function Known(daemons: seq<Daemon>): int {
    if daemons == [] then 0
    else match daemons[|daemons| - 1].memory
         case Some(bytes) => Known(daemons[..|daemons| - 1]) + bytes
         case None => Known(daemons[..|daemons| - 1])
  }

  function HasNoFigure(): Daemon -> bool { (d: Daemon) => d.memory.None? }

  lemma OneMoreTime(n: nat, estimate: int)
    ensures (n + 1) * estimate == n * estimate + estimate
  {
  }

  /** What stopping them frees: all they are known to hold, and as much as the
   *  newcomer will for each of which nothing is known. */
  lemma {:induction false} FreedExactly(daemons: seq<Daemon>, budget: Budget)
    ensures Freed(daemons, budget) == Known(daemons) + |Filter(daemons, HasNoFigure())| * budget.newcomer
  {
    if daemons != [] {
      var front := daemons[..|daemons| - 1];
      FreedExactly(front, budget);
      OneMoreTime(|Filter(front, HasNoFigure())|, budget.newcomer);
    }
  }

  lemma {:induction false} FreedOver(a: seq<Daemon>, b: seq<Daemon>, budget: Budget)
    ensures Freed(a + b, budget) == Freed(a, budget) + Freed(b, budget)
  {
    if b == [] {
      assert a + b == a;
    } else {
      assert (a + b)[..|a + b| - 1] == a + b[..|b| - 1];
      FreedOver(a, b[..|b| - 1], budget);
    }
  }

  lemma {:induction false} InsertFrees(d: Daemon, sorted: seq<Daemon>, budget: Budget)
    ensures Freed(Insert(d, sorted), budget) == Holds(d, budget) + Freed(sorted, budget)
  {
    if sorted == [] || Before(d, sorted[0]) {
      FreedOver([d], sorted, budget);
    } else {
      InsertFrees(d, sorted[1..], budget);
      FreedOver([sorted[0]], Insert(d, sorted[1..]), budget);
      FreedOver([sorted[0]], sorted[1..], budget);
      assert sorted == [sorted[0]] + sorted[1..];
    }
  }

  lemma {:induction false} SortFrees(daemons: seq<Daemon>, budget: Budget)
    ensures Freed(LongestIdleFirst(daemons), budget) == Freed(daemons, budget)
  {
    if daemons != [] {
      SortFrees(daemons[1..], budget);
      InsertFrees(daemons[0], LongestIdleFirst(daemons[1..]), budget);
      FreedOver([daemons[0]], daemons[1..], budget);
      assert daemons == [daemons[0]] + daemons[1..];
    }
  }

  /** The daemons at the chosen places, in order. */
  function Chosen(daemons: seq<Daemon>, places: set<nat>): (r: seq<Daemon>) {
    if daemons == [] then []
    else
      var last := |daemons| - 1;
      Chosen(daemons[..last], places) + if last in places then [daemons[last]] else []
  }

  lemma {:induction false} ChoiceFreesNoMore(daemons: seq<Daemon>, places: set<nat>, budget: Budget, now: int)
    requires forall i :: i in places && i < |daemons| ==> Evictable(daemons[i], budget, now)
    requires forall d :: d in daemons ==> Holds(d, budget) >= 0
    ensures var evictable := Filter(daemons, MayGive(budget, now));
      |Chosen(daemons, places)| <= |evictable| && Freed(Chosen(daemons, places), budget) <= Freed(evictable, budget)
  {
    var keep := MayGive(budget, now);
    if daemons != [] {
      var last := |daemons| - 1;
      var front := daemons[..last];
      ChoiceFreesNoMore(front, places, budget, now);
      FreedOver(Chosen(front, places), if last in places then [daemons[last]] else [], budget);
      FreedOver(Filter(front, keep), if keep(daemons[last]) then [daemons[last]] else [], budget);
    }
  }

  /** A refusal is not for want of trying: no set of daemons that may be stopped
   *  would have met both limits. */
  lemma RefusedMeansNothingWouldDo(daemons: seq<Daemon>, budget: Budget, now: int, places: set<nat>)
    requires Choice(daemons, budget, now).None?
    requires forall d :: d in daemons ==> Holds(d, budget) >= 0
    requires forall i :: i in places ==> i < |daemons| && Evictable(daemons[i], budget, now)
    ensures !Fits(daemons, budget, Chosen(daemons, places))
  {
    var all := Candidates(daemons, budget, now);
    ChoiceIsLeast(daemons, budget, now);
    assert all[..|all|] == all && !Fits(daemons, budget, all[..|all|]);
    ChoiceFreesNoMore(daemons, places, budget, now);
    SortFrees(Filter(daemons, MayGive(budget, now)), budget);
    SortKeeps(Filter(daemons, MayGive(budget, now)));
  }
}
