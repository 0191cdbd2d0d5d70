/** What happens to project daemons, in order, and what of it counts as being busy. */
module History {
  import opened Wrappers

  type Name = string

  /** An asking -- an `ensure` or a `reset` -- ends with the daemon up or given up on. */
  datatype Event =
    | Observed(name: Name, at: int, inUse: bool)
    | Asked(name: Name, at: int)
    | CameUp(name: Name, at: int)
    | GaveUp(name: Name, at: int)
    | Stopped(name: Name, at: int)
    | Forgotten(name: Name, at: int)

  /** All that happened, the latest last. */
  datatype Log = Nothing | Then(before: Log, e: Event)

  function Events(log: Log): seq<Event> {
    match log
    case Nothing => []
    case Then(before, e) => Events(before) + [e]
  }

  ghost predicate Extends(base: Log, log: Log) {
    log == base || (log.Then? && Extends(base, log.before))
  }

  function BusyAfter(busy: map<Name, int>, e: Event): map<Name, int> {
    match e
    case Observed(n, at, inUse) => if inUse || n !in busy then busy[n := at] else busy
    case CameUp(n, at) => busy[n := at]
    case Forgotten(n, _) => busy - {n}
    case _ => busy
  }

  /** When each daemon was last busy: seen in use, or up because it was asked for;
   *  or else first seen. Being asked for is not being busy. */
  function Busy(log: Log): map<Name, int> {
    match log
    case Nothing => map[]
    case Then(before, e) => BusyAfter(Busy(before), e)
  }

  function PendingAfter(before: Option<Name>, e: Event): Option<Name> {
    match e
    case Asked(n, _) => Some(n)
    case CameUp(_, _) => None
    case GaveUp(_, _) => None
    case _ => before
  }

  /** The asking that has not ended. */
  function Pending(log: Log): Option<Name> {
    match log
    case Nothing => None
    case Then(before, e) => PendingAfter(Pending(before), e)
  }

  /** One asking at a time, and none ends that was not begun. */
  predicate MayFollow(pending: Option<Name>, e: Event) {
    && (e.Asked? ==> pending.None?)
    && (e.CameUp? || e.GaveUp? ==> pending == Some(e.name))
  }

  /** In order, and all of it by `now`. */
  predicate Recorded(log: Log, now: int) {
    match log
    case Nothing => true
    case Then(before, e) => e.at <= now && MayFollow(Pending(before), e) && Recorded(before, e.at)
  }

  lemma RecordedLater(log: Log, now: int, later: int)
    requires Recorded(log, now) && now <= later
    ensures Recorded(log, later)
  {
  }

  lemma {:induction false} ExtendsOn(base: Log, mid: Log, log: Log)
    requires Extends(base, mid) && Extends(mid, log)
    ensures Extends(base, log)
  {
    if log != mid { ExtendsOn(base, mid, log.before); }
  }

  ghost predicate InOrder(history: seq<Event>) {
    forall i, j :: 0 <= i < j < |history| ==> history[i].at <= history[j].at
  }

  lemma {:induction false} RecordedInOrder(log: Log, now: int)
    requires Recorded(log, now)
    ensures InOrder(Events(log)) && forall e :: e in Events(log) ==> e.at <= now
  {
    if log.Then? { RecordedInOrder(log.before, log.e.at); }
  }

  // ------------------------------------------------------------- being idle --

  predicate IsBusy(e: Event, n: Name) {
    e.name == n && (e.CameUp? || (e.Observed? && e.inUse))
  }

  predicate IsKnown(e: Event, n: Name) {
    e.name == n && (e.CameUp? || e.Observed?)
  }

  /** Not forgotten since. */
  ghost predicate Lasts(history: seq<Event>, n: Name, k: nat) {
    forall i :: k < i < |history| && history[i].name == n ==> !history[i].Forgotten?
  }

  ghost predicate KnownAt(history: seq<Event>, n: Name, k: int) {
    0 <= k < |history| && IsKnown(history[k], n) && Lasts(history, n, k)
  }

  /** Known by `t`, and never busy after it. */
  ghost predicate WasQuiet(history: seq<Event>, n: Name, t: int) {
    && (exists k :: KnownAt(history, n, k) && history[k].at <= t)
    && (forall k :: KnownAt(history, n, k) && IsBusy(history[k], n) ==> history[k].at <= t)
  }

  lemma KnownBefore(front: seq<Event>, e: Event, n: Name)
    ensures var history := front + [e];
      && (forall k :: 0 <= k < |front| ==>
            (KnownAt(history, n, k) <==> KnownAt(front, n, k) && !(e.name == n && e.Forgotten?)))
      && (KnownAt(history, n, |front|) <==> IsKnown(e, n))
  {
    var history := front + [e];
    assert history[|front|] == e && forall i :: 0 <= i < |front| ==> history[i] == front[i];
    forall k | 0 <= k < |front|
      ensures KnownAt(history, n, k) <==> KnownAt(front, n, k) && !(e.name == n && e.Forgotten?)
    {
      assert Lasts(history, n, k) <==> Lasts(front, n, k) && !(e.name == n && e.Forgotten?);
    }
  }

  /** What is remembered of a daemon says just when it was known and quiet. */
  ghost predicate Tells(busy: map<Name, int>, history: seq<Event>, n: Name, t: int) {
    && (n !in busy <==> forall k :: !KnownAt(history, n, k))
    && (n in busy ==> (busy[n] <= t <==> WasQuiet(history, n, t)))
  }

  /** The idle by `t` are those quiet since; nothing is remembered of a daemon
   *  exactly when it was never known, or is forgotten. */
  lemma {:induction false} IdleExactly(log: Log, n: Name, t: int, now: int)
    requires Recorded(log, now)
    ensures Tells(Busy(log), Events(log), n, t)
  {
    if log.Then? {
      var e, front := log.e, Events(log.before);
      IdleExactly(log.before, n, t, e.at);
      RecordedInOrder(log, now);
      if IsKnown(e, n) { KnownAddsUp(Busy(log.before), front, e, n, t); }
      else if e.name == n && e.Forgotten? { ForgettingClears(Busy(log), front, e, n, t); }
      else { OtherKeeps(Busy(log.before), front, e, n, t); }
    }
  }

  lemma ForgettingClears(busy: map<Name, int>, front: seq<Event>, e: Event, n: Name, t: int)
    requires e.Forgotten? && e.name == n && n !in busy
    ensures Tells(busy, front + [e], n, t)
  {
    KnownBefore(front, e, n);
  }

  lemma OtherKeeps(busy: map<Name, int>, front: seq<Event>, e: Event, n: Name, t: int)
    requires Tells(busy, front, n, t) && !IsKnown(e, n) && !(e.name == n && e.Forgotten?)
    ensures Tells(BusyAfter(busy, e), front + [e], n, t)
  {
    var history := front + [e];
    KnownBefore(front, e, n);
    assert forall k :: KnownAt(history, n, k) <==> KnownAt(front, n, k);
    assert WasQuiet(history, n, t) <==> WasQuiet(front, n, t);
  }

  lemma KnownAddsUp(busy: map<Name, int>, front: seq<Event>, e: Event, n: Name, t: int)
    requires Tells(busy, front, n, t) && IsKnown(e, n) && InOrder(front + [e])
    ensures Tells(BusyAfter(busy, e), front + [e], n, t)
  {
    var history := front + [e];
    KnownBefore(front, e, n);
    assert KnownAt(history, n, |front|) && history[|front|] == e;
    if IsBusy(e, n) || n !in busy {
      assert e.at <= t ==> WasQuiet(history, n, t);
    } else {
      var k :| KnownAt(front, n, k);
      assert KnownAt(history, n, k) && history[k].at <= e.at;
      if WasQuiet(history, n, t) {
        var w :| KnownAt(history, n, w) && history[w].at <= t;
        assert KnownAt(front, n, if w == |front| then k else w);
        assert WasQuiet(front, n, t);
      }
    }
  }

  // ---------------------------------------------------------- being asked for --

  /** No asking begins or comes up between the two. */
  ghost predicate NoneBetween(history: seq<Event>, i: nat, j: nat)
    requires j <= |history|
  {
    forall k :: i < k < j ==> !history[k].Asked? && !history[k].CameUp? && !history[k].GaveUp?
  }

  /** An asking that ended with the daemon given up on. */
  ghost predicate InVain(history: seq<Event>, i: nat)
    requires i < |history|
  {
    exists j :: i < j < |history| && history[j] == GaveUp(history[i].name, history[j].at) && NoneBetween(history, i, j)
  }

  /** Whenever it was asked for after `t`, it did not come up. */
  ghost predicate AskedInVain(history: seq<Event>, n: Name, t: int) {
    forall i :: 0 <= i < |history| && history[i].Asked? && history[i].name == n && history[i].at > t ==>
        InVain(history, i)
  }

  /** An asking is the pending one, or it has ended and nothing was asked meanwhile. */
  lemma {:induction false} AskingEnds(log: Log, now: int, i: nat) returns (j: nat)
    requires Recorded(log, now) && i < |Events(log)| && Events(log)[i].Asked?
    ensures i < j <= |Events(log)| && NoneBetween(Events(log), i, j)
    ensures j == |Events(log)| ==> Pending(log) == Some(Events(log)[i].name)
    ensures j < |Events(log)| ==>
              && (Events(log)[j].CameUp? || Events(log)[j].GaveUp?)
              && Events(log)[j].name == Events(log)[i].name
  {
    var before := Events(log.before);
    assert Events(log) == before + [log.e];
    if i == |before| { return i + 1; }
    j := AskingEnds(log.before, log.e.at, i);
    if j == |before| && !log.e.CameUp? && !log.e.GaveUp? { j := j + 1; }
  }

  lemma NotUpAfter(history: seq<Event>, n: Name, t: int, i: nat, j: nat)
    requires InOrder(history)
    requires WasQuiet(history, n, t) && i < j < |history| && history[i].at > t && history[j].name == n
    ensures !history[j].CameUp?
  {
    var w :| KnownAt(history, n, w) && history[w].at <= t;
    assert w < j;
    if history[j].CameUp? { assert KnownAt(history, n, j); }
  }

  lemma OneAskingFailed(log: Log, n: Name, t: int, now: int, i: nat)
    requires Recorded(log, now) && Pending(log) != Some(n) && WasQuiet(Events(log), n, t)
    requires i < |Events(log)| && Events(log)[i].Asked? && Events(log)[i].name == n && Events(log)[i].at > t
    ensures InVain(Events(log), i)
  {
    RecordedInOrder(log, now);
    var j := AskingEnds(log, now, i);
    NotUpAfter(Events(log), n, t, i, j);
  }

  /** A daemon idle since `t` was quiet since `t`, and every later asking for it
   *  ended in its being given up on. */
  lemma IdleIsQuiet(log: Log, n: Name, t: int, now: int)
    requires Recorded(log, now) && Pending(log) != Some(n)
    requires n in Busy(log) && Busy(log)[n] <= t
    ensures WasQuiet(Events(log), n, t) && AskedInVain(Events(log), n, t)
  {
    IdleExactly(log, n, t, now);
    forall i | 0 <= i < |Events(log)| && Events(log)[i].Asked? && Events(log)[i].name == n && Events(log)[i].at > t
      ensures InVain(Events(log), i)
    {
      OneAskingFailed(log, n, t, now, i);
    }
  }

  lemma {:induction false} NothingBusyKeeps(base: Log, log: Log, n: Name)
    requires Extends(base, log) && n in Busy(base)
    requires forall e :: e in Since(base, log) && e.name == n ==> !IsBusy(e, n) && !e.Forgotten?
    ensures n in Busy(log) && Busy(log)[n] == Busy(base)[n]
  {
    if log != base {
      assert log.e in Since(base, log) && Since(base, log.before) <= Since(base, log);
      NothingBusyKeeps(base, log.before, n);
    }
  }

  /** What happened after `base`. */
  ghost function Since(base: Log, log: Log): set<Event>
    requires Extends(base, log)
  {
    if log == base then {} else Since(base, log.before) + {log.e}
  }

  /**
   * An asking spares an idle daemon exactly if the daemon comes up: asked for
   * after `t`, and nobody seen in it, it is idle since `t` all the same when it
   * is given up on. That it was asked for a moment ago does not count.
   */
  lemma AskingSparesIff(log: Log, n: Name, t: int, asked: int, waiting: Log, healthy: bool, ended: int)
    requires n in Busy(log) && Busy(log)[n] <= t < asked <= ended
    requires Extends(Then(log, Asked(n, asked)), waiting)
    requires forall e :: e in Since(Then(log, Asked(n, asked)), waiting) && e.name == n ==>
              !IsBusy(e, n) && !e.Forgotten?
    ensures var all := Then(waiting, if healthy then CameUp(n, ended) else GaveUp(n, ended));
      n in Busy(all) && (Busy(all)[n] > t <==> healthy)
  {
    NothingBusyKeeps(Then(log, Asked(n, asked)), waiting, n);
  }
}
