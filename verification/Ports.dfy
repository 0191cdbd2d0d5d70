/** Which host port each of a target's services gets. */
module Ports {
  import opened Collections
  import opened Wrappers

  const LOWEST_FORWARDED := 1024
  const HIGHEST := 65535

  /** `editor`, or a container port spelled in decimal: never each other. */
  datatype Label = Editor | App(port: int)

  type PortMap = map<Label, int>

  datatype PortWorld = PortWorld(
    base: int,
    /** Host port -> who holds it. */
    published: map<int, string>,
    ownRelayPorts: set<int>,
    ownForwards: set<int>,
    previous: PortMap)

  /** Nobody else's, and not below the base. */
  predicate Free(world: PortWorld, port: int) {
    && world.base <= port <= HIGHEST
    && (port in world.published ==> port in world.ownRelayPorts || port in world.ownForwards)
  }

  predicate Available(world: PortWorld, taken: set<int>, port: int) {
    Free(world, port) && port !in taken
  }

  function FreePorts(world: PortWorld): set<int> {
    set p | world.base <= p <= HIGHEST && Free(world, p)
  }

  /** What one label is due: the port it had if that is available, the lowest
   *  available one otherwise, and nothing only when none is. */
  ghost predicate Due(world: PortWorld, taken: set<int>, name: Label, r: Option<int>) {
    match r
    case None => forall p :: !Available(world, taken, p)
    case Some(port) =>
      && Available(world, taken, port)
      && (if name in world.previous && Available(world, taken, world.previous[name])
          then port == world.previous[name]
          else forall p :: Available(world, taken, p) ==> port <= p)
  }

  /** The ports in the order they were claimed, the last one claimed last: what
   *  `given` holds when a run of claims for `labels` has come to `chosen`. */
  ghost predicate Allocation(world: PortWorld, labels: seq<Label>, chosen: seq<int>) {
    && |chosen| <= |labels|
    && forall i :: 0 <= i < |chosen| ==> Due(world, SetOf(chosen[..i]), labels[i], Some(chosen[i]))
  }

  /** The map a run of claims leaves: a label claimed twice keeps its last port. */
  function Final(labels: seq<Label>, chosen: seq<int>): PortMap
    requires |chosen| <= |labels|
  {
    if chosen == [] then map[]
    else Final(labels, chosen[..|chosen| - 1])[labels[|chosen| - 1] := chosen[|chosen| - 1]]
  }

  function Labels(appPorts: seq<int>): seq<Label> {
    [Editor] + seq(|appPorts|, i requires 0 <= i < |appPorts| => App(appPorts[i]))
  }

  method Claim(world: PortWorld, taken: set<int>, name: Label) returns (port: Option<int>)
    ensures Due(world, taken, name, port)
  {
    if name in world.previous && Available(world, taken, world.previous[name]) {
      return Some(world.previous[name]);
    }
    var p := world.base;
    while p <= HIGHEST
      invariant forall q :: q < p ==> !Available(world, taken, q)
      decreases HIGHEST - p
    {
      if Available(world, taken, p) { return Some(p); }
      p := p + 1;
    }
    return None;
  }

  // ------------------------------------------------- what claims come to --

  ghost predicate Injective(m: PortMap) {
    forall a, b :: a in m && b in m && a != b ==> m[a] != m[b]
  }

  lemma ClaimsAreDistinctAndFree(world: PortWorld, labels: seq<Label>, chosen: seq<int>)
    requires Allocation(world, labels, chosen)
    ensures Distinct(chosen) && SetOf(chosen) <= FreePorts(world)
    ensures forall p :: p in chosen ==> world.base <= p <= HIGHEST
    ensures forall p :: p in chosen && p in world.published ==> p in world.ownRelayPorts || p in world.ownForwards
  {
    forall i, j | 0 <= i < j < |chosen| ensures chosen[i] != chosen[j] {
      assert chosen[..j][i] in SetOf(chosen[..j]);
    }
  }

  /** What a target may not have: published, and through nothing of its own. */
  ghost predicate HeldByAnother(world: PortWorld, port: int) {
    port in world.published && port !in world.ownRelayPorts + world.ownForwards
  }

  function Name(appPorts: seq<int>, i: nat): Label
    requires i <= |appPorts|
  {
    if i == 0 then Editor else App(appPorts[i - 1])
  }

  /** Each label in turn got the port it had, if that could be had; if it got another
   *  one, all that are lower were held by others or got earlier. */
  lemma EachInTurn(world: PortWorld, appPorts: seq<int>, chosen: seq<int>)
    requires Allocation(world, Labels(appPorts), chosen)
    ensures forall i :: 0 <= i < |chosen| && Name(appPorts, i) in world.previous ==>
              var had := world.previous[Name(appPorts, i)];
              world.base <= had <= HIGHEST && had !in chosen[..i] && !HeldByAnother(world, had) ==> chosen[i] == had
    ensures forall i, p :: 0 <= i < |chosen| && world.base <= p < chosen[i] ==>
              || (Name(appPorts, i) in world.previous && world.previous[Name(appPorts, i)] == chosen[i])
              || p in chosen[..i] || HeldByAnother(world, p)
  {
    var labels := Labels(appPorts);
    forall i | 0 <= i < |chosen|
      ensures Due(world, SetOf(chosen[..i]), labels[i], Some(chosen[i])) && labels[i] == Name(appPorts, i)
    {
    }
    forall i, p | 0 <= i < |chosen| && world.base <= p < chosen[i]
      ensures (labels[i] in world.previous && world.previous[labels[i]] == chosen[i])
              || p in chosen[..i] || HeldByAnother(world, p)
    {
      assert Available(world, SetOf(chosen[..i]), p) ==> p >= chosen[i] || labels[i] in world.previous;
    }
  }

  /** A label is due nothing exactly when each port is another's or given already. */
  lemma NoneIsDueIff(world: PortWorld, chosen: seq<int>, name: Label)
    ensures Due(world, SetOf(chosen), name, None) <==>
            forall p :: world.base <= p <= HIGHEST ==> p in chosen || HeldByAnother(world, p)
  {
    forall p ensures Available(world, SetOf(chosen), p) <==>
                     world.base <= p <= HIGHEST && p !in chosen && !HeldByAnother(world, p)
    {
    }
    if forall p :: !Available(world, SetOf(chosen), p) {
      forall p | world.base <= p <= HIGHEST ensures p in chosen || HeldByAnother(world, p) {
        assert !Available(world, SetOf(chosen), p);
      }
    }
  }

  lemma {:induction false} TakenCounts(chosen: seq<int>)
    requires Distinct(chosen)
    ensures |SetOf(chosen)| == |chosen|
  {
    if chosen != [] {
      var n := |chosen| - 1;
      TakenCounts(chosen[..n]);
      assert chosen[n] !in SetOf(chosen[..n]);
      assert SetOf(chosen) == SetOf(chosen[..n]) + {chosen[n]};
    }
  }

  /** Claims run out exactly when there are fewer free ports than claims. */
  lemma FailsOnlyWhenFull(world: PortWorld, labels: seq<Label>, chosen: seq<int>)
    requires Allocation(world, labels, chosen)
    ensures |chosen| == |labels| ==> |labels| <= |FreePorts(world)|
    ensures |chosen| < |labels| && Due(world, SetOf(chosen), labels[|chosen|], None) ==> |FreePorts(world)| < |labels|
  {
    ClaimsAreDistinctAndFree(world, labels, chosen);
    TakenCounts(chosen);
    SubsetCounts(SetOf(chosen), FreePorts(world));
    if |chosen| < |labels| && Due(world, SetOf(chosen), labels[|chosen|], None) {
      forall p | p in FreePorts(world) ensures p in SetOf(chosen) {
        assert !Available(world, SetOf(chosen), p);
      }
      SubsetCounts(FreePorts(world), SetOf(chosen));
    }
  }

  /** There is one way to claim: the rule leaves nothing open. */
  lemma {:induction false} AllocationIsUnique(world: PortWorld, labels: seq<Label>, chosen: seq<int>, other: seq<int>)
    requires Allocation(world, labels, chosen) && Allocation(world, labels, other) && |chosen| <= |other|
    ensures chosen == other[..|chosen|]
  {
    if chosen != [] {
      var n := |chosen| - 1;
      AllocationPrefix(world, labels, chosen, n);
      AllocationIsUnique(world, labels, chosen[..n], other);
      assert Available(world, SetOf(chosen[..n]), chosen[n]) && Available(world, SetOf(chosen[..n]), other[n]);
      assert chosen == chosen[..n] + [chosen[n]];
    }
  }

  lemma AllocationPrefix(world: PortWorld, labels: seq<Label>, chosen: seq<int>, n: nat)
    requires Allocation(world, labels, chosen) && n <= |chosen|
    ensures Allocation(world, labels, chosen[..n])
  {
    assert forall i :: 0 <= i < n ==> chosen[..n][..i] == chosen[..i];
  }

  /** A label's port is the one it was given last. */
  lemma {:induction false} FinalIsLast(labels: seq<Label>, chosen: seq<int>, name: Label)
    requires |chosen| <= |labels|
    ensures name in Final(labels, chosen) <==> exists i :: 0 <= i < |chosen| && labels[i] == name
    ensures name in Final(labels, chosen) ==>
              exists i :: 0 <= i < |chosen| && labels[i] == name && Final(labels, chosen)[name] == chosen[i]
                          && forall j :: i < j < |chosen| ==> labels[j] != name
  {
    if chosen != [] {
      var n := |chosen| - 1;
      FinalIsLast(labels, chosen[..n], name);
      if labels[n] != name && name in Final(labels, chosen) {
        var i :| 0 <= i < n && labels[i] == name && Final(labels, chosen[..n])[name] == chosen[..n][i]
                 && forall j :: i < j < n ==> labels[j] != name;
        assert chosen[i] == chosen[..n][i];
      }
    }
  }

  /** No two labels are given one port, and no port that is another's. */
  lemma AllocatedPortsAreOwn(world: PortWorld, labels: seq<Label>, chosen: seq<int>)
    requires Allocation(world, labels, chosen)
    ensures Injective(Final(labels, chosen))
    ensures forall l :: l in Final(labels, chosen) ==> Free(world, Final(labels, chosen)[l])
    ensures forall l :: l in Final(labels, chosen) ==> Final(labels, chosen)[l] in chosen
    ensures |chosen| == |labels| ==> forall l :: l in Final(labels, chosen) <==> l in labels
  {
    ClaimsAreDistinctAndFree(world, labels, chosen);
    var m := Final(labels, chosen);
    forall l | true
      ensures l in m ==> exists i :: 0 <= i < |chosen| && labels[i] == l && m[l] == chosen[i]
      ensures |chosen| == |labels| ==> (l in m <==> l in labels)
    {
      FinalIsLast(labels, chosen, l);
    }
    forall l | l in m ensures Free(world, m[l]) {
      var i :| 0 <= i < |chosen| && labels[i] == l && m[l] == chosen[i];
      assert chosen[i] in SetOf(chosen);
    }
  }

  // ------------------------------------------------------ the next start --

  /** The world a start finds that comes after one which was given `m`: `m` is
   *  what it remembers, and every port of it is its own. */
  predicate Remembers(world: PortWorld, before: PortWorld, m: PortMap) {
    world.base == before.base && world.previous == m && forall l :: l in m ==> m[l] in world.ownForwards
  }

  /** Claims for labels that differ are made again as they were. */
  lemma SameClaimsAgain(before: PortWorld, world: PortWorld, labels: seq<Label>, chosen: seq<int>)
    requires Allocation(before, labels, chosen) && |chosen| == |labels| && Distinct(labels)
    requires Remembers(world, before, Final(labels, chosen))
    ensures Allocation(world, labels, chosen)
  {
    ClaimsAreDistinctAndFree(before, labels, chosen);
    forall i | 0 <= i < |chosen| ensures Due(world, SetOf(chosen[..i]), labels[i], Some(chosen[i])) {
      FinalIsLast(labels, chosen, labels[i]);
      assert Final(labels, chosen)[labels[i]] == chosen[i];
      assert chosen[i] in SetOf(chosen) && Free(before, chosen[i]);
      assert chosen[i] !in SetOf(chosen[..i]);
    }
  }

  /** Once its label has been claimed, a remembered port is taken. */
  lemma RememberedIsTaken(world: PortWorld, labels: seq<Label>, again: seq<int>, i: nat, k: nat)
    requires Allocation(world, labels, again) && i < k < |again|
    requires labels[i] in world.previous && Free(world, world.previous[labels[i]])
    ensures again[k] != world.previous[labels[i]]
  {
    var p := world.previous[labels[i]];
    assert Due(world, SetOf(again[..i]), labels[i], Some(again[i]));
    if p in SetOf(again[..i]) {
      var n :| 0 <= n < i && again[..i][n] == p;
      assert again[..k][n] == p;
    } else {
      assert again[..k][i] == p;
    }
    assert p in SetOf(again[..k]);
  }

  /** A label claimed twice ends on a port other than the one it remembers. */
  lemma TwiceClaimedMoves(before: PortWorld, world: PortWorld, labels: seq<Label>, chosen: seq<int>, again: seq<int>,
                          i: nat, j: nat)
    requires Allocation(before, labels, chosen) && |chosen| == |labels|
    requires Remembers(world, before, Final(labels, chosen))
    requires Allocation(world, labels, again) && |again| == |labels|
    requires i < j < |labels| && labels[i] == labels[j]
    ensures Final(labels, again) != Final(labels, chosen)
  {
    var name := labels[i];
    AllocatedPortsAreOwn(before, labels, chosen);
    FinalIsLast(labels, again, name);
    var last :| 0 <= last < |again| && labels[last] == name && Final(labels, again)[name] == again[last]
                && forall k :: last < k < |again| ==> labels[k] != name;
    assert last >= j;
    RememberedIsTaken(world, labels, again, i, last);
  }

  lemma StableIfDistinct(before: PortWorld, world: PortWorld, labels: seq<Label>, chosen: seq<int>, again: seq<int>)
    requires Allocation(before, labels, chosen) && |chosen| == |labels| && Distinct(labels)
    requires Remembers(world, before, Final(labels, chosen))
    requires Allocation(world, labels, again) && |again| == |labels|
    ensures again == chosen
  {
    SameClaimsAgain(before, world, labels, chosen);
    AllocationIsUnique(world, labels, chosen, again);
    assert again[..|chosen|] == again;
  }

  lemma MovesIfRepeated(before: PortWorld, world: PortWorld, labels: seq<Label>, chosen: seq<int>, again: seq<int>)
    requires Allocation(before, labels, chosen) && |chosen| == |labels| && !Distinct(labels)
    requires Remembers(world, before, Final(labels, chosen))
    requires Allocation(world, labels, again) && |again| == |labels|
    ensures Final(labels, again) != Final(labels, chosen)
  {
    var i, j :| 0 <= i < j < |labels| && labels[i] == labels[j];
    TwiceClaimedMoves(before, world, labels, chosen, again, i, j);
  }

  lemma LabelsDiffer(appPorts: seq<int>)
    ensures Distinct(Labels(appPorts)) <==> Distinct(appPorts)
  {
    if i, j :| 0 <= i < j < |appPorts| && appPorts[i] == appPorts[j] {
      assert Labels(appPorts)[i + 1] == Labels(appPorts)[j + 1];
    }
  }

  /**
   * Restarting changes no port exactly when no label is asked for twice: what
   * was given, remembered and still the target's own, is given again. The
   * caller sees to that: it asks for each container port once.
   */
  lemma RestartIsStableIff(before: PortWorld, world: PortWorld, appPorts: seq<int>, chosen: seq<int>, again: seq<int>)
    requires var labels := Labels(appPorts);
      && Allocation(before, labels, chosen) && |chosen| == |labels|
      && world.base == before.base && world.previous == Final(labels, chosen)
      && (forall l :: l in world.previous ==> world.previous[l] in world.ownForwards)
      && Allocation(world, labels, again) && |again| == |labels|
    ensures Final(Labels(appPorts), again) == Final(Labels(appPorts), chosen) <==> Distinct(appPorts)
  {
    LabelsDiffer(appPorts);
    if Distinct(appPorts) {
      StableIfDistinct(before, world, Labels(appPorts), chosen, again);
    } else {
      MovesIfRepeated(before, world, Labels(appPorts), chosen, again);
    }
  }

  // ------------------------------------------------------------- moving one --

  datatype MoveRefusal = UnknownLabel | NotForwarded | HeldBy(holder: string) | OwnOther(other: Label)
  datatype MoveResult = Moved(ports: PortMap) | Refused(why: MoveRefusal)

  /** Move one label to a port the caller chose. */
  method MovePort(world: PortWorld, name: Label, port: int) returns (r: MoveResult)
    ensures r.Moved? <==>
              && name in world.previous
              && LOWEST_FORWARDED <= port <= HIGHEST
              && (port in world.published ==> port in world.ownRelayPorts || port in world.ownForwards)
              && forall l :: l in world.previous && l != name ==> world.previous[l] != port
    ensures r.Moved? ==>
              && r.ports.Keys == world.previous.Keys && r.ports[name] == port
              && (forall l :: l in world.previous && l != name ==> r.ports[l] == world.previous[l])
              && (Injective(world.previous) ==> Injective(r.ports))
    ensures r == Refused(UnknownLabel) <==> name !in world.previous
    ensures r == Refused(NotForwarded) <==> name in world.previous && !(LOWEST_FORWARDED <= port <= HIGHEST)
    ensures r.Refused? && r.why.HeldBy? ==> HeldByAnother(world, port) && r.why.holder == world.published[port]
    ensures r.Refused? && r.why.OwnOther? ==>
              !HeldByAnother(world, port) &&
              r.why.other in world.previous && r.why.other != name && world.previous[r.why.other] == port
  {
    if name !in world.previous { return Refused(UnknownLabel); }
    if port < LOWEST_FORWARDED || port > HIGHEST { return Refused(NotForwarded); }
    if port in world.published && port !in world.ownRelayPorts && port !in world.ownForwards {
      return Refused(HeldBy(world.published[port]));
    }
    var left := world.previous.Keys;
    while left != {}
      invariant left <= world.previous.Keys
      invariant forall l :: l in world.previous && l !in left && l != name ==> world.previous[l] != port
    {
      var other :| other in left;
      if other != name && world.previous[other] == port { return Refused(OwnOther(other)); }
      left := left - {other};
    }
    return Moved(map l | l in world.previous :: if l == name then port else world.previous[l]);
  }

  lemma OneMoreIsDue(world: PortWorld, labels: seq<Label>, chosen: seq<int>, port: int)
    requires Allocation(world, labels, chosen) && |chosen| < |labels|
    requires Due(world, SetOf(chosen), labels[|chosen|], Some(port))
    ensures Allocation(world, labels, chosen + [port])
  {
    var next := chosen + [port];
    forall i | 0 <= i < |next| ensures Due(world, SetOf(next[..i]), labels[i], Some(next[i])) {
      if i < |chosen| {
        assert next[..i] == chosen[..i] && next[i] == chosen[i];
      } else {
        assert next[..i] == chosen;
      }
    }
  }

  lemma OneMoreClaimed(world: PortWorld, labels: seq<Label>, chosen: seq<int>, port: int)
    requires |chosen| < |labels|
    ensures SetOf(chosen + [port]) == SetOf(chosen) + {port}
    ensures Final(labels, chosen + [port]) == Final(labels, chosen)[labels[|chosen|] := port]
  {
    assert (chosen + [port])[..|chosen|] == chosen;
  }

  /** What has been claimed so far, in order, and what that comes to. */
  ghost predicate ComesTo(world: PortWorld, labels: seq<Label>, chosen: seq<int>, taken: set<int>, given: PortMap) {
    Allocation(world, labels, chosen) && taken == SetOf(chosen) && given == Final(labels, chosen)
  }

  /** One label more, or nothing when it is due none: then the ports are all taken. */
  method ClaimNext(world: PortWorld, taken: set<int>, given: PortMap, name: Label,
                   ghost labels: seq<Label>, ghost chosen: seq<int>)
    returns (port: Option<int>, taken': set<int>, given': PortMap)
    requires ComesTo(world, labels, chosen, taken, given) && |chosen| < |labels| && labels[|chosen|] == name
    ensures port.Some? ==> ComesTo(world, labels, chosen + [port.value], taken', given')
    ensures port.None? ==> Due(world, SetOf(chosen), name, None) && |FreePorts(world)| < |labels|
  {
    port := Claim(world, taken, name);
    taken', given' := taken, given;
    if port.None? {
      FailsOnlyWhenFull(world, labels, chosen);
      return;
    }
    OneMoreIsDue(world, labels, chosen, port.value);
    OneMoreClaimed(world, labels, chosen, port.value);
    taken', given' := taken + {port.value}, given[name := port.value];
  }

  /**
   * Every label's port, or nothing when one of them can have none. `chosen` is
   * what was claimed, in order: each port in the range, no earlier label's, and
   * another's never; the remembered one if it could be had, and otherwise the
   * lowest that could. With nothing given, no port was left to be had.
   */
  method AllocatePorts(world: PortWorld, appPorts: seq<int>) returns (r: Option<PortMap>, ghost chosen: seq<int>)
    ensures Allocation(world, Labels(appPorts), chosen)
    ensures r.Some? ==> |chosen| == |Labels(appPorts)| && r.value == Final(Labels(appPorts), chosen)
    ensures r.None? ==>
              && |chosen| < |Labels(appPorts)|
              && Due(world, SetOf(chosen), Labels(appPorts)[|chosen|], None)
    ensures r.Some? <==> 1 + |appPorts| <= |FreePorts(world)|
    ensures r.Some? ==> Injective(r.value) && r.value.Keys == {Editor} + set p | p in appPorts :: App(p)
    ensures r.Some? ==> forall l :: l in r.value ==>
                && r.value[l] in chosen && world.base <= r.value[l] <= 65535
                && (r.value[l] in world.published ==>
                      r.value[l] in world.ownRelayPorts || r.value[l] in world.ownForwards)
    ensures forall i :: 0 <= i < |chosen| && Name(appPorts, i) in world.previous ==>
              var had := world.previous[Name(appPorts, i)];
              world.base <= had <= 65535 && had !in chosen[..i] && !HeldByAnother(world, had) ==> chosen[i] == had
    ensures forall i, p :: 0 <= i < |chosen| && world.base <= p < chosen[i] ==>
              || (Name(appPorts, i) in world.previous && world.previous[Name(appPorts, i)] == chosen[i])
              || p in chosen[..i] || HeldByAnother(world, p)
    ensures r.None? ==> forall p :: world.base <= p <= 65535 ==> p in chosen || HeldByAnother(world, p)
  {
    r, chosen := ClaimAll(world, appPorts);
    EachInTurn(world, appPorts, chosen);
    if r.None? {
      NoneIsDueIff(world, chosen, Labels(appPorts)[|chosen|]);
    } else {
      AllocatedPortsAreOwn(world, Labels(appPorts), chosen);
      LabelsAre(appPorts);
    }
  }

  lemma LabelsAre(appPorts: seq<int>)
    ensures SetOf(Labels(appPorts)) == {Editor} + set p | p in appPorts :: App(p)
  {
    forall p | p in appPorts ensures App(p) in Labels(appPorts) {
      var i :| 0 <= i < |appPorts| && appPorts[i] == p;
      assert Labels(appPorts)[i + 1] == App(p);
    }
  }

  method ClaimAll(world: PortWorld, appPorts: seq<int>) returns (r: Option<PortMap>, ghost chosen: seq<int>)
    ensures Allocation(world, Labels(appPorts), chosen)
    ensures r.Some? ==> |chosen| == |Labels(appPorts)| && r.value == Final(Labels(appPorts), chosen)
    ensures r.None? ==>
              && |chosen| < |Labels(appPorts)|
              && Due(world, SetOf(chosen), Labels(appPorts)[|chosen|], None)
    ensures r.Some? <==> 1 + |appPorts| <= |FreePorts(world)|
  {
    ghost var labels := Labels(appPorts);
    var taken, given := {}, map[];
    chosen := [];
    assert SetOf(chosen) == {};
    var port;
    port, taken, given := ClaimNext(world, taken, given, Editor, labels, chosen);
    if port.None? { return None, chosen; }
    chosen := chosen + [port.value];
    for i := 0 to |appPorts|
      invariant |chosen| == i + 1 && ComesTo(world, labels, chosen, taken, given)
    {
      assert labels[i + 1] == App(appPorts[i]);
      port, taken, given := ClaimNext(world, taken, given, App(appPorts[i]), labels, chosen);
      if port.None? { return None, chosen; }
      chosen := chosen + [port.value];
    }
    FailsOnlyWhenFull(world, labels, chosen);
    return Some(given), chosen;
  }
}
