/**
 * desolate-ingress's ports/ directory from the writing side, as each start's
 * own code drives it. `Others` stands where another process may run: it may do
 * to the directory whatever steps of other targets' processes may, and the
 * steps here keep to the same rule.
 */
module Ingress {
  import opened Collections
  import opened Registry
  import opened Wrappers
  import P = Ports

  function OwnFiles(files: Files, o: Owner): Files {
    map p | p in files && files[p].owner == o :: files[p]
  }

  /** At some moment since, the port's file was another's. */
  ghost predicate WasAnothers(past: seq<Files>, since: int, p: nat, me: Owner) {
    exists i :: 0 <= since <= i < |past| && p in past[i] && past[i][p].owner != me
  }

  /** At some moment since, the port's file named that owner. */
  ghost predicate Named(past: seq<Files>, since: int, p: nat, o: Owner) {
    exists i :: 0 <= since <= i < |past| && p in past[i] && past[i][p].owner == o
  }

  /** All the while since, the port had a file. */
  ghost predicate Stayed(past: seq<Files>, since: int, p: nat) {
    forall i :: 0 <= since <= i < |past| ==> p in past[i]
  }

  class IngressDirectory {
    var files: Files
    /** Every state the directory has been in, the present one last. */
    ghost var past: seq<Files>

    ghost predicate Valid()
      reads this
    {
      past != [] && past[|past| - 1] == files
    }

    constructor (files: Files)
      ensures Valid() && this.files == files
    {
      this.files := files;
      past := [files];
    }

    /** Any number of steps of other targets' processes. */
    method Others(me: Owner)
      requires Valid()
      modifies this
      ensures Valid() && old(past) <= past
      ensures OwnFiles(files, me) == old(OwnFiles(files, me))
    {
      var after: Files := *;
      var theirs := *;
      if theirs && OwnFiles(after, me) == OwnFiles(files, me) {
        files := after;
        past := past + [files];
      }
    }

    // One access each: what this process does to the directory, and no more.

    method LinkStaged(p: nat, dind: string, me: Owner) returns (made: bool)
      requires Valid()
      modifies this
      ensures Valid() && old(past) <= past
      ensures made <==> p !in old(files)
      ensures files == (if made then old(files)[p := File(dind, me)] else old(files)) && OnlyOwn(me, old(files), files)
      ensures OwnFiles(files, me) == if made then old(OwnFiles(files, me))[p := File(dind, me)]
                else old(OwnFiles(files, me))
    {
      made := p !in files;
      files := Linked(files, p, dind, me);
      past := past + [files];
    }

    method RenameStaged(p: nat, dind: string, me: Owner)
      requires Valid() && Names(files, p, me)
      modifies this
      ensures Valid() && old(past) <= past
      ensures files == old(files)[p := File(dind, me)] && OnlyOwn(me, old(files), files)
      ensures OwnFiles(files, me) == old(OwnFiles(files, me))[p := File(dind, me)]
    {
      files := Renamed(files, p, dind, me);
      past := past + [files];
    }

    method RemoveFile(p: nat, me: Owner)
      requires Valid() && Names(files, p, me)
      modifies this
      ensures Valid() && old(past) <= past
      ensures files == old(files) - {p} && OnlyOwn(me, old(files), files)
      ensures OwnFiles(files, me) == old(OwnFiles(files, me)) - {p}
    {
      files := Removed(files, p);
      past := past + [files];
    }

    /** Undefined when there is no file. */
    method OwnerOf(p: nat) returns (owner: Option<Owner>)
      ensures owner == if p in files then Some(files[p].owner) else None
    {
      return if p in files then Some(files[p].owner) else None;
    }

    /** Every listed file with its owner, read one at a time while others run: right
     *  about the reader's own files, and about what stayed; and nothing is made up. */
    method Read(me: Owner) returns (entries: map<nat, Owner>)
      requires Valid()
      modifies this
      ensures Valid() && old(past) <= past
      ensures OwnFiles(files, me) == old(OwnFiles(files, me))
      ensures forall p :: p in entries && entries[p] == me <==> p in OwnFiles(files, me)
      ensures forall p :: p in entries ==> Named(past, |old(past)| - 1, p, entries[p])
      ensures forall p :: Stayed(past, |old(past)| - 1, p) ==> p in entries
    {
      var names := files.Keys;
      entries := map[];
      ghost var mine, since := OwnFiles(files, me), |past| - 1;
      while names != {}
        invariant Valid() && old(past) <= past && OwnFiles(files, me) == mine
        invariant forall p :: p in mine ==> p in names || (p in entries && entries[p] == me)
        invariant forall p :: p in entries && entries[p] == me ==> p in mine
        invariant forall p :: p in entries ==> Named(past, since, p, entries[p])
        invariant forall p :: Stayed(past, since, p) ==> p in names || p in entries
      {
        Others(me);
        var p :| p in names;
        names := names - {p};
        assert p in mine <==> Names(files, p, me);
        assert past[|past| - 1] == files;
        if p in files { entries := entries[p := files[p].owner]; }
      }
    }

    /** The host port is `me`'s, made or rewritten; or it names another, and nothing
     *  of `me`'s has changed. */
    method Claim(p: nat, dind: string, me: Owner) returns (ok: bool)
      requires Valid()
      modifies this
      ensures Valid() && old(past) <= past
      ensures ok <==> p !in old(files) || old(files)[p].owner == me
      ensures ok ==> OwnFiles(files, me) == old(OwnFiles(files, me))[p := File(dind, me)]
      ensures !ok ==> OwnFiles(files, me) == old(OwnFiles(files, me)) && p !in OwnFiles(files, me)
      ensures !ok ==> WasAnothers(past, |old(past)| - 1, p, me)
    {
      ghost var mine := OwnFiles(files, me);
      ghost var since := |past| - 1;
      ok := LinkStaged(p, dind, me);
      if !ok {
        assert past[since] == old(files);
        Others(me);
        var owner := OwnerOf(p);
        assert p in mine <==> owner == Some(me);
        if owner != Some(me) { return false; }
        Others(me);
        assert p in OwnFiles(files, me);
        RenameStaged(p, dind, me);
        ok := true;
      }
      Others(me);
    }

    /** Removed only if `me` claimed it. */
    method Release(p: nat, me: Owner)
      requires Valid()
      modifies this
      ensures Valid() && old(past) <= past
      ensures OwnFiles(files, me) == old(OwnFiles(files, me)) - {p}
    {
      ghost var mine := OwnFiles(files, me);
      var owner := OwnerOf(p);
      assert p in mine <==> owner == Some(me);
      if owner == Some(me) {
        Others(me);
        assert p in OwnFiles(files, me);
        RemoveFile(p, me);
      }
      Others(me);
    }

    /** What of `previous` is not used now is given up. */
    method Drop(previous: seq<nat>, now: seq<nat>, me: Owner)
      requires Valid()
      modifies this
      ensures Valid() && old(past) <= past
      ensures OwnFiles(files, me) == old(OwnFiles(files, me)) - (SetOf(previous) - SetOf(now))
    {
      ghost var mine := OwnFiles(files, me);
      ghost var gone: set<nat> := {};
      for i := 0 to |previous|
        invariant Valid() && old(past) <= past
        invariant gone == SetOf(previous[..i]) - SetOf(now)
        invariant OwnFiles(files, me) == mine - gone
      {
        if previous[i] !in now {
          Release(previous[i], me);
          gone := gone + {previous[i]};
        }
        assert SetOf(previous[..i + 1]) == SetOf(previous[..i]) + {previous[i]};
      }
      assert previous[..|previous|] == previous;
    }

    /** Afterwards `me` holds the ports of `now`, freshly written, and of `previous`
     *  no others. A port it could not have named another, and was never its own. */
    method Publish(previous: seq<nat>, now: seq<nat>, dind: string, me: Owner) returns (lost: seq<nat>)
      requires Valid()
      modifies this
      ensures Valid() && old(past) <= past
      ensures SetOf(lost) <= SetOf(now) && SetOf(lost) !! old(OwnFiles(files, me)).Keys
      ensures forall p :: p in lost ==> WasAnothers(past, |old(past)| - 1, p, me)
      ensures Distinct(now) ==> SetOf(lost) !! OwnFiles(files, me).Keys
      ensures var before, after := old(OwnFiles(files, me)).Keys, OwnFiles(files, me).Keys;
        Distinct(now) ==> after == before - (SetOf(previous) - SetOf(now)) + (SetOf(now) - SetOf(lost))
      ensures forall p :: p in now && p !in lost ==> p in files && files[p] == File(dind, me)
    {
      ghost var mine, since := OwnFiles(files, me), |past| - 1;
      Drop(previous, now, me);
      ghost var kept := OwnFiles(files, me);
      lost := [];
      for i := 0 to |now|
        invariant Valid() && old(past) <= past
        invariant SetOf(lost) <= SetOf(now[..i]) && SetOf(lost) !! mine.Keys
        invariant forall p :: p in lost ==> WasAnothers(past, since, p, me)
        invariant kept.Keys <= OwnFiles(files, me).Keys <= kept.Keys + SetOf(now[..i])
        invariant Distinct(now) ==> SetOf(lost) !! OwnFiles(files, me).Keys
        invariant forall p :: p in now[..i] && p !in lost ==>
                    p in OwnFiles(files, me) && OwnFiles(files, me)[p] == File(dind, me)
      {
        assert SetOf(now[..i + 1]) == SetOf(now[..i]) + {now[i]};
        assert forall p :: p in now[..i + 1] <==> p in now[..i] || p == now[i];
        var ok := Claim(now[i], dind, me);
        if !ok {
          assert now[i] !in mine;
          lost := lost + [now[i]];
        }
      }
      assert now[..|now|] == now;
    }

    method Withdraw(ports: seq<nat>, me: Owner)
      requires Valid()
      modifies this
      ensures Valid() && old(past) <= past
      ensures OwnFiles(files, me) == old(OwnFiles(files, me)) - SetOf(ports)
    {
      ghost var mine := OwnFiles(files, me);
      for i := 0 to |ports|
        invariant Valid() && old(past) <= past
        invariant OwnFiles(files, me) == mine - SetOf(ports[..i])
      {
        Release(ports[i], me);
        assert SetOf(ports[..i + 1]) == SetOf(ports[..i]) + {ports[i]};
      }
      assert ports[..|ports|] == ports;
    }

    /** Claim each port; those it could. A port it could not named another. */
    method ClaimAll(ports: seq<nat>, dind: string, me: Owner) returns (claimed: seq<nat>, ghost loser: nat)
      requires Valid()
      modifies this
      ensures Valid() && old(past) <= past
      ensures OwnFiles(files, me).Keys == old(OwnFiles(files, me)).Keys + SetOf(claimed)
      ensures |claimed| <= |ports| && (|claimed| == |ports| ==> claimed == ports)
      ensures forall p :: p in claimed ==> p in ports && p in files && files[p] == File(dind, me)
      ensures |claimed| < |ports| ==> loser in ports && WasAnothers(past, |old(past)| - 1, loser, me)
    {
      claimed, loser := [], 0;
      ghost var mine, since := OwnFiles(files, me).Keys, |past| - 1;
      ghost var taken: set<nat> := {};
      for i := 0 to |ports|
        invariant Valid() && old(past) <= past
        invariant |claimed| <= i && (|claimed| == i ==> claimed == ports[..i])
        invariant taken == SetOf(claimed) && OwnFiles(files, me).Keys == mine + taken
        invariant forall p :: p in taken ==> p in ports && p in files && files[p] == File(dind, me)
        invariant |claimed| < i ==> loser in ports && WasAnothers(past, since, loser, me)
      {
        var ok := ClaimOne(ports[i], dind, me, taken);
        if ok {
          claimed, taken := claimed + [ports[i]], taken + {ports[i]};
        } else {
          loser := ports[i];
        }
      }
    }

    /** One port more, and those already claimed stay so. */
    method ClaimOne(p: nat, dind: string, me: Owner, ghost claimed: set<nat>) returns (ok: bool)
      requires Valid() && forall q :: q in claimed ==> q in files && files[q] == File(dind, me)
      modifies this
      ensures Valid() && old(past) <= past
      ensures ok ==> OwnFiles(files, me).Keys == old(OwnFiles(files, me)).Keys + {p}
      ensures !ok ==> OwnFiles(files, me).Keys == old(OwnFiles(files, me)).Keys
      ensures forall q :: q in claimed || (ok && q == p) ==> q in files && files[q] == File(dind, me)
      ensures !ok ==> WasAnothers(past, |old(past)| - 1, p, me)
    {
      assert forall q :: q in claimed ==> q in OwnFiles(files, me);
      ok := Claim(p, dind, me);
      forall q | q in claimed || (ok && q == p) ensures q in files && files[q] == File(dind, me) {
        assert q in OwnFiles(files, me);
      }
    }

    /** Give back what an attempt took and did not hold before it. */
    method GiveBack(claimed: seq<nat>, own: set<nat>, me: Owner)
      requires Valid()
      modifies this
      ensures Valid() && old(past) <= past
      ensures OwnFiles(files, me).Keys == old(OwnFiles(files, me)).Keys - (SetOf(claimed) - own)
    {
      for i := 0 to |claimed|
        invariant Valid() && old(past) <= past
        invariant OwnFiles(files, me).Keys == old(OwnFiles(files, me)).Keys - (SetOf(claimed[..i]) - own)
      {
        if claimed[i] !in own { Release(claimed[i], me); }
        assert SetOf(claimed[..i + 1]) == SetOf(claimed[..i]) + {claimed[i]};
      }
      assert claimed[..|claimed|] == claimed;
    }

    /** The world `me` allocates in: two readings of the directory, others
     *  running throughout, on top of what docker and the editor publish. */
    method World(base: int, docker: map<int, string>, editorPort: int, relays: set<int>, previous: P.PortMap, me: Owner)
      returns (world: P.PortWorld)
      requires Valid()
      modifies this
      ensures Valid() && old(past) <= past
      ensures OwnFiles(files, me) == old(OwnFiles(files, me))
      ensures world.base == base && world.previous == previous && world.ownRelayPorts == relays
      ensures forall p: int :: p in world.ownForwards <==> p >= 0 && p in OwnFiles(files, me)
      ensures IsTrue(world.published, docker, editorPort, past, |old(past)| - 1)
    {
      ghost var since := |past| - 1;
      var served := Read(me);
      ghost var first := past;
      var entries := Read(me);
      TruthStays(Published(docker, served, editorPort), docker, editorPort, first, past, since);
      var forwards := set p: int | p in entries && entries[p] == me;
      world := P.PortWorld(base, Published(docker, served, editorPort), relays, forwards, previous);
    }

    /** A whole map, or none of it but what was held; and then a port another has. */
    method Take(m: P.PortMap, own: set<nat>, dind: string, me: Owner) returns (ok: bool, ghost loser: nat)
      requires Valid() && own == OwnFiles(files, me).Keys
      requires P.Injective(m) && forall l :: l in m ==> 1024 <= m[l] <= 65535
      modifies this
      ensures Valid() && old(past) <= past
      ensures ok ==> Holds(m, dind, me, files)
      ensures ok ==> OwnFiles(files, me).Keys == own + PortsOf(m, m.Keys)
      ensures !ok ==> OwnFiles(files, me).Keys == own && WasAnothers(past, |old(past)| - 1, loser, me)
    {
      ghost var since := |past| - 1;
      var ports := Values(m);
      var claimed;
      claimed, loser := ClaimAll(ports, dind, me);
      if |claimed| == |m| {
        forall l | l in m ensures m[l] in files && files[m[l] as nat] == File(dind, me) {
          assert m[l] in PortsOf(m, m.Keys) && m[l] in SetOf(ports);
        }
        return true, loser;
      }
      GiveBack(claimed, own, me);
      ok := false;
    }

    /** One attempt of a start: it holds its whole map, or what it held. */
    method Attempt(base: int, docker: map<int, string>, editorPort: int, relays: set<int>, previous: P.PortMap,
                   appPorts: seq<int>, dind: string, me: Owner)
      returns (a: Attempted, world: P.PortWorld, ghost chosen: seq<int>, ghost loser: nat)
      requires Valid() && 1024 <= base <= 65535
      modifies this
      ensures Valid() && old(past) <= past
      ensures IsTrue(world.published, docker, editorPort, past, |old(past)| - 1)
      ensures world.base == base && world.previous == previous && world.ownRelayPorts == relays
      ensures forall p: int :: p in world.ownForwards <==> p >= 0 && p in old(OwnFiles(files, me))
      ensures a.Got? ==> IsAllocated(a.map_, world, appPorts, chosen) && Holds(a.map_, dind, me, files)
      ensures a.Got? ==>
                OwnFiles(files, me).Keys == old(OwnFiles(files, me)).Keys + PortsOf(a.map_, a.map_.Keys)
      ensures !a.Got? ==> OwnFiles(files, me).Keys == old(OwnFiles(files, me)).Keys
      ensures a.Full? ==> |P.FreePorts(world)| < 1 + |appPorts|
      ensures a.Contested? ==> WasAnothers(past, |old(past)| - 1, loser, me)
    {
      ghost var since := |past| - 1;
      loser := 0;
      world := World(base, docker, editorPort, relays, previous, me);
      ghost var seen := past;
      var own := set p: nat | p in world.ownForwards;
      assert own == OwnFiles(files, me).Keys;
      var m;
      m, chosen := P.AllocatePorts(world, appPorts);
      if m.None? { return Full, world, chosen, loser; }
      P.AllocatedPortsAreOwn(world, P.Labels(appPorts), chosen);
      var ok;
      ok, loser := Take(m.value, own, dind, me);
      TruthStays(world.published, docker, editorPort, seen, past, since);
      a := if ok then Got(m.value) else Contested;
    }

    /**
     * Ports for a start: allocated, and claimed before anyone hears of them.
     * A start that returns holds its whole map besides what it held; one that
     * does not -- no port is free, or others took them five times running --
     * holds what it held, no more and no less. `world` is what it saw last;
     * `lost`, a port taken by another in each attempt that failed.
     */
    method Allocate(base: int, docker: map<int, string>, editorPort: int, relays: set<int>, previous: P.PortMap,
                    appPorts: seq<int>, dind: string, me: Owner)
      returns (r: Option<P.PortMap>, world: P.PortWorld, ghost chosen: seq<int>, ghost lost: seq<nat>)
      requires Valid() && 1024 <= base <= 65535
      modifies this
      ensures Valid() && old(past) <= past
      ensures IsTrue(world.published, docker, editorPort, past, |old(past)| - 1)
      ensures world.base == base && world.previous == previous && world.ownRelayPorts == relays
      ensures forall p: int :: p in world.ownForwards <==> p >= 0 && p in old(OwnFiles(files, me))
      ensures r.Some? ==> IsAllocated(r.value, world, appPorts, chosen) && Holds(r.value, dind, me, files)
      ensures r.Some? ==>
                OwnFiles(files, me).Keys == old(OwnFiles(files, me)).Keys + PortsOf(r.value, r.value.Keys)
      ensures r.None? ==> OwnFiles(files, me).Keys == old(OwnFiles(files, me)).Keys
      ensures r.None? ==> |lost| == 5 || |P.FreePorts(world)| < 1 + |appPorts|
      ensures forall p :: p in lost ==> WasAnothers(past, |old(past)| - 1, p, me)
    {
      ghost var since := |past| - 1;
      lost, chosen := [], [];
      world := P.PortWorld(base, map[], relays, {}, previous);
      for attempt := 0 to CLAIM_ATTEMPTS
        invariant Valid() && old(past) <= past && |lost| == attempt
        invariant OwnFiles(files, me).Keys == old(OwnFiles(files, me)).Keys
        invariant attempt > 0 ==> IsTrue(world.published, docker, editorPort, past, since)
        invariant attempt > 0 ==> world.base == base && world.previous == previous && world.ownRelayPorts == relays
        invariant attempt > 0 ==> forall p: int :: p in world.ownForwards <==> p >= 0 && p in old(OwnFiles(files, me))
        invariant forall p :: p in lost ==> WasAnothers(past, since, p, me)
      {
        var a;
        ghost var loser;
        a, world, chosen, loser := Attempt(base, docker, editorPort, relays, previous, appPorts, dind, me);
        match a {
          case Got(m) => return Some(m), world, chosen, lost;
          case Full => return None, world, chosen, lost;
          case Contested => lost := lost + [loser];
        }
      }
      r := None;
    }
  }

  datatype Attempted = Got(map_: P.PortMap) | Full | Contested

  /** The map is the target's: a port of the range for each label, no two alike, each
   *  with a file that names it. */
  ghost predicate Holds(m: P.PortMap, dind: string, me: Owner, files: Files) {
    && (forall l :: l in m ==> 1024 <= m[l] <= 65535)
    && (forall k, l :: k in m && l in m && k != l ==> m[k] != m[l])
    && (forall l :: l in m ==> m[l] in files && files[m[l] as nat] == File(dind, me))
  }

  /** Each label has the port that was due it in that world, when its turn came. */
  ghost predicate IsAllocated(m: P.PortMap, world: P.PortWorld, appPorts: seq<int>, chosen: seq<int>) {
    && |chosen| == |P.Labels(appPorts)| && P.Allocation(world, P.Labels(appPorts), chosen)
    && m == P.Final(P.Labels(appPorts), chosen)
  }

  /** What is taken to be published is: by docker, by the editor, and by every file that
   *  stayed; and nothing else that no file ever named. */
  ghost predicate IsTrue(published: map<int, string>, docker: map<int, string>, editorPort: int, past: seq<Files>,
                         since: int) {
    && editorPort in published && docker.Keys <= published.Keys
    && (forall p: nat :: Stayed(past, since, p) ==> p in published)
    && (forall p :: p in published && p !in docker && p != editorPort ==> p >= 0 && Named(past, since, p, published[p]))
  }

  function Published(docker: map<int, string>, served: map<nat, Owner>, editorPort: int): map<int, string> {
    (docker + (map p: int | p in served :: served[p]))[editorPort := "the editor (VSCODE_PORT)"]
  }

  lemma TruthStays(published: map<int, string>, docker: map<int, string>, editorPort: int, before: seq<Files>,
                   after: seq<Files>, since: int)
    requires before <= after && IsTrue(published, docker, editorPort, before, since)
    ensures IsTrue(published, docker, editorPort, after, since)
  {
    assert forall i :: 0 <= i < |before| ==> after[i] == before[i];
    forall p: nat | Stayed(after, since, p) ensures Stayed(before, since, p) {}
    forall p | p in published && p !in docker && p != editorPort ensures Named(after, since, p, published[p]) {
      var i :| 0 <= since <= i < |before| && p in before[i] && before[i][p].owner == published[p];
      assert p in after[i];
    }
  }

  /** The ports of a map, in some order. */
  method Values(m: P.PortMap) returns (ports: seq<nat>)
    requires P.Injective(m) && forall l :: l in m ==> 0 <= m[l]
    ensures |ports| == |m| && SetOf(ports) == PortsOf(m, m.Keys)
  {
    ports := [];
    var left := m.Keys;
    while left != {}
      invariant left <= m.Keys && |ports| == |m| - |left| && SetOf(ports) == PortsOf(m, m.Keys - left)
    {
      var l :| l in left;
      PortsOneMore(m, left, l);
      SetOfOneMore(ports, m[l]);
      left, ports := left - {l}, ports + [m[l]];
    }
    assert m.Keys - left == m.Keys;
  }

  /** The ports of some of a map's labels. */
  function PortsOf(m: P.PortMap, labels: set<P.Label>): set<nat> {
    set l | l in labels && l in m && m[l] >= 0 :: m[l] as nat
  }

  lemma SetOfOneMore(s: seq<nat>, p: nat)
    ensures SetOf(s + [p]) == SetOf(s) + {p}
  {
  }

  lemma PortsOneMore(m: P.PortMap, left: set<P.Label>, l: P.Label)
    requires l in left && left <= m.Keys && P.Injective(m) && m[l] >= 0
    ensures PortsOf(m, m.Keys - (left - {l})) == PortsOf(m, m.Keys - left) + {m[l]}
    ensures m[l] !in PortsOf(m, m.Keys - left)
    ensures |left| == |left - {l}| + 1
  {
    assert m.Keys - (left - {l}) == (m.Keys - left) + {l};
  }
}
