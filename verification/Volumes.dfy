/**
 * Which target owns a volume: the one with the longest claim to its name. And
 * which mounts a target may therefore have.
 */
module Volumes {
  import opened Names
  import opened Wrappers
  import Projects

  const CA_BIND_SOURCE := "/desolate"
  const SOCKET_PATH := "/run/dind-sock/docker.sock"
  const SOCKET_ALIAS := "/var/run/docker.sock"
  const DIRECT_SOCKET := "/var/run/docker-host.sock"

  datatype Claimant = Claimant(target: Target, namespace: string)

  datatype Mount = Mount(kind: string, source: string, target: string)

  /** The namespace itself, or it and a dash and whatever follows. */
  predicate RequiresOwnership(namespace: string, source: string) {
    source == namespace || namespace + "-" <= source
  }

  function Claiming(targets: seq<Claimant>, source: string): (r: seq<Claimant>)
    ensures forall c :: c in r <==> c in targets && RequiresOwnership(c.namespace, source)
  {
    if targets == [] then []
    else (if RequiresOwnership(targets[0].namespace, source) then [targets[0]] else []) + Claiming(targets[1..], source)
  }

  /** Where a claimant stands once those with longer namespaces go first, and
   *  those as long keep their order. */
  function Insert(c: Claimant, sorted: seq<Claimant>): (r: seq<Claimant>)
    ensures multiset(r) == multiset{c} + multiset(sorted)
  {
    if sorted == [] || |c.namespace| >= |sorted[0].namespace| then [c] + sorted
    else
      assert sorted == [sorted[0]] + sorted[1..];
      [sorted[0]] + Insert(c, sorted[1..])
  }

  function LongestFirst(claimants: seq<Claimant>): (r: seq<Claimant>)
    ensures multiset(r) == multiset(claimants)
  {
    if claimants == [] then []
    else
      assert claimants == [claimants[0]] + claimants[1..];
      Insert(claimants[0], LongestFirst(claimants[1..]))
  }

  function Owner(targets: seq<Claimant>, source: string): Option<Claimant> {
    var claims := LongestFirst(Claiming(targets, source));
    if claims == [] then None else Some(claims[0])
  }

  datatype Verdict = Allowed | NotAVolume | Foreign | BelongsTo(owner: Claimant)

  /** The one bind of a project's own daemon's socket, every field by equality. */
  predicate IsProjectDaemonSocket(mount: Mount) {
    && mount.kind == "bind" && (mount.source == SOCKET_PATH || mount.source == SOCKET_ALIAS)
    && mount.target == DIRECT_SOCKET
  }

  function EnsureWithinNamespace(who: Claimant, targets: seq<Claimant>, mount: Mount, fromFeature: bool,
                                 onOwnDaemon: bool): Verdict
  {
    if mount.kind == "bind" && mount.source == CA_BIND_SOURCE then Allowed
    else if fromFeature && onOwnDaemon && IsProjectDaemonSocket(mount) then Allowed
    else if mount.kind != "volume" then NotAVolume
    else if RequiresOwnership(who.namespace, mount.source) then
      match Owner(targets, mount.source)
      case None => Allowed
      case Some(owner) => if owner.namespace == who.namespace then Allowed else BelongsTo(owner)
    else Foreign
  }

  predicate Accepts(who: Claimant, targets: seq<Claimant>, source: string) {
    EnsureWithinNamespace(who, targets, Mount("volume", source, ""), false, false).Allowed?
  }

  // ------------------------------------------------------------------ proofs --

  lemma {:induction false} InsertLeads(c: Claimant, sorted: seq<Claimant>)
    requires forall i :: 0 < i < |sorted| ==> |sorted[i].namespace| <= |sorted[0].namespace|
    ensures |Insert(c, sorted)| > 0
    ensures forall d :: d in Insert(c, sorted) ==> |d.namespace| <= |Insert(c, sorted)[0].namespace|
  {
    assert forall d :: d in multiset(Insert(c, sorted)) ==> d == c || d in sorted;
    forall d | d in Insert(c, sorted) ensures |d.namespace| <= |Insert(c, sorted)[0].namespace| {
      assert d in multiset(Insert(c, sorted));
    }
  }

  lemma {:induction false} LongestLeads(claimants: seq<Claimant>)
    requires claimants != []
    ensures LongestFirst(claimants) != []
    ensures forall d :: d in claimants ==> |d.namespace| <= |LongestFirst(claimants)[0].namespace|
    ensures LongestFirst(claimants)[0] in claimants
  {
    var rest := LongestFirst(claimants[1..]);
    if claimants[1..] != [] {
      LongestLeads(claimants[1..]);
      assert forall d :: d in multiset(rest) ==> d in multiset(claimants[1..]);
      assert forall i :: 0 <= i < |rest| ==> rest[i] in multiset(rest);
    } else {
      assert |multiset(rest)| == 0;
    }
    InsertLeads(claimants[0], rest);
    var all := LongestFirst(claimants);
    forall d | d in claimants ensures d in all {
      assert d in multiset(claimants);
    }
    assert all[0] in multiset(all);
  }

  /** The owner is a claimant, and no claimant's namespace is longer; there is
   *  one whenever anyone claims the volume. */
  lemma OwnerIsLongestClaimant(targets: seq<Claimant>, source: string)
    ensures Owner(targets, source).Some? <==> exists c :: c in targets && RequiresOwnership(c.namespace, source)
    ensures Owner(targets, source).Some? ==>
              var owner := Owner(targets, source).value;
              && owner in targets && RequiresOwnership(owner.namespace, source)
              && forall c :: c in targets && RequiresOwnership(c.namespace, source) ==>
                   |c.namespace| <= |owner.namespace|
  {
    var claims := Claiming(targets, source);
    if claims != [] {
      LongestLeads(claims);
      assert claims[0] in targets;
    } else {
      assert |multiset(LongestFirst(claims))| == 0;
    }
  }

  /** Two claims as long to one volume are one claim. */
  lemma ClaimsAsLongAreOne(a: string, b: string, source: string)
    requires RequiresOwnership(a, source) && RequiresOwnership(b, source) && |a| == |b|
    ensures a == b
  {
    assert a == source[..|a|] && b == source[..|b|];
  }

  /** Whatever order the targets are listed in, a volume has one owner. */
  lemma OwnerIgnoresOrder(targets: seq<Claimant>, shuffled: seq<Claimant>, source: string)
    requires multiset(targets) == multiset(shuffled)
    ensures Owner(targets, source).Some? == Owner(shuffled, source).Some?
    ensures Owner(targets, source).Some? ==>
              Owner(targets, source).value.namespace == Owner(shuffled, source).value.namespace
  {
    OwnerIsLongestClaimant(targets, source);
    OwnerIsLongestClaimant(shuffled, source);
    assert forall c :: c in targets <==> c in multiset(targets);
    assert forall c :: c in shuffled <==> c in multiset(shuffled);
    if Owner(targets, source).Some? {
      ClaimsAsLongAreOne(Owner(targets, source).value.namespace, Owner(shuffled, source).value.namespace, source);
    }
  }

  ghost predicate Unclaimed(targets: seq<Claimant>, source: string) {
    forall c :: c in targets ==> !RequiresOwnership(c.namespace, source)
  }

  ghost predicate IsListedAs(targets: seq<Claimant>, namespace: string) {
    exists c :: c in targets && c.namespace == namespace
  }

  /** A volume is accepted for whoever claims it, listed or not, when no listed
   *  target claims it at all, or none has a longer claim and one has this one. */
  lemma AcceptedExactly(who: Claimant, targets: seq<Claimant>, source: string)
    ensures Accepts(who, targets, source) <==>
              && RequiresOwnership(who.namespace, source)
              && (Unclaimed(targets, source) || LongestIs(targets, who.namespace, source))
  {
    OwnerIsLongestClaimant(targets, source);
    if RequiresOwnership(who.namespace, source) && Owner(targets, source).Some? {
      var owner := Owner(targets, source).value;
      if |owner.namespace| == |who.namespace| { ClaimsAsLongAreOne(owner.namespace, who.namespace, source); }
    }
  }

  ghost predicate LongestIs(targets: seq<Claimant>, namespace: string, source: string) {
    && IsListedAs(targets, namespace)
    && forall c :: c in targets && RequiresOwnership(c.namespace, source) ==> |c.namespace| <= |namespace|
  }

  /** What a bind must be to be let through: the certificate's, for anyone; or the
   *  daemon's socket, for a feature of a project on a daemon of its own. */
  ghost predicate IsOpenBind(mount: Mount, fromFeature: bool, onOwnDaemon: bool) {
    && mount.kind == "bind"
    && (mount.source == "/desolate"
        || (fromFeature && onOwnDaemon && mount.target == "/var/run/docker-host.sock"
            && (mount.source == "/var/run/docker.sock" || mount.source == "/run/dind-sock/docker.sock")))
  }

  /** The namespace itself, or the namespace and a dash and more or nothing. */
  ghost predicate Begins(namespace: string, source: string) {
    && |namespace| <= |source| && source[..|namespace|] == namespace
    && (|namespace| < |source| ==> source[|namespace|] == '-')
  }

  /**
   * Every mount: let through are the open binds, and a volume that begins with the
   * claimant's namespace where no listed target's longer one begins it too, and the
   * claimant's own is listed or nobody's does. Each other is refused for what it is.
   */
  lemma AllowedExactly(who: Claimant, targets: seq<Claimant>, mount: Mount, fromFeature: bool, onOwnDaemon: bool)
    ensures var verdict := EnsureWithinNamespace(who, targets, mount, fromFeature, onOwnDaemon);
      && (verdict.Allowed? <==>
          || IsOpenBind(mount, fromFeature, onOwnDaemon)
          || (mount.kind == "volume" && Begins(who.namespace, mount.source)
              && (forall c :: c in targets && Begins(c.namespace, mount.source) ==> |c.namespace| <= |who.namespace|)
              && ((exists c :: c in targets && c.namespace == who.namespace)
                  || forall c :: c in targets ==> !Begins(c.namespace, mount.source))))
      && (verdict.NotAVolume? <==> mount.kind != "volume" && !IsOpenBind(mount, fromFeature, onOwnDaemon))
      && (verdict.Foreign? <==> mount.kind == "volume" && !Begins(who.namespace, mount.source))
      && (verdict.BelongsTo? ==>
            && verdict.owner in targets && verdict.owner.namespace != who.namespace
            && Begins(verdict.owner.namespace, mount.source)
            && forall c :: c in targets && Begins(c.namespace, mount.source) ==>
                 |c.namespace| <= |verdict.owner.namespace|)
  {
    OwnerIsLongestClaimant(targets, mount.source);
    BeginsIsClaimed(who.namespace, mount.source);
    forall c: Claimant ensures RequiresOwnership(c.namespace, mount.source) == Begins(c.namespace, mount.source) {
      BeginsIsClaimed(c.namespace, mount.source);
    }
    AcceptedExactly(who, targets, mount.source);
  }

  lemma BeginsIsClaimed(namespace: string, source: string)
    ensures RequiresOwnership(namespace, source) <==> Begins(namespace, source)
  {
    if Begins(namespace, source) && |namespace| < |source| {
      assert namespace + "-" == source[..|namespace| + 1];
    }
  }

  /** One more target listed takes from another exactly the volumes it claims that
   *  were nobody's, or that it has the longer claim to; and gives it none. */
  lemma NewcomerTakesItsOwn(who: Claimant, targets: seq<Claimant>, newcomer: Claimant, source: string)
    requires newcomer.namespace != who.namespace
    ensures Accepts(who, targets + [newcomer], source) <==>
              && Accepts(who, targets, source)
              && !(RequiresOwnership(newcomer.namespace, source)
                   && (Unclaimed(targets, source) || |who.namespace| < |newcomer.namespace|))
  {
    AcceptedExactly(who, targets, source);
    AcceptedExactly(who, targets + [newcomer], source);
    assert forall c :: c in targets + [newcomer] <==> c in targets || c == newcomer;
    if RequiresOwnership(who.namespace, source) && IsListedAs(targets, who.namespace) {
      assert !Unclaimed(targets, source);
    }
  }

  // --------------------------------------------------------- who shares one --

  ghost predicate Share(t: Claimant, u: Claimant, targets: seq<Claimant>) {
    exists source :: Accepts(t, targets, source) && Accepts(u, targets, source)
  }

  /** Who claims a name claims every longer one made of it with a dash. */
  lemma ClaimsGrow(a: string, b: string, source: string)
    requires RequiresOwnership(a, b) && RequiresOwnership(b, source)
    ensures RequiresOwnership(a, source)
  {
    if a != b {
      assert a + "-" == b[..|a| + 1];
      assert b == source[..|b|];
      assert source[..|b|][..|a| + 1] == source[..|a| + 1];
    }
  }

  /** Of two claims to one volume, the longer is a claim within the shorter. */
  lemma ClaimsNest(a: string, b: string, source: string)
    requires RequiresOwnership(a, source) && RequiresOwnership(b, source) && |a| <= |b|
    ensures RequiresOwnership(a, b)
  {
    assert b == source[..|b|];
    if |a| < |b| {
      assert a + "-" == source[..|a| + 1];
      assert source[..|b|][..|a| + 1] == source[..|a| + 1];
    } else {
      ClaimsAsLongAreOne(a, b, source);
    }
  }

  /** Two claimants may both mount some volume exactly when they have one name, and
   *  it is listed or nobody listed contests it; or the name of one is claimed by the
   *  other, and by nobody listed. */
  lemma ShareExactly(t: Claimant, u: Claimant, targets: seq<Claimant>)
    ensures Share(t, u, targets) <==>
              || (t.namespace == u.namespace && IsListedAs(targets, t.namespace))
              || (RequiresOwnership(t.namespace, u.namespace) && Unclaimed(targets, u.namespace))
              || (RequiresOwnership(u.namespace, t.namespace) && Unclaimed(targets, t.namespace))
  {
    if Share(t, u, targets) {
      var source :| Accepts(t, targets, source) && Accepts(u, targets, source);
      AcceptedExactly(t, targets, source);
      AcceptedExactly(u, targets, source);
      if |t.namespace| <= |u.namespace| {
        SharedIsNested(t, u, targets, source);
      } else {
        SharedIsNested(u, t, targets, source);
      }
    }
    if t.namespace == u.namespace && IsListedAs(targets, t.namespace) {
      OwnNameIsShared(t, u, targets);
    } else if RequiresOwnership(t.namespace, u.namespace) && Unclaimed(targets, u.namespace) {
      OwnNameIsShared(t, u, targets);
    } else if RequiresOwnership(u.namespace, t.namespace) && Unclaimed(targets, t.namespace) {
      OwnNameIsShared(u, t, targets);
    }
  }

  lemma SharedIsNested(t: Claimant, u: Claimant, targets: seq<Claimant>, source: string)
    requires |t.namespace| <= |u.namespace|
    requires Accepts(t, targets, source) && Accepts(u, targets, source)
    ensures RequiresOwnership(t.namespace, u.namespace)
    ensures Unclaimed(targets, u.namespace) || (t.namespace == u.namespace && IsListedAs(targets, t.namespace))
  {
    AcceptedExactly(t, targets, source);
    AcceptedExactly(u, targets, source);
    ClaimsNest(t.namespace, u.namespace, source);
    if Unclaimed(targets, source) {
      forall c | c in targets ensures !RequiresOwnership(c.namespace, u.namespace) {
        if RequiresOwnership(c.namespace, u.namespace) { ClaimsGrow(c.namespace, u.namespace, source); }
      }
    } else {
      ClaimsAsLongAreOne(t.namespace, u.namespace, source);
    }
  }

  /** The volume of the longer name is the one to share, if there is any. */
  lemma OwnNameIsShared(t: Claimant, u: Claimant, targets: seq<Claimant>)
    requires RequiresOwnership(t.namespace, u.namespace)
    requires Unclaimed(targets, u.namespace) || (t.namespace == u.namespace && IsListedAs(targets, t.namespace))
    ensures Share(t, u, targets)
  {
    AcceptedExactly(t, targets, u.namespace);
    AcceptedExactly(u, targets, u.namespace);
    assert Accepts(t, targets, u.namespace) && Accepts(u, targets, u.namespace);
  }

  // ------------------------------------------------------- in a workspace --

  function ClaimantOf(t: Target): Claimant {
    Claimant(t, Encoded(t.Name()))
  }

  function Claimants(targets: seq<Target>): (r: seq<Claimant>)
    ensures |r| == |targets| && forall i :: 0 <= i < |r| ==> r[i] == ClaimantOf(targets[i])
  {
    seq(|targets|, i requires 0 <= i < |targets| => ClaimantOf(targets[i]))
  }

  /** Of two valid targets one of which is listed: no volume is both's but for the
   *  one pair the encoding confuses. */
  lemma NoVolumeIsShared(t: Target, u: Target, targets: seq<Claimant>)
    requires t.Valid() && u.Valid()
    requires ClaimantOf(t) in targets || ClaimantOf(u) in targets
    ensures Share(ClaimantOf(t), ClaimantOf(u), targets) <==> t == u || Collide(t, u)
  {
    NamespacesCollideExactly(t, u);
    ShareExactly(ClaimantOf(t), ClaimantOf(u), targets);
  }

  /** A worktree's volumes are its project's too exactly when no listed target
   *  claims the worktree's name: neither of them, then, is listed. */
  lemma ProjectSharesWithItsWorktreeExactly(p: string, w: string, targets: seq<Claimant>)
    requires ValidName(p) && ValidWorktree(w)
    ensures var project, worktree := ClaimantOf(Target(p, None)), ClaimantOf(Target(p, Some(w)));
      && (Share(project, worktree, targets) <==> Unclaimed(targets, worktree.namespace))
      && (Unclaimed(targets, worktree.namespace) ==> project !in targets && worktree !in targets)
  {
    var project, worktree := ClaimantOf(Target(p, None)), ClaimantOf(Target(p, Some(w)));
    WorktreeNamespace(p, w);
    assert worktree.namespace == project.namespace + SEPARATOR + w;
    assert project.namespace + "-" == worktree.namespace[..|project.namespace| + 1];
    ShareExactly(project, worktree, targets);
  }

  ghost predicate IsTheList(workspaces: Projects.Directory, list: seq<Target>) {
    forall t :: t in list <==> Projects.IsListed(workspaces, t)
  }

  /** Of what may be started in a workspace, only targets inside a directory with a
   *  spec of its own may share a volume, besides the pair the encoding confuses. */
  lemma OnlyHiddenTargetsShare(workspaces: Projects.Directory, list: seq<Target>, t: Target, u: Target)
    requires Projects.IsReal(workspaces) && IsTheList(workspaces, list)
    requires Projects.IsStartable(workspaces, t) && Projects.IsStartable(workspaces, u)
    ensures !(Projects.IsHidden(workspaces, t) && Projects.IsHidden(workspaces, u)) ==>
              (Share(ClaimantOf(t), ClaimantOf(u), Claimants(list)) <==> t == u || Collide(t, u))
    ensures Projects.IsHidden(workspaces, t) && Projects.IsHidden(workspaces, u) ==>
              (Share(ClaimantOf(t), ClaimantOf(u), Claimants(list)) <==>
                || Within(t, u, list) || Within(u, t, list)
                || ((t == u || Collide(t, u)) && IsListedAs(Claimants(list), ClaimantOf(t).namespace)))
  {
    var targets := Claimants(list);
    Projects.UnlistedExactly(workspaces, t);
    Projects.UnlistedExactly(workspaces, u);
    NamespacesCollideExactly(t, u);
    ListedClaims(list, t);
    ListedClaims(list, u);
    if t in list || u in list {
      NoVolumeIsShared(t, u, targets);
    } else {
      ShareExactly(ClaimantOf(t), ClaimantOf(u), targets);
    }
  }

  /** One name is claimed by the other, and by nothing listed. */
  ghost predicate Within(t: Target, u: Target, list: seq<Target>) {
    && RequiresOwnership(ClaimantOf(t).namespace, ClaimantOf(u).namespace)
    && Unclaimed(Claimants(list), ClaimantOf(u).namespace)
  }

  lemma ListedClaims(list: seq<Target>, t: Target)
    ensures t in list ==> ClaimantOf(t) in Claimants(list)
  {
    if i :| 0 <= i < |list| && list[i] == t { assert Claimants(list)[i] == ClaimantOf(t); }
  }

  // ------------------------------------------------------- the hidden pair --

  /** A project `a` with a spec, and in it `b`, and a worktree `w` of that. */
  function NestedInAProject(): Projects.Directory {
    var w := Projects.Entry("w", Projects.Directory([], true));
    var trees := Projects.Entry(Projects.WORKTREES_DIRECTORY, Projects.Directory([w], false));
    var b := Projects.Entry("b", Projects.Directory([trees], true));
    Projects.Directory([Projects.Entry("a", Projects.Directory([b], true))], false)
  }

  lemma OnlyTheOuterIsListed(list: seq<Target>)
    requires IsTheList(NestedInAProject(), list)
    ensures forall t :: t in list ==> t == Target("a", None)
  {
    var top := NestedInAProject().entries[0];
    forall t | t in list ensures t == Target("a", None) {
      assert Projects.Offers(top, t);
    }
  }

  lemma HiddenNamesAreValid()
    ensures ValidName("a/b") && ValidWorktree("w") && "a/b"[1] == '/'
    ensures Segment("a/b"[..1]) && Segment("a/b"[2..])
  {
    NoUnderscore("a/b");
    NoUnderscore("w");
    assert "a/b"[..1] == "a" && "a/b"[2..] == "b";
  }

  lemma HiddenPairIsStartable()
    ensures Projects.IsStartable(NestedInAProject(), Target("a/b", None))
    ensures Projects.IsStartable(NestedInAProject(), Target("a/b", Some("w")))
  {
    var top := NestedInAProject().entries[0];
    var b := top.dir.entries[0];
    var trees := b.dir.entries[0];
    HiddenNamesAreValid();
    NoUnderscore("b");
    assert "a" + "/" + "b" == "a/b";
    assert trees.dir.entries[0].name == "w" && trees.dir.entries[0] in trees.dir.entries;
    assert "."[0] == '.';
    assert Projects.HasWorktree(b.dir, "w");
    assert Projects.IsUnder(top, b, Target("a/b", None)) && Projects.IsUnder(top, b, Target("a/b", Some("w")));
  }

  lemma NestedNamesItsOwner(p: string, k: nat, w: string)
    requires ValidName(p) && ValidWorktree(w) && k < |p| && p[k] == '/' && Segment(p[..k]) && Segment(p[k + 1..])
    ensures var namespace := ClaimantOf(Target(p, Some(w))).namespace; k < |namespace| && namespace[k] == '_'
  {
    WorktreeNamespace(p, w);
    EncodedProject(p, k);
    var owner, rest := p[..k], p[k + 1..];
    assert (owner + SLASH)[k] == SLASH[0] == '_';
    assert (owner + SLASH + rest + SEPARATOR + w)[k] == (owner + SLASH)[k];
  }

  lemma OuterClaimsNothingOfIt(namespace: string)
    requires 1 < |namespace| && namespace[1] == '_'
    ensures !RequiresOwnership(ClaimantOf(Target("a", None)).namespace, namespace)
  {
    PlainIsEncoded("a");
    assert ("a" + "-")[1] == '-';
  }

  lemma HiddenIsNamed()
    ensures ValidName("a/b") && ValidWorktree("w")
    ensures var namespace := ClaimantOf(Target("a/b", Some("w"))).namespace; 1 < |namespace| && namespace[1] == '_'
  {
    HiddenNamesAreValid();
    NestedNamesItsOwner("a/b", 1, "w");
  }

  /** Both may be started, neither is listed, and what is the worktree's is the
   *  project's too. */
  lemma HiddenWorktreeShares(list: seq<Target>)
    requires IsTheList(NestedInAProject(), list)
    ensures Projects.IsStartable(NestedInAProject(), Target("a/b", None))
    ensures Projects.IsStartable(NestedInAProject(), Target("a/b", Some("w")))
    ensures Share(ClaimantOf(Target("a/b", None)), ClaimantOf(Target("a/b", Some("w"))), Claimants(list))
  {
    HiddenPairIsStartable();
    HiddenPairShares(list);
  }

  lemma HiddenPairShares(list: seq<Target>)
    requires IsTheList(NestedInAProject(), list)
    ensures Share(ClaimantOf(Target("a/b", None)), ClaimantOf(Target("a/b", Some("w"))), Claimants(list))
  {
    var namespace := ClaimantOf(Target("a/b", Some("w"))).namespace;
    OnlyTheOuterIsListed(list);
    HiddenIsNamed();
    forall i | 0 <= i < |Claimants(list)| ensures !RequiresOwnership(Claimants(list)[i].namespace, namespace) {
      assert list[i] in list;
      OuterClaimsNothingOfIt(namespace);
    }
    ProjectSharesWithItsWorktreeExactly("a/b", "w", Claimants(list));
  }
}
