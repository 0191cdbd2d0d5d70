/** Which targets there are: what is listed to contest a volume's name, and what may be started. */
module Projects {
  import opened Names
  import opened Text
  import opened Wrappers

  const WORKTREES_DIRECTORY := ".worktrees"

  /** A directory's own directories, as it is read; `configured`: it holds a devcontainer spec. */
  datatype Directory = Directory(entries: seq<Entry>, configured: bool)
  datatype Entry = Entry(name: string, dir: Directory)

  /** A name stands once in a directory, and no separator stands in a name. */
  ghost predicate IsReal(d: Directory) {
    && (forall e :: e in d.entries ==> '/' !in e.name && IsReal(e.dir))
    && (forall e, f :: e in d.entries && f in d.entries && e.name == f.name ==> e == f)
  }

  /** What is listed of a directory: nothing hidden, and nothing that cannot be encoded. */
  predicate IsVisible(name: string) {
    !StartsWith(name, ".") && Namespaceable(name)
  }

  ghost predicate HasWorktree(d: Directory, w: string) {
    && IsVisible(w)
    && exists all, tree ::
         all in d.entries && all.name == WORKTREES_DIRECTORY && tree in all.dir.entries && tree.name == w
  }

  /** The project in `d`, or a worktree of it. */
  ghost predicate IsOf(project: string, d: Directory, t: Target) {
    t.project == project && (t.worktree.Some? ==> HasWorktree(d, t.worktree.value))
  }

  ghost predicate IsUnder(top: Entry, sub: Entry, t: Target) {
    sub in top.dir.entries && IsVisible(sub.name) && IsOf(top.name + "/" + sub.name, sub.dir, t)
  }

  /** Of a top-level directory, or of one in it when it is no project itself. */
  ghost predicate Offers(top: Entry, t: Target) {
    && IsVisible(top.name)
    && (IsOf(top.name, top.dir, t) || (!top.dir.configured && exists sub :: IsUnder(top, sub, t)))
  }

  ghost predicate IsListed(workspaces: Directory, t: Target) {
    exists top :: top in workspaces.entries && Offers(top, t)
  }

  /** What a project's name and `--worktree` may denote: validly named, and there. */
  ghost predicate IsStartable(workspaces: Directory, t: Target) {
    && t.Valid()
    && exists top :: top in workspaces.entries && (IsOf(top.name, top.dir, t) || exists sub :: IsUnder(top, sub, t))
  }

  /** Inside a directory that is a project itself. */
  ghost predicate IsHidden(workspaces: Directory, t: Target) {
    exists top :: top in workspaces.entries && top.dir.configured && exists sub :: IsUnder(top, sub, t)
  }

  // ------------------------------------------------------------- the listing --

  method Worktrees(project: string, d: Directory) returns (targets: seq<Target>)
    requires IsReal(d)
    ensures forall t :: t in targets <==> IsOf(project, d, t) && t.worktree.Some?
  {
    targets := [];
    for i := 0 to |d.entries|
      invariant forall e :: e in d.entries[..i] ==> e.name != WORKTREES_DIRECTORY
      invariant targets == []
    {
      assert d.entries[..i + 1] == d.entries[..i] + [d.entries[i]];
      if d.entries[i].name == WORKTREES_DIRECTORY {
        targets := Trees(project, d.entries[i].dir);
        return;
      }
    }
    assert d.entries[..|d.entries|] == d.entries;
  }

  method Trees(project: string, all: Directory) returns (targets: seq<Target>)
    ensures forall t :: t in targets <==>
              t.project == project && t.worktree.Some? && IsVisible(t.worktree.value)
              && exists tree :: tree in all.entries && tree.name == t.worktree.value
  {
    targets := [];
    for i := 0 to |all.entries|
      invariant forall t :: t in targets <==>
                  t.project == project && t.worktree.Some? && IsVisible(t.worktree.value)
                  && exists tree :: tree in all.entries[..i] && tree.name == t.worktree.value
    {
      var entry := all.entries[i];
      assert all.entries[..i + 1] == all.entries[..i] + [entry];
      if IsVisible(entry.name) { targets := targets + [Target(project, Some(entry.name))]; }
    }
    assert all.entries[..|all.entries|] == all.entries;
  }

  method WithWorktrees(project: string, d: Directory) returns (targets: seq<Target>)
    requires IsReal(d)
    ensures forall t :: t in targets <==> IsOf(project, d, t)
  {
    targets := Worktrees(project, d);
    targets := [Target(project, None)] + targets;
  }

  method Subprojects(top: Entry) returns (targets: seq<Target>)
    requires IsReal(top.dir)
    ensures forall t :: t in targets <==> exists sub :: IsUnder(top, sub, t)
  {
    targets := [];
    for i := 0 to |top.dir.entries|
      invariant forall t :: t in targets <==> exists sub :: sub in top.dir.entries[..i] && IsUnder(top, sub, t)
    {
      var sub := top.dir.entries[i];
      assert top.dir.entries[..i + 1] == top.dir.entries[..i] + [sub];
      if IsVisible(sub.name) {
        var more := WithWorktrees(top.name + "/" + sub.name, sub.dir);
        assert forall t :: t in more <==> IsUnder(top, sub, t);
        targets := targets + more;
      }
    }
    assert top.dir.entries[..|top.dir.entries|] == top.dir.entries;
  }

  /** Every target that can contest a volume's name. */
  method List(workspaces: Directory) returns (targets: seq<Target>)
    requires IsReal(workspaces)
    ensures forall t :: t in targets <==> IsListed(workspaces, t)
  {
    targets := [];
    for i := 0 to |workspaces.entries|
      invariant forall t :: t in targets <==> exists top :: top in workspaces.entries[..i] && Offers(top, t)
    {
      var top := workspaces.entries[i];
      assert workspaces.entries[..i + 1] == workspaces.entries[..i] + [top];
      if IsVisible(top.name) {
        var more := WithWorktrees(top.name, top.dir);
        if !top.dir.configured {
          var under := Subprojects(top);
          more := more + under;
        }
        assert forall t :: t in more <==> Offers(top, t);
        targets := targets + more;
      }
    }
    assert workspaces.entries[..|workspaces.entries|] == workspaces.entries;
  }

  // --------------------------------------------------- what may be started --

  lemma SegmentsAreVisible(name: string)
    requires Segment(name) && Namespaceable(name)
    ensures IsVisible(name) && '/' !in name
  {
    assert "."[0] == '.';
  }

  lemma SlashesTell(a: string, b: string, c: string, d: string)
    requires '/' !in a && '/' !in c && a + "/" + b == c + "/" + d
    ensures a == c && b == d
  {
    var whole := a + "/" + b;
    assert whole[|a|] == '/' && whole[|c|] == '/';
    assert forall i :: 0 <= i < |a| ==> whole[i] == a[i] && whole[i] in a;
    assert forall i :: 0 <= i < |c| ==> whole[i] == c[i] && whole[i] in c;
    assert |a| == |c|;
    assert a == whole[..|a|] && b == whole[|a| + 1..] && d == whole[|c| + 1..];
  }

  lemma PlainNameIsSegment(p: string)
    requires ValidName(p) && '/' !in p
    ensures Segment(p)
  {
    forall k | 0 <= k < |p| ensures p[k] != '/' {
      assert p[k] in p;
    }
  }

  lemma HeadIsSegment(p: string, a: string, b: string)
    requires ValidName(p) && p == a + "/" + b && '/' !in a
    ensures Segment(a) && Namespaceable(a)
  {
    assert p[|a|] == '/' && p[|a|] in p;
    assert !Segment(p);
    var k := Slash(p);
    SlashesTell(p[..k], p[k + 1..], a, b);
    HeadIsNamespaceable(p, k, a);
  }

  /** Where the one slash of an owner's project stands. */
  lemma Slash(p: string) returns (k: nat)
    requires ValidName(p) && !Segment(p)
    ensures k < |p| && Segment(p[..k]) && p == p[..k] + "/" + p[k + 1..] && '/' !in p[..k]
  {
    k :| 0 <= k < |p| && p[k] == '/' && Segment(p[..k]) && Segment(p[k + 1..]);
    SegmentHasNoSlash(p[..k]);
  }

  lemma SegmentHasNoSlash(s: string)
    requires Segment(s)
    ensures '/' !in s
  {
    assert !SegmentChar('/');
  }

  lemma HeadIsNamespaceable(p: string, k: nat, a: string)
    requires Namespaceable(p) && k <= |p| && p[..k] == a
    ensures Namespaceable(a)
  {
    assert p[0..k] == a;
    if Contains(a, SLASH) { PartOfPart(p, 0, k, SLASH); }
    if Contains(a, SEPARATOR) { PartOfPart(p, 0, k, SEPARATOR); }
  }

  lemma TopIsVisible(top: Entry, t: Target)
    requires t.Valid() && '/' !in top.name
    requires IsOf(top.name, top.dir, t) || exists sub :: IsUnder(top, sub, t)
    ensures IsVisible(top.name)
  {
    if IsOf(top.name, top.dir, t) {
      PlainNameIsSegment(top.name);
    } else {
      var sub :| IsUnder(top, sub, t);
      HeadIsSegment(t.project, top.name, sub.name);
    }
    SegmentsAreVisible(top.name);
  }

  /** What may be started but is not listed, and so contests no name, is exactly
   *  what stands inside a directory that has a spec of its own. */
  lemma UnlistedExactly(workspaces: Directory, t: Target)
    requires IsReal(workspaces) && IsStartable(workspaces, t)
    ensures !IsListed(workspaces, t) <==> IsHidden(workspaces, t)
  {
    var top :| top in workspaces.entries && (IsOf(top.name, top.dir, t) || exists sub :: IsUnder(top, sub, t));
    TopIsVisible(top, t);
    if IsHidden(workspaces, t) {
      var hiding :| hiding in workspaces.entries && hiding.dir.configured && exists sub :: IsUnder(hiding, sub, t);
      var sub :| IsUnder(hiding, sub, t);
      forall other | other in workspaces.entries ensures !Offers(other, t) {
        OffersOnce(workspaces, hiding, sub, other, t);
      }
    }
  }

  lemma OffersOnce(workspaces: Directory, hiding: Entry, sub: Entry, other: Entry, t: Target)
    requires IsReal(workspaces) && hiding in workspaces.entries && other in workspaces.entries
    requires hiding.dir.configured && IsUnder(hiding, sub, t)
    ensures !Offers(other, t)
  {
    assert t.project[|hiding.name|] == '/' && t.project[|hiding.name|] in t.project;
    if elsewhere :| IsUnder(other, elsewhere, t) {
      SlashesTell(hiding.name, sub.name, other.name, elsewhere.name);
    }
  }
}
