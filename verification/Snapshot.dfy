/**
 * Copying a project's devcontainer directory out of its reach: every symbolic
 * link dereferenced, none that leaves the project followed.
 */
module Snapshot {
  import opened Wrappers

  /** From the top, one name a step; a real one goes through no link. */
  type Path = seq<string>

  /** A link carries what `realpath` says of it: nothing, when it is broken. */
  datatype Node = File(content: seq<bv8>, mode: nat) | Directory | Link(target: Option<Path>) | Special

  type Tree = map<Path, Node>

  /** What a copy is made of. */
  datatype Copy = CopiedFile(content: seq<bv8>, mode: nat) | CopiedDirectory

  /** `realpath` ends on something that is there and is no link itself. */
  ghost predicate Real(fs: Tree) {
    forall p :: p in fs && fs[p].Link? && fs[p].target.Some? ==>
      fs[p].target.value in fs && !fs[fs[p].target.value].Link?
  }

  predicate IsDirectory(fs: Tree, p: Path) {
    p in fs && fs[p].Directory?
  }

  predicate Within(root: Path, p: Path) {
    root <= p
  }

  // ---------------------------------------------------------- the unfolding --

  /** Where the entry `name` of the directory `p` really is. */
  function Enter(fs: Tree, p: Path, name: string): Option<Path> {
    if !IsDirectory(fs, p) || p + [name] !in fs then None
    else match fs[p + [name]]
         case Link(target) => target
         case _ => Some(p + [name])
  }

  /** Where a path, followed from `p` through every link, really leads. */
  function Follow(fs: Tree, p: Path, path: Path): Option<Path>
    decreases |path|
  {
    if path == [] then Some(p)
    else
      var next := Enter(fs, p, path[0]);
      if next.None? then None else Follow(fs, next.value, path[1..])
  }

  /** The last step of `path`, followed from `p`, is a link to the directory `q`. */
  predicate LinksTo(fs: Tree, p: Path, path: Path, q: Path)
    decreases |path|
  {
    if path == [] then false
    else
      var next := Enter(fs, p, path[0]);
      && next.Some?
      && if |path| == 1 then fs[p + [path[0]]] == Link(Some(q)) && IsDirectory(fs, q)
         else LinksTo(fs, next.value, path[1..], q)
  }

  predicate MayBeCopied(fs: Tree, root: Path, p: Path) {
    p in fs &&
    match fs[p]
    case File(_, _) => true
    case Directory => true
    case Link(target) =>
      && target.Some? && Within(root, target.value)
      && target.value in fs && (fs[target.value].File? || fs[target.value].Directory?)
    case Special => false
  }

  /** A file and a directory may be copied, and a link to one that is the root or below. */
  lemma MayBeCopiedExactly(fs: Tree, root: Path, p: Path)
    requires Real(fs) && p in fs
    ensures MayBeCopied(fs, root, p) <==>
            || fs[p].File? || fs[p].Directory?
            || (fs[p].Link? && fs[p].target.Some?
                && (exists rest :: fs[p].target.value == root + rest) && fs[fs[p].target.value] != Special)
  {
    if fs[p].Link? && fs[p].target.Some? && root <= fs[p].target.value {
      assert fs[p].target.value == root + fs[p].target.value[|root|..];
    }
  }

  /** The last step of `path`, followed from `p`, is something no copy may hold. */
  predicate Forbidden(fs: Tree, root: Path, p: Path, path: Path)
    decreases |path|
  {
    if path == [] || !IsDirectory(fs, p) || p + [path[0]] !in fs then false
    else if |path| == 1 then !MayBeCopied(fs, root, p + [path[0]])
    else Enter(fs, p, path[0]).Some? && Forbidden(fs, root, Enter(fs, p, path[0]).value, path[1..])
  }

  /**
   * What can be snapshotted: nothing below leads out of the root, nowhere, or
   * to what is neither file nor directory; and no two links below lead to one
   * directory, nor any to the directory being copied.
   */
  ghost predicate Copyable(fs: Tree, root: Path, source: Path) {
    && (forall path :: !Forbidden(fs, root, source, path))
    && (forall path, other, q :: LinksTo(fs, source, path, q) && LinksTo(fs, source, other, q) ==> path == other)
    && (forall path :: !LinksTo(fs, source, path, source))
  }

  function CopyOf(node: Node): Copy
    requires node.File? || node.Directory?
  {
    match node
    case File(content, mode) => CopiedFile(content, mode % 512)
    case Directory => CopiedDirectory
  }

  /** `written` at and under `to` is the unfolding of `from`, and no more. */
  ghost predicate Unfolds(fs: Tree, from: Path, to: Path, written: map<Path, Copy>) {
    forall path :: HoldsAt(fs, from, to, written, path)
  }

  ghost predicate HoldsAt(fs: Tree, from: Path, to: Path, written: map<Path, Copy>, path: Path) {
    && (to + path in written <==> Follow(fs, from, path).Some?)
    && (to + path in written ==>
          var q := Follow(fs, from, path).value;
          q in fs && (fs[q].File? || fs[q].Directory?) && written[to + path] == CopyOf(fs[q]))
  }

  // -------------------------------------------------------------- the copier --

  /** Why a copy was refused. */
  datatype Refusal = AtForbidden(path: Path) | Twice(path: Path, other: Path, q: Path) | Again(path: Path, q: Path)

  ghost predicate Justifies(why: Refusal, fs: Tree, root: Path, from: Path, visited: set<Path>) {
    match why
    case AtForbidden(path) => Forbidden(fs, root, from, path)
    case Twice(path, other, q) => path != other && LinksTo(fs, from, path, q) && LinksTo(fs, from, other, q)
    case Again(path, q) => LinksTo(fs, from, path, q) && q in visited
  }

  function Directories(fs: Tree): set<Path> {
    set p | p in fs && fs[p].Directory?
  }

  function Below(fs: Tree, p: Path): set<Path> {
    set q | q in fs && p < q
  }

  class Copier {
    const fs: Tree
    const root: Path
    /** The directories links have led to, and the one copying began at. */
    var visited: set<Path>
    var written: map<Path, Copy>

    constructor (fs: Tree, root: Path, source: Path)
      ensures this.fs == fs && this.root == root && visited == {source} && written == map[]
    {
      this.fs, this.root, visited, written := fs, root, {source}, map[];
    }

    /** What a link at `from` or a file there resolves to is copied as it is. */
    method CopyFile(from: Path, name: string, q: Path, to: Path)
      requires Enter(fs, from, name) == Some(q) && q in fs && fs[q].File?
      requires forall p :: p in written ==> !(to + [name] <= p)
      modifies this`written
      ensures forall rest :: HoldsAt(fs, from, to, written, [name] + rest)
      ensures forall rest, d :: !Leads(fs, from, name, rest, d)
      ensures SameElsewhere(to + [name], old(written), written)
    {
      written := written[to + [name] := CopyOf(fs[q])];
      forall rest ensures HoldsAt(fs, from, to, written, [name] + rest) {
        NothingBelowAFile(fs, from, name, q, rest);
        assert to + ([name] + rest) == (to + [name]) + rest;
        assert to + [name] <= to + ([name] + rest);
        if rest == [] { assert [name] + rest == [name]; }
        else { assert |to + ([name] + rest)| > |to + [name]|; }
      }
      forall rest, d ensures !Leads(fs, from, name, rest, d) {
        NothingBelowAFile(fs, from, name, q, rest);
      }
    }

    /** Copy one entry of the directory `from`. */
    method CopyEntry(from: Path, name: string, to: Path) returns (ok: bool, ghost why: Refusal)
      requires Real(fs) && IsDirectory(fs, from) && from + [name] in fs
      requires forall p :: p in written ==> !(to + [name] <= p)
      modifies this`visited, this`written
      ensures old(visited) <= visited
      ensures ok ==> forall rest :: HoldsAt(fs, from, to, written, [name] + rest)
      ensures ok ==> forall rest :: !Forbidden(fs, root, from, [name] + rest)
      ensures ok ==> EntryVisits(fs, from, name, old(visited), visited)
      ensures SameElsewhere(to + [name], old(written), written)
      ensures !ok ==> Justifies(why, fs, root, from, old(visited))
      ensures !ok && why.Again? ==> why.path != [] && why.path[0] == name
      decreases |Directories(fs) - visited|, |Below(fs, from)|, 0
    {
      ok, why := true, AtForbidden([name]);
      var at := from + [name];
      match fs[at]
      case Link(target) =>
        if target.None? || !Within(root, target.value) || target.value !in fs { return false, AtForbidden([name]); }
        var q := target.value;
        match fs[q] {
        case Directory =>
          if q in visited { return false, Again([name], q); }
          VisitingShrinks(fs, visited, q);
          visited := visited + {q};
          ok, why := CopyTree(q, to + [name]);
          if ok { LinkedEntryIsCopied(fs, root, from, name, q, to, old(visited), visited, written); }
          else { why := HigherByLink(fs, root, from, name, q, why, old(visited)); }
        case File(_, _) =>
          CopyFile(from, name, q, to);
          NothingForbiddenInAFile(fs, root, from, name, q);
        case _ =>
          return false, AtForbidden([name]);
        }
      case Directory =>
        RealChildIsBelow(fs, from, name);
        ok, why := CopyTree(at, to + [name]);
        if ok { RealEntryIsCopied(fs, root, from, name, to, old(visited), visited, written); }
        else { why := Higher(fs, root, from, name, why, old(visited)); }
      case File(_, _) =>
        CopyFile(from, name, at, to);
        NothingForbiddenInAFile(fs, root, from, name, at);
      case Special =>
        return false, AtForbidden([name]);
    }

    /** Copy the directory `from` to `to`; false, with why, if it is refused. */
    method CopyTree(from: Path, to: Path) returns (ok: bool, ghost why: Refusal)
      requires Real(fs) && IsDirectory(fs, from)
      requires forall p :: p in written ==> !(to <= p)
      modifies this`visited, this`written
      ensures old(visited) <= visited
      ensures ok ==> Unfolds(fs, from, to, written)
      ensures ok ==> forall path :: !Forbidden(fs, root, from, path)
      ensures ok ==> Visits(fs, from, old(visited), visited)
      ensures SameElsewhere(to, old(written), written)
      ensures !ok ==> Justifies(why, fs, root, from, old(visited))
      decreases |Directories(fs) - visited|, |Below(fs, from)|, 1
    {
      ok, why := true, AtForbidden([]);
      written := written[to := CopiedDirectory];
      var names := Entries(fs, from);
      var left := names;
      while left != {}
        invariant left <= names && old(visited) <= visited
        invariant Holding(fs, root, from, to, written, names - left)
        invariant VisitsSome(fs, from, names - left, old(visited), visited)
        invariant SameElsewhere(to, old(written), written)
        decreases left
      {
        var name :| name in left;
        NothingYetUnder(fs, root, from, to, written, names - left, name);
        ghost var mid, half := visited, written;
        FewerDirectories(fs, old(visited), visited);
        ok, why := CopyEntry(from, name, to);
        if !ok {
          why := Before(fs, root, from, names - left, name, why, old(visited), mid);
          assert SameElsewhere(to, old(written), written);
          return;
        }
        ghost var done := names - left;
        left := left - {name};
        assert names - left == done + {name};
        StillHolding(fs, root, from, to, half, written, done, name);
        VisitsOneMore(fs, from, done, name, old(visited), mid, visited);
      }
      AllEntriesAreAll(fs, root, from, to, old(visited), visited, written);
    }
  }

  // ------------------------------------------------------------------ proofs --

  ghost predicate SameElsewhere(to: Path, before: map<Path, Copy>, after: map<Path, Copy>) {
    forall p :: !(to <= p) ==> (p in after <==> p in before) && (p in after ==> after[p] == before[p])
  }

  /** What copying all of `from` adds to the directories visited: those links
   *  below lead to, each once, and none visited before. */
  ghost predicate Visits(fs: Tree, from: Path, before: set<Path>, after: set<Path>) {
    && (forall q :: q in after <==> q in before || exists path :: LinksTo(fs, from, path, q))
    && (forall path, q :: LinksTo(fs, from, path, q) ==> q !in before)
    && (forall path, other, q :: LinksTo(fs, from, path, q) && LinksTo(fs, from, other, q) ==> path == other)
  }

  ghost predicate Leads(fs: Tree, from: Path, name: string, rest: Path, q: Path) {
    LinksTo(fs, from, [name] + rest, q)
  }

  /** The same, of one entry. */
  ghost predicate EntryVisits(fs: Tree, from: Path, name: string, before: set<Path>, after: set<Path>) {
    && (forall q :: q in after <==> q in before || exists rest :: Leads(fs, from, name, rest, q))
    && (forall rest, q :: Leads(fs, from, name, rest, q) ==> q !in before)
    && (forall rest, other, q :: Leads(fs, from, name, rest, q) && Leads(fs, from, name, other, q) ==> rest == other)
  }

  function Entries(fs: Tree, p: Path): (names: set<string>)
    ensures forall n :: n in names <==> p + [n] in fs
  {
    var names := set q | q in fs && |q| == |p| + 1 && p <= q :: q[|p|];
    assert forall n :: p + [n] in fs ==> (p + [n])[|p|] == n;
    assert forall q :: q in fs && |q| == |p| + 1 && p <= q ==> q == p + [q[|p|]];
    names
  }

  lemma StepThrough(fs: Tree, root: Path, from: Path, name: string, child: Path, rest: Path)
    requires Enter(fs, from, name) == Some(child)
    ensures Follow(fs, from, [name] + rest) == Follow(fs, child, rest)
    ensures rest != [] ==> forall q :: LinksTo(fs, from, [name] + rest, q) == LinksTo(fs, child, rest, q)
    ensures rest != [] ==> Forbidden(fs, root, from, [name] + rest) == Forbidden(fs, root, child, rest)
  {
    assert ([name] + rest)[1..] == rest;
  }

  lemma NothingBelowAFile(fs: Tree, from: Path, name: string, q: Path, rest: Path)
    requires Enter(fs, from, name) == Some(q) && q in fs && fs[q].File?
    ensures rest != [] ==> Follow(fs, from, [name] + rest) == None
    ensures Follow(fs, from, [name]) == Some(q)
    ensures forall d :: !LinksTo(fs, from, [name] + rest, d)
  {
    StepThrough(fs, [], from, name, q, rest);
    StepThrough(fs, [], from, name, q, []);
    assert [name] + [] == [name];
    if rest == [] { assert [name] + rest == [name]; }
  }

  lemma NothingForbiddenInAFile(fs: Tree, root: Path, from: Path, name: string, q: Path)
    requires Enter(fs, from, name) == Some(q) && q in fs && fs[q].File? && MayBeCopied(fs, root, from + [name])
    ensures forall rest :: !Forbidden(fs, root, from, [name] + rest)
  {
    forall rest ensures !Forbidden(fs, root, from, [name] + rest) {
      StepThrough(fs, root, from, name, q, rest);
      if rest == [] { assert [name] + rest == [name]; }
    }
  }

  lemma VisitingShrinks(fs: Tree, visited: set<Path>, q: Path)
    requires IsDirectory(fs, q) && q !in visited
    ensures |Directories(fs) - (visited + {q})| < |Directories(fs) - visited|
  {
    assert Directories(fs) - visited == (Directories(fs) - (visited + {q})) + {q};
  }

  lemma FewerDirectories(fs: Tree, before: set<Path>, after: set<Path>)
    requires before <= after
    ensures |Directories(fs) - after| <= |Directories(fs) - before|
  {
    var more := (Directories(fs) - before) - (Directories(fs) - after);
    assert Directories(fs) - before == (Directories(fs) - after) + more;
  }

  lemma RealChildIsBelow(fs: Tree, p: Path, name: string)
    requires p + [name] in fs
    ensures |Below(fs, p + [name])| < |Below(fs, p)|
  {
    var child := p + [name];
    assert p < child;
    var others := Below(fs, p) - Below(fs, child) - {child};
    assert Below(fs, p) == Below(fs, child) + others + {child};
  }

  /** A copied real directory is its entry of the directory above. */
  lemma RealEntryIsCopied(fs: Tree, root: Path, from: Path, name: string, to: Path,
                          before: set<Path>, after: set<Path>, written: map<Path, Copy>)
    requires IsDirectory(fs, from) && IsDirectory(fs, from + [name])
    requires Unfolds(fs, from + [name], to + [name], written) && Visits(fs, from + [name], before, after)
    requires forall path :: !Forbidden(fs, root, from + [name], path)
    ensures forall rest :: HoldsAt(fs, from, to, written, [name] + rest)
    ensures forall rest :: !Forbidden(fs, root, from, [name] + rest)
    ensures EntryVisits(fs, from, name, before, after)
  {
    var child := from + [name];
    forall rest
      ensures HoldsAt(fs, from, to, written, [name] + rest) && !Forbidden(fs, root, from, [name] + rest)
      ensures forall q :: Leads(fs, from, name, rest, q) == LinksTo(fs, child, rest, q)
    {
      StepThrough(fs, root, from, name, child, rest);
      assert to + ([name] + rest) == (to + [name]) + rest;
      assert HoldsAt(fs, child, to + [name], written, rest);
      if rest == [] { assert [name] + rest == [name]; }
    }
    forall q ensures q in after <==> q in before || exists rest :: Leads(fs, from, name, rest, q) {
      if q in after && q !in before {
        var rest :| LinksTo(fs, child, rest, q);
        assert Leads(fs, from, name, rest, q);
      }
    }
  }

  /** So is one a link led to, which is visited besides. */
  lemma LinkedEntryIsCopied(fs: Tree, root: Path, from: Path, name: string, q: Path, to: Path,
                            before: set<Path>, after: set<Path>, written: map<Path, Copy>)
    requires IsDirectory(fs, from) && from + [name] in fs && fs[from + [name]] == Link(Some(q)) && IsDirectory(fs, q)
    requires Within(root, q) && q !in before
    requires Unfolds(fs, q, to + [name], written) && Visits(fs, q, before + {q}, after)
    requires forall path :: !Forbidden(fs, root, q, path)
    ensures forall rest :: HoldsAt(fs, from, to, written, [name] + rest)
    ensures forall rest :: !Forbidden(fs, root, from, [name] + rest)
    ensures EntryVisits(fs, from, name, before, after)
  {
    forall rest
      ensures HoldsAt(fs, from, to, written, [name] + rest) && !Forbidden(fs, root, from, [name] + rest)
      ensures forall d :: Leads(fs, from, name, rest, d) == (if rest == [] then d == q else LinksTo(fs, q, rest, d))
    {
      StepThrough(fs, root, from, name, q, rest);
      assert to + ([name] + rest) == (to + [name]) + rest;
      assert HoldsAt(fs, q, to + [name], written, rest);
      if rest == [] { assert [name] + rest == [name]; }
    }
    forall d ensures d in after <==> d in before || exists rest :: Leads(fs, from, name, rest, d) {
      if d == q {
        assert Leads(fs, from, name, [], d);
      } else if d in after && d !in before {
        var rest :| LinksTo(fs, q, rest, d);
        assert Leads(fs, from, name, rest, d);
      }
    }
  }

  /** A refusal below is a refusal here. */
  lemma Higher(fs: Tree, root: Path, from: Path, name: string, why: Refusal, before: set<Path>) returns (up: Refusal)
    requires IsDirectory(fs, from) && IsDirectory(fs, from + [name])
    requires Justifies(why, fs, root, from + [name], before)
    ensures Justifies(up, fs, root, from, before) && (up.Again? ==> up.path != [] && up.path[0] == name)
  {
    match why
    case AtForbidden(path) =>
      StepThrough(fs, root, from, name, from + [name], path);
      return AtForbidden([name] + path);
    case Twice(path, other, q) =>
      StepThrough(fs, root, from, name, from + [name], path);
      StepThrough(fs, root, from, name, from + [name], other);
      assert path == ([name] + path)[1..] && other == ([name] + other)[1..];
      return Twice([name] + path, [name] + other, q);
    case Again(path, q) =>
      StepThrough(fs, root, from, name, from + [name], path);
      return Again([name] + path, q);
  }

  lemma HigherByLink(fs: Tree, root: Path, from: Path, name: string, q: Path, why: Refusal, before: set<Path>)
    returns (up: Refusal)
    requires IsDirectory(fs, from) && from + [name] in fs && fs[from + [name]] == Link(Some(q)) && IsDirectory(fs, q)
    requires Justifies(why, fs, root, q, before + {q})
    ensures Justifies(up, fs, root, from, before) && (up.Again? ==> up.path != [] && up.path[0] == name)
  {
    match why
    case AtForbidden(path) =>
      StepThrough(fs, root, from, name, q, path);
      return AtForbidden([name] + path);
    case Twice(path, other, d) =>
      StepThrough(fs, root, from, name, q, path);
      StepThrough(fs, root, from, name, q, other);
      assert path == ([name] + path)[1..] && other == ([name] + other)[1..];
      return Twice([name] + path, [name] + other, d);
    case Again(path, d) =>
      StepThrough(fs, root, from, name, q, path);
      if d == q { return Twice([name], [name] + path, q); }
      return Again([name] + path, d);
  }

  // -------------------------------------------------- one entry after another --

  /** The entries in `done` are copied, and nothing else under `to`. */
  ghost predicate Holding(fs: Tree, root: Path, from: Path, to: Path, written: map<Path, Copy>, done: set<string>) {
    && to in written && written[to] == CopiedDirectory
    && (forall p :: p in written && to < p ==> p[|to|] in done)
    && (forall n, rest :: n in done ==> HoldsAt(fs, from, to, written, [n] + rest))
    && (forall n, rest :: n in done ==> !Forbidden(fs, root, from, [n] + rest))
  }

  ghost predicate VisitsSome(fs: Tree, from: Path, done: set<string>, before: set<Path>, after: set<Path>) {
    && (forall q :: q in after <==> q in before || exists n, rest :: n in done && Leads(fs, from, n, rest, q))
    && (forall n, rest, q :: n in done && Leads(fs, from, n, rest, q) ==> q !in before)
    && (forall n, rest, m, other, q ::
          n in done && m in done && Leads(fs, from, n, rest, q) && Leads(fs, from, m, other, q) ==>
          n == m && rest == other)
  }

  lemma NothingYetUnder(fs: Tree, root: Path, from: Path, to: Path, written: map<Path, Copy>, done: set<string>,
                        name: string)
    requires Holding(fs, root, from, to, written, done) && name !in done
    ensures forall p :: p in written ==> !(to + [name] <= p)
  {
    forall p | p in written ensures !(to + [name] <= p) {
      EntryUnder(to, name, p);
    }
  }

  lemma EntryUnder(to: Path, name: string, p: Path)
    ensures to + [name] <= p ==> to < p && p[|to|] == name
  {
    if to + [name] <= p { assert p[|to|] == (to + [name])[|to|]; }
  }

  lemma StillHolding(fs: Tree, root: Path, from: Path, to: Path, before: map<Path, Copy>, written: map<Path, Copy>,
                     done: set<string>, name: string)
    requires Holding(fs, root, from, to, before, done) && name !in done
    requires SameElsewhere(to + [name], before, written)
    requires forall rest :: HoldsAt(fs, from, to, written, [name] + rest) && !Forbidden(fs, root, from, [name] + rest)
    ensures Holding(fs, root, from, to, written, done + {name})
  {
    forall n, rest | n in done ensures HoldsAt(fs, from, to, written, [n] + rest) {
      var p := to + ([n] + rest);
      assert p[|to|] == n;
      EntryUnder(to, name, p);
      assert HoldsAt(fs, from, to, before, [n] + rest);
    }
    forall p | p in written && to < p ensures p[|to|] in done + {name} {
      EntryUnder(to, name, p);
    }
  }

  lemma VisitsOneMore(fs: Tree, from: Path, done: set<string>, name: string, before: set<Path>, mid: set<Path>,
                      after: set<Path>)
    requires VisitsSome(fs, from, done, before, mid) && EntryVisits(fs, from, name, mid, after) && name !in done
    ensures VisitsSome(fs, from, done + {name}, before, after)
  {
    forall q
      ensures q in after <==> q in before || exists n, rest :: n in done + {name} && Leads(fs, from, n, rest, q)
    {
      if q in mid && q !in before {
        var n, rest :| n in done && Leads(fs, from, n, rest, q);
      }
    }
    assert forall n, rest, q :: n in done && Leads(fs, from, n, rest, q) ==> q in mid;
  }

  /** A refusal at one entry is one of the whole directory: what it found
   *  visited was so before, or an earlier entry's link led there. */
  lemma Before(fs: Tree, root: Path, from: Path, done: set<string>, name: string, why: Refusal, before: set<Path>,
               mid: set<Path>)
    returns (up: Refusal)
    requires VisitsSome(fs, from, done, before, mid) && name !in done
    requires Justifies(why, fs, root, from, mid) && (why.Again? ==> why.path != [] && why.path[0] == name)
    ensures Justifies(up, fs, root, from, before)
  {
    if why.Again? && why.q !in before {
      var n, rest :| n in done && Leads(fs, from, n, rest, why.q);
      return Twice(why.path, [n] + rest, why.q);
    }
    return why;
  }

  lemma AllEntriesAreAll(fs: Tree, root: Path, from: Path, to: Path, before: set<Path>, after: set<Path>,
                         written: map<Path, Copy>)
    requires IsDirectory(fs, from)
    requires Holding(fs, root, from, to, written, Entries(fs, from))
    requires VisitsSome(fs, from, Entries(fs, from), before, after)
    ensures Unfolds(fs, from, to, written)
    ensures forall path :: !Forbidden(fs, root, from, path)
    ensures Visits(fs, from, before, after)
  {
    forall path ensures HoldsAt(fs, from, to, written, path) && !Forbidden(fs, root, from, path) {
      if path == [] {
        assert to + path == to;
      } else {
        assert path == [path[0]] + path[1..];
        if path[0] !in Entries(fs, from) {
          assert (to + path)[|to|] == path[0];
          assert to < to + path;
        }
      }
    }
    AllAreVisited(fs, from, before, after);
  }

  lemma AllAreVisited(fs: Tree, from: Path, before: set<Path>, after: set<Path>)
    requires VisitsSome(fs, from, Entries(fs, from), before, after)
    ensures Visits(fs, from, before, after)
  {
    forall path, q | LinksTo(fs, from, path, q)
      ensures path != [] && path[0] in Entries(fs, from) && path == [path[0]] + path[1..]
      ensures Leads(fs, from, path[0], path[1..], q)
    {
      assert path == [path[0]] + path[1..];
    }
  }

  // ---------------------------------------------------------------- the whole --

  /** Of a file, all its bytes and the low nine bits of its mode; of a directory, one. */
  ghost predicate IsCopyOf(copy: Copy, fs: Tree, q: Path) {
    && q in fs
    && match copy
       case CopiedFile(content, mode) =>
         fs[q].File? && content == fs[q].content && mode < 512 && (fs[q].mode - mode) % 512 == 0
       case CopiedDirectory => fs[q].Directory?
  }

  /**
   * `snapshotDirectory`, of a directory already resolved inside the root. It
   * returns whatever links there are -- no cycle keeps it going -- and copies
   * exactly what can be copied. Then the copy has what each path from the source
   * leads to, and nothing besides: a file there with all its bytes and the low nine
   * bits of its mode, a directory as one, a link never, and from the root alone.
   */
  method SnapshotDirectory(fs: Tree, root: Path, source: Path, to: Path) returns (written: Option<map<Path, Copy>>)
    requires Real(fs) && IsDirectory(fs, source) && root <= source
    ensures written.Some? <==> Copyable(fs, root, source)
    ensures written.Some? ==>
              && (forall p :: p in written.value ==> to <= p)
              && (forall path :: to + path in written.value <==> Follow(fs, source, path).Some?)
    ensures written.Some? ==> forall path :: to + path in written.value ==>
              var q := Follow(fs, source, path).value;
              root <= q && IsCopyOf(written.value[to + path], fs, q)
  {
    var copier := new Copier(fs, root, source);
    var ok, why := copier.CopyTree(source, to);
    if !ok {
      RefusedIsNotCopyable(fs, root, source, why);
      return None;
    }
    forall path
      ensures to + path in copier.written <==> Follow(fs, source, path).Some?
      ensures to + path in copier.written ==> root <= Follow(fs, source, path).value
      ensures to + path in copier.written ==> IsCopyOf(copier.written[to + path], fs, Follow(fs, source, path).value)
    {
      assert HoldsAt(fs, source, to, copier.written, path);
      if Follow(fs, source, path).Some? { FollowedStaysWithin(fs, root, source, path); }
    }
    return Some(copier.written);
  }

  lemma RefusedIsNotCopyable(fs: Tree, root: Path, source: Path, why: Refusal)
    requires Justifies(why, fs, root, source, {source})
    ensures !Copyable(fs, root, source)
  {
  }

  lemma {:induction false} FollowedStaysWithin(fs: Tree, root: Path, p: Path, path: Path)
    requires root <= p && Follow(fs, p, path).Some? && forall q :: !Forbidden(fs, root, p, q)
    ensures root <= Follow(fs, p, path).value
    decreases |path|
  {
    if path != [] {
      var name := path[0];
      var next := Enter(fs, p, name).value;
      assert !Forbidden(fs, root, p, [name]);
      forall q ensures !Forbidden(fs, root, next, q) {
        StepThrough(fs, root, p, name, next, q);
        assert !Forbidden(fs, root, p, [name] + q);
      }
      FollowedStaysWithin(fs, root, next, path[1..]);
    }
  }

  // ------------------------------------------------------- what that refuses --

  lemma {:induction false} LinksThrough(fs: Tree, p: Path, path: Path, q: Path, rest: Path, r: Path)
    requires LinksTo(fs, p, path, q) && LinksTo(fs, q, rest, r)
    ensures LinksTo(fs, p, path + rest, r)
    decreases |path|
  {
    assert (path + rest)[1..] == path[1..] + rest;
    if |path| == 1 {
      assert (path + rest)[1..] == rest;
    } else {
      LinksThrough(fs, Enter(fs, p, path[0]).value, path[1..], q, rest, r);
    }
  }

  /** A cycle: a link that leads back above itself is refused, wherever it is met. */
  lemma CyclesAreRefused(fs: Tree, root: Path, source: Path, path: Path, q: Path, rest: Path)
    requires LinksTo(fs, source, path, q) && LinksTo(fs, q, rest, q)
    ensures !Copyable(fs, root, source)
  {
    LinksThrough(fs, source, path, q, rest, q);
    assert |path + rest| > |path|;
  }

  /** But so is a directory two links lead to, though nothing there is a cycle:
   *  every directory visited is remembered, not only those being copied. */
  lemma SharedDirectoryIsRefused(fs: Tree, root: Path, source: Path, a: string, b: string, shared: Path)
    requires a != b && IsDirectory(fs, source) && IsDirectory(fs, shared)
    requires source + [a] in fs && fs[source + [a]] == Link(Some(shared))
    requires source + [b] in fs && fs[source + [b]] == Link(Some(shared))
    ensures !Copyable(fs, root, source)
  {
    assert LinksTo(fs, source, [a], shared) && LinksTo(fs, source, [b], shared);
    assert [a] != [b];
  }

  /** The smallest such tree: two links to one empty directory. */
  function Diamond(): Tree {
    map[["p"] := Directory, ["p", "e"] := Directory, ["p", "d"] := Directory,
        ["p", "d", "a"] := Link(Some(["p", "e"])), ["p", "d", "b"] := Link(Some(["p", "e"]))]
  }

  lemma {:induction false} DiamondLinksLeadToEmpty(p: Path, path: Path, q: Path)
    requires LinksTo(Diamond(), p, path, q)
    ensures q == ["p", "e"] && p != ["p", "e"]
    decreases |path|
  {
    assert p + [path[0]] in Diamond();
    assert p == (p + [path[0]])[..|p|];
    forall n ensures ["p", "e"] + [n] !in Diamond() {
      assert (["p", "e"] + [n])[1] == "e";
    }
    if |path| > 1 { DiamondLinksLeadToEmpty(Enter(Diamond(), p, path[0]).value, path[1..], q); }
  }

  lemma NotOnlyCyclesAreRefused()
    ensures Real(Diamond()) && IsDirectory(Diamond(), ["p", "d"]) && !Copyable(Diamond(), ["p"], ["p", "d"])
    ensures forall path :: !Forbidden(Diamond(), ["p"], ["p", "d"], path)
    ensures forall q, path :: !LinksTo(Diamond(), q, path, q)
  {
    var fs := Diamond();
    assert ["p", "d"] + ["a"] == ["p", "d", "a"] && ["p", "d"] + ["b"] == ["p", "d", "b"];
    SharedDirectoryIsRefused(fs, ["p"], ["p", "d"], "a", "b", ["p", "e"]);
    forall path ensures !Forbidden(fs, ["p"], ["p", "d"], path) {
      if |path| > 1 && ["p", "d"] + [path[0]] in fs {
        var inside := ["p", "e"] + [path[1]];
        assert inside == ["p", "e", path[1]] && inside !in fs;
      }
    }
    forall q, path ensures !LinksTo(fs, q, path, q) {
      if LinksTo(fs, q, path, q) { DiamondLinksLeadToEmpty(q, path, q); }
    }
  }
}
