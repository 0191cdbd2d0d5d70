/**
 * What a project proposes to each of its suede dependencies: the dependency's
 * folder at a commit, less what is not the project's to propose. A path is its
 * names from the root; a tree is what git lists of one, files alone.
 */
module Proposals {

  type Path = seq<string>

  datatype Entry = Entry(mode: string, blob: string)

  type Tree = map<Path, Entry>

  const GITREPO := ".gitrepo"
  const RELEASE := "release"

  /** Nothing is both a file and a directory. */
  predicate IsTree(t: Tree) {
    [] !in t && forall p, q :: p in t && q in t && p <= q ==> p == q
  }

  lemma TreesExactly(t: Tree)
    ensures IsTree(t) <==> [] !in t && forall p, q :: p in t && q in t ==> !(p < q)
  {
  }

  function Folder(t: Tree, d: Path): Tree {
    map p | p in Tails(t.Keys, d) && d + p in t :: t[d + p]
  }

  function Tails(paths: set<Path>, d: Path): set<Path> {
    set q | q in paths && d <= q :: q[|d|..]
  }

  lemma TailsAre(paths: set<Path>, d: Path, p: Path)
    ensures p in Tails(paths, d) <==> d + p in paths
  {
    assert (d + p)[|d|..] == p;
    if p in Tails(paths, d) {
      var q :| q in paths && d <= q && q[|d|..] == p;
      assert q == d + p;
    }
  }

  // ------------------------------------------------- an index, path by path --

  function Under(t: Tree, at: Path): Tree {
    map p | p in t && at <= p :: t[p]
  }

  function Without(t: Tree, at: Path): Tree {
    map p | p in t && !(at <= p) :: t[p]
  }

  /** An entry added to an index, which loses what cannot stand beside it. */
  function Inserted(index: Tree, p: Path, e: Entry): Tree {
    (map q | q in index && !(q <= p) && !(p <= q) :: index[q])[p := e]
  }

  /** What was a tree is one still, with the entry, and has lost nothing that could stay. */
  lemma InsertedIsATree(index: Tree, p: Path, e: Entry)
    requires IsTree(index) && p != []
    ensures IsTree(Inserted(index, p, e)) && p in Inserted(index, p, e) && Inserted(index, p, e)[p] == e
    ensures forall q :: q in index && !(q < p) && !(p <= q) ==>
              q in Inserted(index, p, e) && Inserted(index, p, e)[q] == index[q]
    ensures Inserted(index, p, e).Keys <= index.Keys + {p}
  {
  }

  predicate IsReserved(p: Path, reserved: seq<Path>) {
    exists i :: 0 <= i < |reserved| && reserved[i] != [] && reserved[i] <= p
  }

  /** The folder, but the pin's own content at and under every reserved path. */
  function Proposed(folder: Tree, pin: Tree, reserved: seq<Path>): Tree {
    map p | p in folder.Keys + pin.Keys && (if IsReserved(p, reserved) then p in pin else p in folder) ::
      if IsReserved(p, reserved) then pin[p] else folder[p]
  }

  /** A `.gitrepo` stands in every reserved directory of the folder. */
  predicate Marked(folder: Tree, reserved: seq<Path>) {
    forall i :: 0 <= i < |reserved| && reserved[i] != [] && reserved[i] != [GITREPO] ==>
        reserved[i] + [GITREPO] in folder
  }

  lemma PrefixesCompare(a: Path, b: Path, p: Path)
    ensures a <= p && b <= p ==> a <= b || b <= a
  {
    if a <= p && b <= p {
      assert a == p[..|a|] && b == p[..|b|];
      assert |a| <= |b| ==> b[..|a|] == a;
      assert |b| <= |a| ==> a[..|b|] == b;
    }
  }

  /** No file of a folder is above a directory that holds a `.gitrepo`. */
  lemma NoFileAbove(folder: Tree, at: Path, q: Path)
    requires IsTree(folder) && q in folder
    requires at == [GITREPO] || at + [GITREPO] in folder
    ensures q <= at ==> q == at
  {
    assert q != [];
    assert q <= at ==> q <= at + [GITREPO];
  }

  /** What the pin has at or under a reserved path displaces nothing that is left. */
  lemma NothingIsDisplaced(folder: Tree, pin: Tree, reserved: seq<Path>, i: nat)
    requires IsTree(folder) && IsTree(pin) && Marked(folder, reserved)
    requires i < |reserved| && reserved[i] != []
    ensures Apart(Proposed(folder, pin, reserved[..i]), pin, reserved[i])
  {
    var left, at := Proposed(folder, pin, reserved[..i]), reserved[i];
    forall p, q | p in pin && at <= p && q in left && !(at <= q)
      ensures !(q <= p) && !(p <= q)
    {
      if q in folder { NoFileAbove(folder, at, q); }
      PrefixesCompare(q, at, p);
    }
  }

  lemma InsertedBesideTheRest(index: Tree, p: Path, e: Entry)
    requires forall q :: q in index && q != p ==> !(q <= p) && !(p <= q)
    ensures Inserted(index, p, e) == index[p := e]
  {
  }

  lemma ReservedSoFar(reserved: seq<Path>, i: nat, p: Path)
    requires i < |reserved|
    ensures IsReserved(p, reserved[..i + 1])
       <==> IsReserved(p, reserved[..i]) || (reserved[i] != [] && reserved[i] <= p)
  {
    var was, now := reserved[..i], reserved[..i + 1];
    assert now[i] == reserved[i];
    assert forall j :: 0 <= j < i ==> now[j] == was[j];
  }

  /** One turn of the loop, skipped for an empty line. */
  lemma OneMoreReserved(folder: Tree, pin: Tree, reserved: seq<Path>, i: nat)
    requires i < |reserved|
    ensures Proposed(folder, pin, reserved[..i + 1])
         == var before := Proposed(folder, pin, reserved[..i]);
            if reserved[i] == [] then before else Without(before, reserved[i]) + Under(pin, reserved[i])
  {
    forall p: Path
      ensures IsReserved(p, reserved[..i + 1])
         <==> IsReserved(p, reserved[..i]) || (reserved[i] != [] && reserved[i] <= p)
    {
      ReservedSoFar(reserved, i, p);
    }
  }

  /** No entry the pin has at or under `at` is above or below one left in the index. */
  predicate Apart(index: Tree, pin: Tree, at: Path) {
    forall p, q :: p in pin && at <= p && q in index && !(at <= q) ==> !(q <= p) && !(p <= q)
  }

  /** The index when all but `left` of the pin's entries are in it. */
  function Partly(index: Tree, pin: Tree, at: Path, left: set<Path>): Tree {
    map p | p in index.Keys + pin.Keys && (if at <= p then p in pin && p !in left else p in index) ::
      if at <= p then pin[p] else index[p]
  }

  lemma PartlyUpdated(index: Tree, pin: Tree, at: Path, left: set<Path>, p: Path)
    requires p in pin && at <= p
    ensures Partly(index, pin, at, left)[p := pin[p]] == Partly(index, pin, at, left - {p})
  {
  }

  lemma OneMoreTaken(index: Tree, pin: Tree, at: Path, left: set<Path>, p: Path)
    requires IsTree(pin) && Apart(index, pin, at)
    requires p in pin && at <= p
    ensures Inserted(Partly(index, pin, at, left), p, pin[p]) == Partly(index, pin, at, left - {p})
  {
    var was := Partly(index, pin, at, left);
    forall q | q in was && q != p ensures !(q <= p) && !(p <= q) {
      assert if at <= q then q in pin else q in index;
    }
    InsertedBesideTheRest(was, p, pin[p]);
    PartlyUpdated(index, pin, at, left, p);
  }

  /** One path of the index, replaced by the pin's entries one by one. */
  method TakePinned(index: Tree, pin: Tree, at: Path) returns (after: Tree)
    requires IsTree(pin) && Apart(index, pin, at)
    ensures after == Without(index, at) + Under(pin, at)
  {
    after := Without(index, at);
    var left := Under(pin, at).Keys;
    assert after == Partly(index, pin, at, left);
    while left != {}
      invariant left <= Under(pin, at).Keys
      invariant after == Partly(index, pin, at, left)
    {
      var p :| p in left;
      OneMoreTaken(index, pin, at, left, p);
      after := Inserted(after, p, pin[p]);
      left := left - {p};
    }
  }

  /** The tree a folder proposes: `.gitrepo` and each nested subrepo as the pin has
   *  them, whatever their order and however they overlap, the rest as it stands. */
  method ProposalTree(folder: Tree, pin: Tree, nested: seq<Path>) returns (tree: Tree)
    requires IsTree(folder) && IsTree(pin) && Marked(folder, nested)
    ensures tree == Proposed(folder, pin, [[GITREPO]] + nested)
  {
    var reserved := [[GITREPO]] + nested;
    tree := folder;
    assert forall p :: !IsReserved(p, reserved[..0]);
    assert tree == Proposed(folder, pin, reserved[..0]);
    for i := 0 to |reserved|
      invariant tree == Proposed(folder, pin, reserved[..i])
    {
      var path := reserved[i];
      OneMoreReserved(folder, pin, reserved, i);
      if path == [] { continue; }
      NothingIsDisplaced(folder, pin, reserved, i);
      tree := TakePinned(tree, pin, path);
    }
    assert reserved[..|reserved|] == reserved;
  }

  // ------------------------------------------------------------- a project's --

  /** A folder with a `.gitrepo` in it, the root's own aside. */
  predicate IsSubrepo(commit: Tree, d: Path) {
    d != [] && d + [GITREPO] in commit
  }

  ghost predicate Lists(nested: seq<Path>, commit: Tree, d: Path) {
    forall n :: n in nested <==> n != [] && d + n + [GITREPO] in commit
  }

  /** Whether a path under `d` is its own `.gitrepo`'s or a nested subrepo's. */
  ghost predicate NotItsOwn(commit: Tree, d: Path, p: Path) {
    [GITREPO] <= p || exists n: Path :: n != [] && n <= p && IsSubrepo(commit, d + n)
  }

  lemma ReservedIsNotItsOwn(commit: Tree, d: Path, nested: seq<Path>, p: Path)
    requires d != [] && Lists(nested, commit, d)
    ensures IsReserved(p, [[GITREPO]] + nested) <==> NotItsOwn(commit, d, p)
  {
    var reserved := [[GITREPO]] + nested;
    if IsReserved(p, reserved) && !([GITREPO] <= p) {
      var i :| 0 <= i < |reserved| && reserved[i] != [] && reserved[i] <= p;
      assert reserved[i] in nested;
      assert IsSubrepo(commit, d + reserved[i]);
    }
    if [GITREPO] <= p {
      assert reserved[0] <= p;
    } else if NotItsOwn(commit, d, p) {
      var n: Path :| n != [] && n <= p && IsSubrepo(commit, d + n);
      assert n in nested;
      var k :| 0 <= k < |nested| && nested[k] == n;
      assert reserved[k + 1] == n;
    }
  }

  /** The subrepos, and of those the ones nested in `d`, as they are listed. */
  method Nested(commit: Tree, d: Path) returns (nested: seq<Path>)
    requires d != []
    ensures Lists(nested, commit, d)
  {
    nested := [];
    var left := commit.Keys;
    while left != {}
      invariant left <= commit.Keys
      invariant forall n :: n in nested ==> n != [] && d + n + [GITREPO] in commit
      invariant forall n: Path :: n != [] && d + n + [GITREPO] in commit ==> n in nested || d + n + [GITREPO] in left
    {
      var q :| q in left;
      ghost var before := left;
      left := left - {q};
      if |q| > |d| + 1 && d <= q && q[|q| - 1] == GITREPO {
        var n := q[|d|..|q| - 1];
        assert d + n + [GITREPO] == q;
        nested := nested + [n];
      }
      forall n: Path | n != [] && d + n + [GITREPO] in commit
        ensures n in nested || d + n + [GITREPO] in left
      {
        if d + n + [GITREPO] == q {
          assert q[|d|..|q| - 1] == n;
        }
      }
    }
  }

  lemma FolderIsATree(commit: Tree, d: Path)
    requires IsTree(commit) && IsSubrepo(commit, d)
    ensures IsTree(Folder(commit, d))
    ensures forall p :: p in Folder(commit, d) <==> d + p in commit
    ensures forall p :: p in Folder(commit, d) ==> Folder(commit, d)[p] == commit[d + p]
  {
    forall p ensures p in Folder(commit, d) <==> d + p in commit {
      TailsAre(commit.Keys, d, p);
    }
    assert d + [] == d && d <= d + [GITREPO];
    forall p, q | p in Folder(commit, d) && q in Folder(commit, d) && p <= q ensures p == q {
      assert d + p <= d + q;
      assert p == (d + p)[|d|..] && q == (d + q)[|d|..];
    }
  }

  ghost predicate AgreesAt(a: Tree, b: Tree, p: Path) {
    (p in a <==> p in b) && (p in a && p in b ==> a[p] == b[p])
  }

  /** What `d` proposes at a path. */
  ghost predicate Proposes(commit: Tree, d: Path, pin: Tree, tree: Tree) {
    forall p :: if NotItsOwn(commit, d, p) then AgreesAt(tree, pin, p) else AgreesAt(tree, Folder(commit, d), p)
  }

  lemma ProposedProposes(commit: Tree, d: Path, pin: Tree, nested: seq<Path>)
    requires IsTree(commit) && IsSubrepo(commit, d) && Lists(nested, commit, d)
    ensures Proposes(commit, d, pin, Proposed(Folder(commit, d), pin, [[GITREPO]] + nested))
  {
    var reserved := [[GITREPO]] + nested;
    forall p ensures IsReserved(p, reserved) <==> NotItsOwn(commit, d, p) {
      ReservedIsNotItsOwn(commit, d, nested, p);
    }
  }

  lemma NestedAreMarked(commit: Tree, d: Path, nested: seq<Path>)
    requires IsTree(commit) && IsSubrepo(commit, d) && Lists(nested, commit, d)
    ensures Marked(Folder(commit, d), nested)
  {
    FolderIsATree(commit, d);
    forall i | 0 <= i < |nested| ensures nested[i] + [GITREPO] in Folder(commit, d) {
      assert nested[i] in nested;
      assert d + (nested[i] + [GITREPO]) == d + nested[i] + [GITREPO];
    }
  }

  /** The pin's content where it is not the project's to propose, and the folder's
   *  everywhere else; and that is a tree. */
  method Propose(commit: Tree, d: Path, pin: Tree) returns (tree: Tree)
    requires IsTree(commit) && IsTree(pin) && IsSubrepo(commit, d)
    ensures Proposes(commit, d, pin, tree)
    ensures IsTree(tree)
  {
    var nested := Nested(commit, d);
    FolderIsATree(commit, d);
    NestedAreMarked(commit, d, nested);
    tree := ProposalTree(Folder(commit, d), pin, nested);
    ProposedProposes(commit, d, pin, nested);
    ProposedIsATree(commit, d, pin, tree);
  }

  /** A file of the folder above what is not its own is not its own either. */
  lemma FileAboveIsNotItsOwn(commit: Tree, d: Path, p: Path, q: Path)
    requires IsTree(commit) && d + p in commit && p != []
    requires NotItsOwn(commit, d, q) && p <= q
    ensures NotItsOwn(commit, d, p)
  {
    if [GITREPO] <= q {
      assert p[0] == q[0];
    } else {
      var n: Path :| n != [] && n <= q && IsSubrepo(commit, d + n);
      PrefixesCompare(n, p, q);
      assert p <= n ==> d + p <= d + n + [GITREPO];
      assert |d + p| == |d| + |p| && |d + n + [GITREPO]| == |d| + |n| + 1;
    }
  }

  lemma ProposedIsATree(commit: Tree, d: Path, pin: Tree, tree: Tree)
    requires IsTree(commit) && IsTree(pin) && IsSubrepo(commit, d)
    requires Proposes(commit, d, pin, tree)
    ensures IsTree(tree)
  {
    FolderIsATree(commit, d);
    var folder := Folder(commit, d);
    assert AgreesAt(tree, pin, []) || AgreesAt(tree, folder, []);
    forall p, q | p in tree && q in tree && p <= q ensures p == q {
      assert if NotItsOwn(commit, d, p) then AgreesAt(tree, pin, p) else AgreesAt(tree, folder, p);
      assert if NotItsOwn(commit, d, q) then AgreesAt(tree, pin, q) else AgreesAt(tree, folder, q);
      if NotItsOwn(commit, d, p) {
        InheritedBelow(commit, d, p, q);
      } else {
        assert p in folder && d + p in commit && p != [];
        if NotItsOwn(commit, d, q) { FileAboveIsNotItsOwn(commit, d, p, q); }
      }
    }
  }

  lemma InheritedBelow(commit: Tree, d: Path, p: Path, q: Path)
    requires NotItsOwn(commit, d, p) && p <= q
    ensures NotItsOwn(commit, d, q)
  {
    if [GITREPO] <= p {
      assert q[0] == p[0];
    } else {
      var n: Path :| n != [] && n <= p && IsSubrepo(commit, d + n);
      assert n <= q;
    }
  }

  // ------------------------------------------------------------- the theorems --

  /** The proposal is the pin exactly when folder and pin agree on every path that
   *  is the project's to propose. */
  lemma SameExactly(commit: Tree, d: Path, pin: Tree, tree: Tree)
    requires Proposes(commit, d, pin, tree)
    ensures tree == pin <==> forall p :: !NotItsOwn(commit, d, p) ==> AgreesAt(Folder(commit, d), pin, p)
  {
    var folder := Folder(commit, d);
    if tree == pin {
      forall p | !NotItsOwn(commit, d, p) ensures AgreesAt(folder, pin, p) {
        assert AgreesAt(tree, folder, p);
      }
    }
    if forall p :: !NotItsOwn(commit, d, p) ==> AgreesAt(folder, pin, p) {
      forall p ensures AgreesAt(tree, pin, p) {
        assert NotItsOwn(commit, d, p) || AgreesAt(folder, pin, p);
      }
      TreesAgree(tree, pin);
    }
  }

  lemma TreesAgree(a: Tree, b: Tree)
    requires forall p :: AgreesAt(a, b, p)
    ensures a == b
  {
    forall p ensures p in a <==> p in b {
      assert AgreesAt(a, b, p);
    }
    forall p | p in a ensures a[p] == b[p] {
      assert AgreesAt(a, b, p);
    }
  }

  /** Once a proposal is upstream and pinned, nothing is left to propose. */
  lemma AcceptedLeavesNothing(commit: Tree, d: Path, pin: Tree, tree: Tree, again: Tree)
    requires Proposes(commit, d, pin, tree)
    requires Proposes(commit, d, tree, again)
    ensures again == tree
  {
    forall p | !NotItsOwn(commit, d, p) ensures AgreesAt(Folder(commit, d), tree, p) {
      assert AgreesAt(tree, Folder(commit, d), p);
    }
    SameExactly(commit, d, tree, again);
  }

  /** A path of the project is proposed to one repository at most, however its
   *  subrepos are nested: the innermost. */
  lemma ProposedOnce(commit: Tree, d: Path, e: Path, q: Path)
    requires IsSubrepo(commit, d) && IsSubrepo(commit, e)
    requires d <= q && !NotItsOwn(commit, d, q[|d|..])
    requires e <= q && !NotItsOwn(commit, e, q[|e|..])
    ensures d == e
  {
    PrefixesCompare(d, e, q);
    if |d| < |e| { InnerTakesIt(commit, d, e, q); }
    if |e| < |d| { InnerTakesIt(commit, e, d, q); }
  }

  lemma InnerTakesIt(commit: Tree, d: Path, e: Path, q: Path)
    requires IsSubrepo(commit, e) && d <= e <= q && |d| < |e|
    ensures NotItsOwn(commit, d, q[|d|..])
  {
    var n := e[|d|..];
    assert d + n == e;
    assert n == q[|d|..][..|n|];
  }

  // ------------------------------------------------------------- the report --

  datatype State = Same | Diff | NoPin

  /** What a `.gitrepo` says. */
  datatype Config = Config(branch: string, pin: string)

  predicate IsDependency(commit: Tree, configs: map<Path, Config>, d: Path) {
    && IsSubrepo(commit, d) && d != [RELEASE]
    && d in configs && configs[d].branch == RELEASE
  }

  ghost predicate StateIs(commit: Tree, pins: map<string, Tree>, pin: string, d: Path, s: State) {
    match s
    case NoPin => pin !in pins
    case Same => pin in pins && forall p :: !NotItsOwn(commit, d, p) ==> AgreesAt(Folder(commit, d), pins[pin], p)
    case Diff => pin in pins && exists p :: !NotItsOwn(commit, d, p) && !AgreesAt(Folder(commit, d), pins[pin], p)
  }

  /** Every dependency and no other folder, each with how it stands to its pin. */
  method Report(commit: Tree, configs: map<Path, Config>, pins: map<string, Tree>) returns (states: map<Path, State>)
    requires IsTree(commit) && forall c :: c in pins ==> IsTree(pins[c])
    ensures forall d :: d in states <==>
              && d != [] && d != ["release"] && d + [".gitrepo"] in commit
              && d in configs && configs[d].branch == "release"
    ensures forall d :: d in states ==> d in configs && StateIs(commit, pins, configs[d].pin, d, states[d])
  {
    states := map[];
    var left := configs.Keys;
    while left != {}
      invariant left <= configs.Keys
      invariant forall d :: d in states <==> IsDependency(commit, configs, d) && d !in left
      invariant forall d :: d in states ==> d in configs && StateIs(commit, pins, configs[d].pin, d, states[d])
    {
      var d :| d in left;
      left := left - {d};
      if !IsDependency(commit, configs, d) { continue; }
      var pin := configs[d].pin;
      if pin !in pins {
        states := states[d := NoPin];
        continue;
      }
      var tree := Propose(commit, d, pins[pin]);
      SameExactly(commit, d, pins[pin], tree);
      states := states[d := if tree == pins[pin] then Same else Diff];
    }
  }
}
