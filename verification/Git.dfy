/**
 * Commits, ancestry, and bundles, by what git promises about them.
 *
 * A commit is the value its hash stands for: what it says, and the commits it
 * was made on. Two commits are the same exactly when their hashes are, and no
 * commit is an ancestor of one it was made on.
 */
module Git {
  import opened Wrappers

  datatype Commit = Commit(content: nat, date: int, parents: seq<Commit>)

  type Branch = string

  // ------------------------------------------------------------- ancestry --

  /** A commit and everything its history reaches. */
  function Ancestors(c: Commit): (s: set<Commit>)
    ensures c in s
  {
    {c} + set p, a | p in c.parents && a in Ancestors(p) :: a
  }

  /** The history of a set of commits. */
  function History(tips: set<Commit>): set<Commit> {
    set t, a | t in tips && a in Ancestors(t) :: a
  }

  /** No commit without its parents: what an object store that can be walked is. */
  ghost predicate Closed(s: set<Commit>) {
    forall c, p :: c in s && p in c.parents ==> p in s
  }

  lemma {:induction false} AncestorsStayInside(c: Commit, s: set<Commit>)
    requires Closed(s) && c in s
    ensures Ancestors(c) <= s
  {
    forall p | p in c.parents ensures Ancestors(p) <= s {
      AncestorsStayInside(p, s);
    }
  }

  lemma HistoryStaysInside(tips: set<Commit>, s: set<Commit>)
    requires Closed(s) && tips <= s
    ensures History(tips) <= s
  {
    forall t | t in tips ensures Ancestors(t) <= s {
      AncestorsStayInside(t, s);
    }
  }

  lemma {:induction false} AncestryIsTransitive(a: Commit, b: Commit, c: Commit)
    requires a in Ancestors(b) && b in Ancestors(c)
    ensures a in Ancestors(c)
  {
    if b != c {
      var p :| p in c.parents && b in Ancestors(p);
      AncestryIsTransitive(a, b, p);
    }
  }

  lemma {:induction false} NoneIsBeforeItself(c: Commit, p: Commit)
    requires p in c.parents
    ensures c !in Ancestors(p)
  {
    if c in Ancestors(p) {
      assert c != p;
      var q :| q in p.parents && c in Ancestors(q);
      assert p in Ancestors(p) && p in Ancestors(c);
      AncestryIsTransitive(p, c, q);
      NoneIsBeforeItself(p, q);
    }
  }

  /** Of two commits that differ, one at most is an ancestor of the other. */
  lemma NoTwoWays(a: Commit, b: Commit)
    requires a != b && a in Ancestors(b)
    ensures b !in Ancestors(a)
  {
    var p :| p in b.parents && a in Ancestors(p);
    if b in Ancestors(a) {
      AncestryIsTransitive(b, a, p);
      NoneIsBeforeItself(b, p);
    }
  }

  lemma HistoryIsClosed(tips: set<Commit>)
    ensures Closed(History(tips)) && tips <= History(tips)
  {
    forall c, p | c in History(tips) && p in c.parents ensures p in History(tips) {
      var t :| t in tips && c in Ancestors(t);
      assert p in Ancestors(p) && p in Ancestors(c);
      AncestryIsTransitive(p, c, t);
    }
    forall t | t in tips ensures t in History(tips) {
      assert t in Ancestors(t);
    }
  }

  lemma HistoryOfOne(c: Commit)
    ensures History({c}) == Ancestors(c)
  {
  }

  lemma OneTip(b: Branch, c: Commit)
    ensures map[b := c].Values == {c}
  {
    forall v | v in map[b := c].Values ensures v == c {
      var k :| k in map[b := c] && map[b := c][k] == v;
    }
    assert b in map[b := c];
  }

  lemma HistoryGrows(tips: set<Commit>, more: set<Commit>)
    requires tips <= more
    ensures History(tips) <= History(more)
  {
  }

  // -------------------------------------------------------------- bundles --

  /** What a bundle file says and holds. */
  datatype Bundle = Bundle(refs: map<Branch, Commit>, contents: set<Commit>, prerequisites: set<Commit>)

  /** The commits just outside `contents` that something in it was made on. */
  function Boundary(contents: set<Commit>): set<Commit> {
    set c, p | c in contents && p in c.parents && p !in contents :: p
  }

  /**
   * `git bundle create <file> <tips> ^<excluded>`: the history of the tips less
   * that of the excluded commits, with the boundary as prerequisites. A ref the
   * exclusions cover is left out, and git refuses to write a bundle of no refs.
   */
  function CutBundle(tips: map<Branch, Commit>, excluded: set<Commit>): (r: Option<Bundle>) {
    var refs := map b | b in tips && tips[b] !in History(excluded) :: tips[b];
    var contents := History(tips.Values) - History(excluded);
    if refs == map[] then None else Some(Bundle(refs, contents, Boundary(contents)))
  }

  /** git makes no bundle exactly when there is no commit to put in one. */
  lemma NoBundleMeansNothingToSend(tips: map<Branch, Commit>, excluded: set<Commit>)
    ensures CutBundle(tips, excluded).None? <==> History(tips.Values) <= History(excluded)
  {
    HistoryIsClosed(tips.Values);
    HistoryIsClosed(excluded);
    var refs := map b | b in tips && tips[b] !in History(excluded) :: tips[b];
    if refs == map[] {
      forall t | t in tips.Values ensures t in History(excluded) {
        var b :| b in tips && tips[b] == t;
        assert b !in refs;
      }
      HistoryStaysInside(tips.Values, History(excluded));
    } else {
      var b :| b in refs;
      assert tips[b] in tips.Values;
    }
  }

  /** What the other side has, it has all of: no prerequisite is news to it. */
  lemma PrerequisitesAreExcludedHistory(tips: map<Branch, Commit>, excluded: set<Commit>, store: set<Commit>)
    requires Closed(store) && excluded <= store
    requires CutBundle(tips, excluded).Some?
    ensures CutBundle(tips, excluded).value.prerequisites <= store
  {
    HistoryIsClosed(tips.Values);
    HistoryStaysInside(excluded, store);
  }

  /** A closed store that has the prerequisites stays closed under the contents. */
  lemma TakingABundleKeepsClosed(tips: map<Branch, Commit>, excluded: set<Commit>, store: set<Commit>)
    requires Closed(store)
    requires CutBundle(tips, excluded).Some?
    requires CutBundle(tips, excluded).value.prerequisites <= store
    ensures Closed(store + CutBundle(tips, excluded).value.contents)
  {
    var bundle := CutBundle(tips, excluded).value;
    forall c, p | c in store + bundle.contents && p in c.parents
      ensures p in store + bundle.contents
    {
      if c !in store && p !in bundle.contents {
        assert p in bundle.prerequisites;
      }
    }
  }

  /** Whatever was left out of it, a bundle that a closed store can take and
   *  that brings every tip has made the store what the full one would. */
  lemma AnyCutIsTheFullOne(tips: map<Branch, Commit>, excluded: set<Commit>, store: set<Commit>)
    requires Closed(store)
    requires CutBundle(tips, excluded).Some?
    requires CutBundle(tips, excluded).value.prerequisites <= store
    requires tips.Values <= store + CutBundle(tips, excluded).value.contents
    ensures store + CutBundle(tips, excluded).value.contents == store + History(tips.Values)
  {
    TakingABundleKeepsClosed(tips, excluded, store);
    HistoryStaysInside(tips.Values, store + CutBundle(tips, excluded).value.contents);
  }

  /** The full bundle asks for nothing. */
  lemma FullBundleHasNoPrerequisites(tips: map<Branch, Commit>)
    requires tips != map[]
    ensures CutBundle(tips, {}).Some?
    ensures CutBundle(tips, {}).value.prerequisites == {}
    ensures CutBundle(tips, {}).value.contents == History(tips.Values)
    ensures CutBundle(tips, {}).value.refs == tips
  {
    HistoryIsClosed(tips.Values);
    assert History({}) == {};
    var b :| b in tips;
    assert b in (map b | b in tips && tips[b] !in History({}) :: tips[b]);
  }
}
