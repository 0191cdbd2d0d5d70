/**
 * `desolate --pull` and `--push`: a project's branches and its remote's,
 * exchanged through the editor's cache as bundles cut against a guess.
 */
module Transfer {
  import opened Git
  import opened Text
  import opened Collections
  import opened Wrappers

  const KNOWN_MAX := 500
  const HAVES_MAX := 200
  const ORIGIN_HEAD: Branch := "HEAD"

  /** `<commit> <name>` lines: the `.refs` file, and what `for-each-ref` prints. */
  type Listing = seq<(Commit, Branch)>

  ghost predicate Lists(listing: Listing, branches: map<Branch, Commit>) {
    && (forall i :: 0 <= i < |listing| ==> listing[i].1 in branches && branches[listing[i].1] == listing[i].0)
    && (forall b :: b in branches ==> exists i :: 0 <= i < |listing| && listing[i].1 == b)
  }

  ghost predicate NewestFirst(listing: Listing) {
    forall i, j :: 0 <= i < j < |listing| ==> listing[i].0.date >= listing[j].0.date
  }

  /** The same values, each once, where it first stands: `[...new Set(values)]`. */
  function Unique(values: seq<Commit>): (r: seq<Commit>)
    ensures forall v :: v in r <==> v in values
    ensures forall i, j :: 0 <= i < j < |r| ==> r[i] != r[j]
  {
    if values == [] then []
    else
      var last := values[|values| - 1];
      var front := Unique(values[..|values| - 1]);
      if last in front then front else front + [last]
  }

  function Take<T>(values: seq<T>, n: nat): (r: seq<T>)
    ensures r <= values && |r| == if |values| <= n then |values| else n
  {
    if |values| <= n then values else values[..n]
  }

  lemma TakeKeeps<T>(a: seq<T>, values: seq<T>, n: nat)
    requires a <= values && |a| <= n
    ensures a <= Take(values, n)
  {
  }

  /** What `remember` leaves in the `.known` file. */
  function Remembered(commits: seq<Commit>, known: seq<Commit>): seq<Commit> {
    Take(Unique(commits + known), KNOWN_MAX)
  }

  function Present(values: seq<Commit>, store: set<Commit>): (r: seq<Commit>)
    ensures forall v :: v in r <==> v in values && v in store
  {
    if values == [] then []
    else (if values[0] in store then [values[0]] else []) + Present(values[1..], store)
  }

  // -------------------------------------------------------- what is pulled --

  /** A project's git, as a value. */
  datatype ProjectState = ProjectState(
    commits: set<Commit>,
    heads: map<Branch, Commit>,
    origin: map<Branch, Commit>,
    incoming: map<Branch, Commit>,
    checkedOut: Option<Branch>)
  {
    /** A store that can be walked, and refs that name commits in it. */
    ghost predicate Sound() {
      && Closed(commits)
      && heads.Values <= commits
      && origin.Values <= commits
      && incoming.Values <= commits
    }
  }

  /** What a sandbox says a pull came to. */
  datatype Outcome =
    | NeedsFull
    | Fetched(on: Option<Branch>)
    | Current(branch: Branch)
    | Diverged(branch: Branch)
    | FastForwarded(branch: Branch)
    | Blocked(branch: Branch)

  /** The remote-tracking branches, made exactly the remote's; only a
   *  remote-tracking HEAD outlives that. */
  function OriginAfter(origin: map<Branch, Commit>, tips: map<Branch, Commit>): map<Branch, Commit> {
    (map b | b in origin && b == ORIGIN_HEAD :: origin[b]) + tips
  }

  /** What becomes of the branch checked out, once the tracking branches are `origin`. */
  function Verdict(heads: map<Branch, Commit>, origin: map<Branch, Commit>, checkedOut: Option<Branch>,
                   fetchOnly: bool, inTheWay: bool): Outcome
  {
    if fetchOnly || checkedOut.None? then Fetched(None)
    else
      var branch := checkedOut.value;
      if branch !in origin then Fetched(Some(branch))
      else if branch !in heads then Diverged(branch)
      else if origin[branch] in Ancestors(heads[branch]) then Current(branch)
      else if heads[branch] !in Ancestors(origin[branch]) then Diverged(branch)
      else if inTheWay then Blocked(branch)
      else FastForwarded(branch)
  }

  /** Where every pull of `tips` that succeeds ends, whatever was guessed. */
  ghost function Pulled(s: ProjectState, tips: map<Branch, Commit>, fetchOnly: bool, inTheWay: bool)
    : (ProjectState, Outcome)
  {
    var origin := OriginAfter(s.origin, tips);
    var outcome := Verdict(s.heads, origin, s.checkedOut, fetchOnly, inTheWay);
    var heads := if outcome.FastForwarded? then s.heads[outcome.branch := origin[outcome.branch]] else s.heads;
    (ProjectState(s.commits + History(tips.Values), heads, origin, map[], s.checkedOut), outcome)
  }

  /** What a pull that stopped halfway may have left: commits nothing but a
   *  scratch ref names yet. */
  ghost predicate Untouched(before: ProjectState, after: ProjectState, tips: map<Branch, Commit>) {
    && before.commits <= after.commits <= before.commits + History(tips.Values)
    && after.heads == before.heads && after.origin == before.origin && after.checkedOut == before.checkedOut
  }

  /** A pull leaves a store that can be walked, and refs that name commits in it. */
  lemma PullKeepsSound(s: ProjectState, tips: map<Branch, Commit>, fetchOnly: bool, inTheWay: bool)
    requires s.Sound()
    ensures Pulled(s, tips, fetchOnly, inTheWay).0.Sound()
  {
    HistoryIsClosed(tips.Values);
    var (after, outcome) := Pulled(s, tips, fetchOnly, inTheWay);
    var origin := after.origin;
    assert origin.Values <= s.origin.Values + tips.Values;
    assert origin.Values <= after.commits;
    if outcome.FastForwarded? {
      assert outcome.branch in origin && origin[outcome.branch] in origin.Values;
    }
  }

  // ------------------------------------------------------------ the places --

  /** The registered repository: its branches, and which is its default. */
  class Remote {
    var branches: map<Branch, Commit>
    var default: Option<Branch>

    constructor (branches: map<Branch, Commit>, default: Option<Branch>)
      ensures this.branches == branches && this.default == default
    {
      this.branches, this.default := branches, default;
    }
  }

  /** The editor's bare repository of one remote, and its `.known` file. */
  class Cache {
    var commits: set<Commit>
    var branches: map<Branch, Commit>
    var outgoing: map<Branch, Commit>
    var known: seq<Commit>

    /** Every branch can be walked: what git itself keeps up. */
    ghost predicate Connected()
      reads this
    {
      History(branches.Values) <= commits
    }

    constructor ()
      ensures Connected() && Closed(commits) && known == []
    {
      commits, branches, outgoing, known := {}, map[], map[], [];
    }

    /** Fetch every branch of the remote, pruning those it no longer has. */
    method Refresh(remote: Remote, reached: bool)
      requires Connected()
      modifies this`commits, this`branches
      ensures Connected()
      ensures reached ==> branches == remote.branches
      ensures reached ==> commits == old(commits) + History(remote.branches.Values)
      ensures !reached ==> commits == old(commits) && branches == old(branches)
      ensures old(Closed(commits)) ==> Closed(commits)
    {
      if reached {
        HistoryIsClosed(remote.branches.Values);
        commits := commits + History(remote.branches.Values);
        branches := remote.branches;
      }
    }

    /** Every branch with its commit, the newest first. */
    method BranchesOf() returns (listing: Listing)
      ensures Lists(listing, branches) && NewestFirst(listing)
    {
      listing := [];
      var left := branches.Keys;
      while left != {}
        invariant left <= branches.Keys && NewestFirst(listing)
        invariant forall i, b :: 0 <= i < |listing| && b in left ==> listing[i].0.date >= branches[b].date
        invariant forall i :: 0 <= i < |listing| ==> listing[i].1 in branches && branches[listing[i].1] == listing[i].0
        invariant forall b :: b in branches && b !in left ==> exists i :: 0 <= i < |listing| && listing[i].1 == b
      {
        var b := Newest(left);
        listing := listing + [(branches[b], b)];
        assert listing[|listing| - 1].1 == b;
        forall c | c in branches && c !in left - {b}
          ensures exists i :: 0 <= i < |listing| && listing[i].1 == c
        {
          if c != b {
            var i :| 0 <= i < |listing| - 1 && listing[..|listing| - 1][i].1 == c;
            assert listing[i].1 == c;
          }
        }
        left := left - {b};
      }
    }

    /** One of those that were committed last. */
    method Newest(names: set<Branch>) returns (newest: Branch)
      requires names != {} && names <= branches.Keys
      ensures newest in names && forall b :: b in names ==> branches[b].date <= branches[newest].date
    {
      newest :| newest in names;
      var left := names - {newest};
      while left != {}
        invariant left <= names && newest in names
        invariant forall b :: b in names && b !in left ==> branches[b].date <= branches[newest].date
      {
        var b :| b in left;
        if branches[b].date > branches[newest].date { newest := b; }
        left := left - {b};
      }
    }

    /** Take the sandbox's bundle as `outgoing`, held to the commit it said --
     *  or, when it sent none, find that commit here. */
    method Receive(answer: Answer) returns (fault: Option<Fault>)
      requires Connected()
      modifies this`commits, this`outgoing
      ensures Connected()
      ensures fault.None? <==> Receivable(answer, old(commits))
      ensures fault.None? ==> answer.commit in commits
      ensures fault.None? && answer.bundled ==>
                && answer.file.Some? && answer.file.value.prerequisites <= old(commits)
                && answer.branch in answer.file.value.refs && answer.file.value.refs[answer.branch] == answer.commit
                && Ancestors(answer.commit) <= commits
                && commits == old(commits) + answer.file.value.contents
                && outgoing == old(outgoing)[answer.branch := answer.commit]
      ensures fault.Some? ==> Faults(fault.value, answer, old(commits))
      ensures !answer.bundled ==> commits == old(commits) && outgoing == old(outgoing)
      ensures fault.Some? ==> old(commits) <= commits
      ensures forall haves :: old(Closed(commits)) && haves <= old(commits) && Honest(answer, haves) ==>
                Closed(commits) && fault.None?
    {
      forall haves | old(Closed(commits)) && haves <= old(commits) && Honest(answer, haves)
        ensures Receivable(answer, commits)
        ensures answer.file.Some? && answer.bundled ==> Closed(commits + answer.file.value.contents)
      {
        HonestIsReceivable(answer, haves, commits);
      }
      if !answer.bundled {
        return if answer.commit in commits then None else Some(SentNothing);
      }
      if answer.file.None? { return Some(NoFile); }
      var bundle := answer.file.value;
      if !Fetchable(bundle, answer.branch, commits) { return Some(NotFetched); }
      commits := commits + bundle.contents;
      outgoing := outgoing[answer.branch := bundle.refs[answer.branch]];
      if outgoing[answer.branch] != answer.commit { return Some(WrongHead); }
      assert answer.commit in Ancestors(answer.commit);
      return None;
    }

    /** What the remote has taken is its branch here too, and known to the project. */
    method Settle(branch: Branch, commit: Commit)
      requires Connected() && Ancestors(commit) <= commits
      modifies this`branches, this`outgoing, this`known
      ensures Connected()
      ensures branches == old(branches)[branch := commit] && outgoing == old(outgoing) - {branch}
      ensures known == Remembered([commit], old(known))
    {
      assert branches[branch := commit].Values <= branches.Values + {commit};
      branches := branches[branch := commit];
      outgoing := outgoing - {branch};
      Remember([commit]);
    }

    method Remember(commits: seq<Commit>)
      modifies this`known
      ensures known == Remembered(commits, old(known))
    {
      known := Remembered(commits, known);
    }
  }

  /** A project's own repository, as its sandbox sees it. */
  class Project {
    var commits: set<Commit>
    var heads: map<Branch, Commit>
    var origin: map<Branch, Commit>
    var incoming: map<Branch, Commit>
    var checkedOut: Option<Branch>
    /** Whether uncommitted changes would stop a fast-forward merge. */
    var inTheWay: bool

    constructor (commits: set<Commit>, heads: map<Branch, Commit>, checkedOut: Option<Branch>, inTheWay: bool)
      requires Closed(commits) && heads.Values <= commits
      ensures State().Sound()
    {
      this.commits, this.heads, this.checkedOut, this.inTheWay := commits, heads, checkedOut, inTheWay;
      origin, incoming := map[], map[];
    }

    ghost function State(): ProjectState
      reads this
    {
      ProjectState(commits, heads, origin, incoming, checkedOut)
    }

    predicate OnABranch()
      reads this
    {
      checkedOut.Some? && checkedOut.value in heads
    }

    function Head(): Commit
      requires OnABranch()
      reads this
    {
      heads[checkedOut.value]
    }

    /** `git cat-file -e` on every listed commit. */
    method HasEvery(refs: Listing) returns (all: bool)
      ensures all <==> forall i :: 0 <= i < |refs| ==> refs[i].0 in commits
    {
      for i := 0 to |refs|
        invariant forall j :: 0 <= j < i ==> refs[j].0 in commits
      {
        if refs[i].0 !in commits { return false; }
      }
      return true;
    }

    /** One `update-ref` for each listed branch. */
    method SetOrigin(refs: Listing, ghost tips: map<Branch, Commit>)
      requires Lists(refs, tips)
      modifies this`origin
      ensures origin == old(origin) + tips
    {
      for i := 0 to |refs|
        invariant forall b :: b in origin ==> b in old(origin) || b in tips
        invariant forall b :: b in old(origin) ==> b in origin
        invariant forall b :: b in origin && b !in tips ==> origin[b] == old(origin)[b]
        invariant forall b :: b in origin && b in tips ==>
                    origin[b] == tips[b] || (b in old(origin) && origin[b] == old(origin)[b])
        invariant forall j :: 0 <= j < i ==> refs[j].1 in origin && origin[refs[j].1] == tips[refs[j].1]
      {
        origin := origin[refs[i].1 := refs[i].0];
      }
      assert origin.Keys == old(origin).Keys + tips.Keys;
    }

    /** Every tracking branch the remote no longer has goes, and every scratch ref. */
    method Prune(refs: Listing, ghost tips: map<Branch, Commit>)
      requires Lists(refs, tips)
      modifies this`origin, this`incoming
      ensures incoming == map[]
      ensures origin == map b | b in old(origin) && (b == ORIGIN_HEAD || b in tips) :: old(origin)[b]
    {
      var left := origin.Keys;
      while left != {}
        invariant left <= origin.Keys <= old(origin).Keys
        invariant forall b :: b in origin ==> origin[b] == old(origin)[b]
        invariant forall b :: b in old(origin) && (b == ORIGIN_HEAD || b in tips) ==> b in origin
        invariant forall b :: b in origin && b !in left ==> b == ORIGIN_HEAD || b in tips
      {
        var old_ :| old_ in left;
        left := left - {old_};
        if old_ != ORIGIN_HEAD && !(exists i :: 0 <= i < |refs| && refs[i].1 == old_) {
          origin := origin - {old_};
        }
      }
      incoming := map[];
    }

    /** `bundle verify`, then `fetch` into scratch refs. False when the project
     *  lacks a prerequisite, or git finds it unconnected to the project's refs. */
    method TakeBundle(bundle: Bundle, turn: Turn, ghost tips: map<Branch, Commit>, ghost excluded: set<Commit>)
      returns (verified: bool, fetched: bool)
      requires State().Sound()
      requires CutBundle(tips, excluded) == Some(bundle)
      modifies this`commits, this`incoming
      ensures State().Sound()
      ensures verified <==> bundle.prerequisites == {} || (bundle.prerequisites <= old(commits) && turn.connected)
      ensures fetched <==> verified && turn.fetched
      ensures fetched ==> commits == old(commits) + bundle.contents && incoming == old(incoming) + bundle.refs
      ensures !fetched ==> State() == old(State())
    {
      verified := bundle.prerequisites == {} || (bundle.prerequisites <= commits && turn.connected);
      fetched := verified && turn.fetched;
      if fetched {
        TakingABundleKeepsClosed(tips, excluded, commits);
        BundledRefsAreInside(tips, excluded);
        commits := commits + bundle.contents;
        incoming := incoming + bundle.refs;
      }
    }

    /** Fast-forward the branch checked out to its own tracking branch, if that can be. */
    method Advance(fetchOnly: bool) returns (said: Outcome)
      modifies this`heads
      ensures said == Verdict(old(heads), origin, checkedOut, fetchOnly, inTheWay)
      ensures heads == if said.FastForwarded? then old(heads)[said.branch := origin[said.branch]] else old(heads)
    {
      if fetchOnly { return Fetched(None); }
      if checkedOut.None? { return Fetched(None); }
      var branch := checkedOut.value;
      if branch !in origin { return Fetched(Some(branch)); }
      if branch in heads && origin[branch] in Ancestors(heads[branch]) { return Current(branch); }
      if !(branch in heads && heads[branch] in Ancestors(origin[branch])) { return Diverged(branch); }
      if inTheWay { return Blocked(branch); }
      heads := heads[branch := origin[branch]];
      return FastForwarded(branch);
    }

    /** The tracking branches, made exactly the listed ones. */
    method Track(refs: Listing, ghost tips: map<Branch, Commit>)
      requires Lists(refs, tips)
      modifies this`origin, this`incoming
      ensures origin == OriginAfter(old(origin), tips) && incoming == map[]
    {
      SetOrigin(refs, tips);
      Prune(refs, tips);
    }

    /** Every listed commit is here: track them, and see to the branch checked out. */
    method Settle(refs: Listing, fetchOnly: bool, ghost tips: map<Branch, Commit>) returns (said: Outcome)
      requires Lists(refs, tips) && History(tips.Values) <= commits
      modifies this`heads, this`origin, this`incoming
      ensures (State(), said) == Pulled(old(State()), tips, fetchOnly, inTheWay)
    {
      Track(refs, tips);
      said := Advance(fetchOnly);
      assert commits == commits + History(tips.Values);
    }

    /** All that follows the fetch: nothing at all, if a listed commit is not here. */
    method SettleIfWhole(refs: Listing, fetchOnly: bool, ghost tips: map<Branch, Commit>) returns (said: Outcome)
      requires Lists(refs, tips) && (tips.Values <= commits ==> History(tips.Values) <= commits)
      modifies this`heads, this`origin, this`incoming
      ensures said.NeedsFull? <==> !(tips.Values <= commits)
      ensures said.NeedsFull? ==> State() == old(State())
      ensures !said.NeedsFull? ==> (State(), said) == Pulled(old(State()), tips, fetchOnly, inTheWay)
    {
      ListedAreHere(refs, tips, commits);
      var all := HasEvery(refs);
      if !all { return NeedsFull; }
      said := Settle(refs, fetchOnly, tips);
    }

    /**
     * The sandbox's half of a push: the branch checked out, less what the
     * editor's cache has; or word that the cache has all of it. A commit the
     * project itself lacks cannot be left out, so such a have is passed over.
     */
    method BundleScript(haves: seq<Commit>, written: bool) returns (answer: Option<Answer>)
      ensures answer.Some? ==>
                && checkedOut == Some(answer.value.branch)
                && answer.value.branch in heads && answer.value.commit == heads[answer.value.branch]
                && Honest(answer.value, SetOf(haves))
      ensures answer.Some? && answer.value.bundled ==>
                answer.value.file == CutBundle(map[answer.value.branch := answer.value.commit], SetOf(haves) * commits)
      ensures answer.Some? && !answer.value.bundled ==> answer.value.commit in History(SetOf(haves) * commits)
      ensures OnABranch() && written ==> answer.Some?
      ensures !written || !OnABranch() ==> answer.None? || !answer.value.bundled
      ensures OnABranch() && Head() in History(SetOf(haves) * commits) ==> answer.Some? && !answer.value.bundled
    {
      if checkedOut.None? || checkedOut.value !in heads { return None; }
      var branch, commit := checkedOut.value, heads[checkedOut.value];
      var excludes := {};
      for i := 0 to |haves|
        invariant excludes == SetOf(haves[..i]) * commits
      {
        assert haves[..i + 1] == haves[..i] + [haves[i]];
        if haves[i] in commits { excludes := excludes + {haves[i]}; }
      }
      assert haves[..|haves|] == haves;
      var toSend := Ancestors(commit) - History(excludes);
      CoveredExactly(commit, excludes);
      if excludes != {} && toSend == {} {
        HistoryGrows(excludes, SetOf(haves));
        return Some(Answer(branch, commit, false, None));
      }
      var bundle := CutBundle(map[branch := commit], excludes);
      assert bundle.Some? by {
        NoBundleMeansNothingToSend(map[branch := commit], excludes);
        OneTip(branch, commit);
        HistoryOfOne(commit);
      }
      if !written { return None; }
      return Some(Answer(branch, commit, true, bundle));
    }

    /** The bundle, if there is one: what it brings is the tips' history, and a store
     *  that then has every tip has all of that. */
    method TakeAny(bundle: Option<Bundle>, turn: Turn, ghost tips: map<Branch, Commit>, ghost excluded: set<Commit>)
      returns (verified: bool, fetched: bool)
      requires State().Sound() && bundle == CutBundle(tips, excluded)
      modifies this`commits, this`incoming
      ensures State().Sound()
      ensures verified <==> Verifies(bundle, old(commits), turn)
      ensures fetched <==> verified && (bundle.None? || turn.fetched)
      ensures fetched ==> commits == old(commits) + (if bundle.None? then {} else bundle.value.contents)
      ensures old(commits) <= commits <= old(commits) + History(tips.Values)
      ensures fetched && tips.Values <= commits ==> commits == old(commits) + History(tips.Values)
      ensures excluded == {} ==> verified && (fetched ==> tips.Values <= commits)
    {
      if bundle.Some? {
        if excluded == {} { FullBundleBringsEveryTip(tips); }
        verified, fetched := TakeBundle(bundle.value, turn, tips, excluded);
      } else {
        verified, fetched := true, true;
      }
      if fetched { CutsEndAlike(tips, excluded, old(commits), commits); }
    }

    /**
     * The sandbox's half of a pull. `bundle` is what the editor cut for `tips`
     * less the history of `excluded`; absent, the editor had nothing to send.
     * No answer is a script that failed before it set anything.
     */
    method PullScript(bundle: Option<Bundle>, refs: Listing, fetchOnly: bool, turn: Turn,
                      ghost tips: map<Branch, Commit>, ghost excluded: set<Commit>) returns (said: Option<Outcome>)
      requires State().Sound()
      requires Lists(refs, tips) && bundle == CutBundle(tips, excluded)
      modifies this`commits, this`heads, this`origin, this`incoming
      ensures State().Sound()
      ensures said.Some? && !said.value.NeedsFull? ==>
                (State(), said.value) == Pulled(old(State()), tips, fetchOnly, inTheWay)
      ensures said.None? || said.value.NeedsFull? ==> Untouched(old(State()), State(), tips)
      ensures excluded == {} ==> said != Some(NeedsFull)
      ensures said == Some(NeedsFull) <==>
                || !Verifies(bundle, old(commits), turn)
                || ((bundle.None? || turn.fetched) && Misses(bundle, old(commits), tips))
      ensures said.None? ==> bundle.Some? && !turn.fetched
    {
      var verified, fetched := TakeAny(bundle, turn, tips, excluded);
      if !verified { return Some(NeedsFull); }
      if !fetched { return None; }
      NoTipIsMissed(tips, bundle, old(commits), commits);
      PullFromHalfway(old(State()), State(), tips, fetchOnly, inTheWay);
      PullKeepsSound(old(State()), tips, fetchOnly, inTheWay);
      var outcome := SettleIfWhole(refs, fetchOnly, tips);
      return Some(outcome);
    }
  }

  /** `git bundle verify`: nothing is wanted, or all that is, connected to a ref. */
  predicate Verifies(bundle: Option<Bundle>, store: set<Commit>, turn: Turn) {
    bundle.None? || bundle.value.prerequisites == {} || (bundle.value.prerequisites <= store && turn.connected)
  }

  /** A tip is neither in the store nor in the bundle. */
  ghost predicate Misses(bundle: Option<Bundle>, store: set<Commit>, tips: map<Branch, Commit>) {
    exists b :: b in tips && tips[b] !in store && (bundle.None? || tips[b] !in bundle.value.contents)
  }

  lemma NoTipIsMissed(tips: map<Branch, Commit>, bundle: Option<Bundle>, before: set<Commit>, after: set<Commit>)
    requires after == before + (if bundle.None? then {} else bundle.value.contents)
    ensures tips.Values <= after <==> !Misses(bundle, before, tips)
  {
    if !(tips.Values <= after) {
      var t :| t in tips.Values && t !in after;
      var b :| b in tips && tips[b] == t;
      assert Misses(bundle, before, tips);
    } else {
      assert forall b :: b in tips ==> tips[b] in tips.Values;
    }
  }

  lemma ListedAreHere(refs: Listing, tips: map<Branch, Commit>, store: set<Commit>)
    requires Lists(refs, tips)
    ensures (forall i :: 0 <= i < |refs| ==> refs[i].0 in store) <==> tips.Values <= store
  {
    if forall i :: 0 <= i < |refs| ==> refs[i].0 in store {
      forall b | b in tips ensures tips[b] in store {
        var i :| 0 <= i < |refs| && refs[i].1 == b;
      }
    }
  }

  /** There is nothing to send of a commit exactly when what is left out covers it. */
  lemma CoveredExactly(commit: Commit, excludes: set<Commit>)
    ensures Ancestors(commit) - History(excludes) == {} <==> commit in History(excludes)
    ensures commit in History(excludes) ==> excludes != {}
  {
    HistoryIsClosed(excludes);
    if commit in History(excludes) { AncestorsStayInside(commit, History(excludes)); }
    if Ancestors(commit) - History(excludes) == {} {
      assert commit in Ancestors(commit) && commit !in Ancestors(commit) - History(excludes);
    }
  }

  lemma FullBundleBringsEveryTip(tips: map<Branch, Commit>)
    ensures CutBundle(tips, {}).Some? ==>
              CutBundle(tips, {}).value.prerequisites == {} && tips.Values <= CutBundle(tips, {}).value.contents
    ensures CutBundle(tips, {}).None? ==> tips == map[]
  {
    HistoryIsClosed(tips.Values);
    if tips != map[] { FullBundleHasNoPrerequisites(tips); }
    NoBundleMeansNothingToSend(tips, {});
  }

  /** After whatever bundle was cut -- or none, when none was -- a store that
   *  has every tip has become exactly itself with the tips' history. */
  lemma CutsEndAlike(tips: map<Branch, Commit>, excluded: set<Commit>, before: set<Commit>, after: set<Commit>)
    requires Closed(before)
    requires CutBundle(tips, excluded).None? ==> after == before
    requires CutBundle(tips, excluded).Some? ==>
               var bundle := CutBundle(tips, excluded).value;
               bundle.prerequisites <= before && after == before + bundle.contents
    ensures before <= after <= before + History(tips.Values)
    ensures tips.Values <= after ==> after == before + History(tips.Values)
    ensures excluded == {} ==> tips.Values <= after
  {
    if tips.Values <= after {
      if CutBundle(tips, excluded).Some? { AnyCutIsTheFullOne(tips, excluded, before); }
      else { HistoryStaysInside(tips.Values, before); }
    }
    if excluded == {} { FullBundleBringsEveryTip(tips); }
  }

  lemma BundledRefsAreInside(tips: map<Branch, Commit>, excluded: set<Commit>)
    requires CutBundle(tips, excluded).Some?
    ensures var bundle := CutBundle(tips, excluded).value;
      forall b :: b in bundle.refs ==> b in tips && bundle.refs[b] == tips[b] && tips[b] in bundle.contents
  {
    HistoryIsClosed(tips.Values);
    var bundle := CutBundle(tips, excluded).value;
    forall b | b in bundle.refs ensures tips[b] in bundle.contents {
      assert tips[b] in tips.Values;
    }
  }

  // ------------------------------------------------------------------ pull --

  datatype PullResult = Done(outcome: Outcome) | NotReached | NoBranches | NotTaken | StillLacks

  /** How a handover goes: whether the sandbox runs it at all, whether git finds the
   *  bundle's prerequisites connected, whether it fetches, and whether word gets back. */
  datatype Turn = Turn(ran: bool, connected: bool, fetched: bool, heard: bool) {
    predicate Goes() { ran && fetched && heard }
  }

  /** How a pull goes: whether the remote is reached, and one handover or two. */
  datatype Course = Course(reached: bool, first: Turn, again: Turn)

  /** What the project is thought to have, and may be left out: no guess at all when
   *  everything is to be sent. */
  function LeftOut(known: seq<Commit>, store: set<Commit>, full: bool): set<Commit> {
    if full then {} else SetOf(known) * store
  }

  /** A guess proves wrong: the project cannot take what was cut by it, or lacks a tip after. */
  ghost predicate Falls(store: set<Commit>, tips: map<Branch, Commit>, excluded: set<Commit>, turn: Turn) {
    || !Verifies(CutBundle(tips, excluded), store, turn)
    || Misses(CutBundle(tips, excluded), store, tips)
  }

  /** One handover: what the project lacks -- all of it when `full` -- and the
   *  remote's branches beside it; the sandbox's answer, or none. */
  method HandOver(project: Project, cache: Cache, refs: Listing, full: bool, fetchOnly: bool, turn: Turn)
    returns (said: Option<Outcome>, ghost sent: Option<Bundle>)
    requires project.State().Sound() && Lists(refs, cache.branches)
    modifies project`commits, project`heads, project`origin, project`incoming
    ensures project.State().Sound()
    ensures sent == CutBundle(cache.branches, if full then {} else SetOf(cache.known) * cache.commits)
    ensures said.Some? && !said.value.NeedsFull? ==>
              (project.State(), said.value) == Pulled(old(project.State()), cache.branches, fetchOnly, project.inTheWay)
    ensures said == Some(NeedsFull) ==> Untouched(old(project.State()), project.State(), cache.branches)
    ensures said.None? ==>
              || Untouched(old(project.State()), project.State(), cache.branches)
              || project.State() == Pulled(old(project.State()), cache.branches, fetchOnly, project.inTheWay).0
    ensures full ==> said != Some(NeedsFull)
    ensures said.None? ==> !turn.Goes()
    ensures turn.Goes() ==>
              (said == Some(NeedsFull) <==>
                Falls(old(project.commits), cache.branches, LeftOut(cache.known, cache.commits, full), turn))
    ensures !turn.ran || !turn.heard ==> said.None?
    ensures !turn.ran ==> project.State() == old(project.State())
  {
    var excluded := if full then [] else Present(cache.known, cache.commits);
    assert SetOf(excluded) == LeftOut(cache.known, cache.commits, full);
    var bundle := CutBundle(cache.branches, SetOf(excluded));
    sent := bundle;
    // The target may be busy, or the broker gone: nothing ran.
    if !turn.ran { return None, sent; }
    said := project.PullScript(bundle, refs, fetchOnly, turn, cache.branches, SetOf(excluded));
    // Or it ran, and what it said was lost.
    if !turn.heard { said := None; }
  }

  /** Fetch the remote's branches into the project, and fast-forward the branch
   *  checked out. What a guess left out is sent whole, once. */
  method Pull(project: Project, cache: Cache, remote: Remote, fetchOnly: bool, course: Course)
    returns (result: PullResult, handovers: nat)
    requires project.State().Sound() && cache.Connected()
    modifies project`commits, project`heads, project`origin, project`incoming
    modifies cache`commits, cache`branches, cache`known
    ensures project.State().Sound() && cache.Connected()
    ensures old(Closed(cache.commits)) ==> Closed(cache.commits)
    ensures result != StillLacks && handovers <= 2
    ensures result.Done? ==>
              var pulled := Pulled(old(project.State()), remote.branches, fetchOnly, project.inTheWay);
              (project.State(), result.outcome) == pulled
    ensures result.Done? ==> KnowsTips(cache.known, remote.branches, old(cache.known))
    ensures !result.Done? ==>
              || Untouched(old(project.State()), project.State(), remote.branches)
              || project.State() == Pulled(old(project.State()), remote.branches, fetchOnly, project.inTheWay).0
    ensures !result.Done? ==> cache.known == old(cache.known)
    ensures cache.branches == if course.reached then remote.branches else old(cache.branches)
    ensures result.NotReached? <==> !course.reached
    ensures result.NoBranches? <==> course.reached && remote.branches == map[]
    ensures result.NotReached? || result.NoBranches? ==> handovers == 0 && project.State() == old(project.State())
    ensures result.NotTaken? ==> !(if handovers == 1 then course.first else course.again).Goes()
    ensures course.reached && remote.branches != map[] && course.first.Goes() && course.again.Goes() ==> result.Done?
    ensures course == Course(true, Turn(true, true, true, true), Turn(true, true, true, true)) ==>
              if remote.branches == map[] then result.NoBranches? else result.Done?
    ensures course.reached && remote.branches != map[] && course.first.Goes() ==>
              var excluded := LeftOut(old(cache.known), cache.commits, false);
              handovers == 2 <==> Falls(old(project.commits), remote.branches, excluded, course.first)
    ensures result.Done? || result.NotTaken? ==> handovers >= 1
  {
    handovers := 0;
    cache.Refresh(remote, course.reached);
    if !course.reached { return NotReached, handovers; }
    var refs := cache.BranchesOf();
    if refs == [] { return NoBranches, handovers; }
    assert refs[0].1 in remote.branches;
    ghost var excluded := LeftOut(cache.known, cache.commits, false);
    result, handovers := Conclude(project, cache, refs, fetchOnly, course, project.State(), remote.branches, excluded);
  }

  /** A remote with branches: hand them over, and remember what the project then has. */
  method Conclude(project: Project, cache: Cache, refs: Listing, fetchOnly: bool, course: Course,
                  ghost before: ProjectState, ghost tips: map<Branch, Commit>, ghost excluded: set<Commit>)
    returns (result: PullResult, handovers: nat)
    requires project.State().Sound() && Lists(refs, cache.branches)
    requires before == project.State() && tips == cache.branches
    requires excluded == LeftOut(cache.known, cache.commits, false)
    modifies project`commits, project`heads, project`origin, project`incoming, cache`known
    ensures project.State().Sound()
    ensures 1 <= handovers <= 2 && (result.Done? || result.NotTaken?)
    ensures result.Done? ==>
              && (project.State(), result.outcome) == Pulled(before, tips, fetchOnly, project.inTheWay)
              && KnowsTips(cache.known, tips, old(cache.known))
    ensures result.NotTaken? ==>
              && cache.known == old(cache.known)
              && !(if handovers == 1 then course.first else course.again).Goes()
              && (Untouched(before, project.State(), tips)
                  || project.State() == Pulled(before, tips, fetchOnly, project.inTheWay).0)
    ensures course.first.Goes() ==> (handovers == 2 <==> Falls(before.commits, tips, excluded, course.first))
  {
    var said;
    said, handovers := Exchange(project, cache, refs, fetchOnly, course, before, tips, excluded);
    if said.None? { return NotTaken, handovers; }
    if said.value.NeedsFull? { return StillLacks, handovers; }
    TipsAreRemembered(refs, tips, cache.known);
    cache.Remember(Firsts(refs));
    return Done(said.value), handovers;
  }

  /** The handover by the guess, and the whole one if that falls. */
  method Exchange(project: Project, cache: Cache, refs: Listing, fetchOnly: bool, course: Course,
                  ghost before: ProjectState, ghost tips: map<Branch, Commit>, ghost excluded: set<Commit>)
    returns (said: Option<Outcome>, handovers: nat)
    requires project.State().Sound() && Lists(refs, cache.branches)
    requires before == project.State() && tips == cache.branches
    requires excluded == LeftOut(cache.known, cache.commits, false)
    modifies project`commits, project`heads, project`origin, project`incoming
    ensures project.State().Sound()
    ensures 1 <= handovers <= 2 && said != Some(NeedsFull)
    ensures said.Some? ==>
              (project.State(), said.value) == Pulled(before, tips, fetchOnly, project.inTheWay)
    ensures said.None? ==>
              || Untouched(before, project.State(), tips)
              || project.State() == Pulled(before, tips, fetchOnly, project.inTheWay).0
    ensures said.None? ==> !(if handovers == 1 then course.first else course.again).Goes()
    ensures course.first.Goes() ==>
              (handovers == 2 <==> Falls(before.commits, tips, excluded, course.first))
  {
    ghost var sent;
    said, sent := HandOver(project, cache, refs, false, fetchOnly, course.first);
    handovers := 1;
    if said == Some(NeedsFull) {
      PullFromHalfway(before, project.State(), tips, fetchOnly, project.inTheWay);
      said, sent := HandOver(project, cache, refs, true, fetchOnly, course.again);
      handovers := 2;
    }
  }

  function Firsts(listing: Listing): seq<Commit> {
    seq(|listing|, i requires 0 <= i < |listing| => listing[i].0)
  }

  lemma {:induction false} UniqueBegins(a: seq<Commit>, b: seq<Commit>)
    ensures Unique(a) <= Unique(a + b)
  {
    if b == [] {
      assert a + b == a;
    } else {
      var last := |b| - 1;
      assert (a + b)[..|a + b| - 1] == a + b[..last];
      UniqueBegins(a, b[..last]);
    }
  }

  lemma OneMoreUnique(front: seq<Commit>, last: Commit)
    ensures Unique(front + [last]) == Unique(front) + if last in front then [] else [last]
  {
    assert (front + [last])[..|front|] == front;
  }

  lemma OneMoreInTheSet(front: seq<Commit>, last: Commit)
    ensures |SetOf(front + [last])| == |SetOf(front)| + if last in front then 0 else 1
  {
    assert SetOf(front + [last]) == SetOf(front) + {last};
  }

  lemma {:induction false} UniqueCounts(values: seq<Commit>)
    ensures |Unique(values)| == |SetOf(values)|
  {
    if values != [] {
      var last := |values| - 1;
      UniqueCounts(values[..last]);
      OneMoreUnique(values[..last], values[last]);
      OneMoreInTheSet(values[..last], values[last]);
      assert values == values[..last] + [values[last]];
    }
  }

  lemma FirstsAreTips(refs: Listing, tips: map<Branch, Commit>)
    requires Lists(refs, tips)
    ensures SetOf(Firsts(refs)) == tips.Values
  {
    var firsts := Firsts(refs);
    forall c | c in tips.Values ensures c in firsts {
      var b :| b in tips && tips[b] == c;
      var i :| 0 <= i < |refs| && refs[i].1 == b;
      assert firsts[i] == c;
    }
  }

  lemma RememberedAreOnce(commits: seq<Commit>, known: seq<Commit>)
    ensures var kept := Remembered(commits, known);
      && |kept| <= 500
      && (forall i, j :: 0 <= i < j < |kept| ==> kept[i] != kept[j])
      && (forall c :: c in kept ==> c in commits || c in known)
  {
    var kept := Remembered(commits, known);
    forall c | c in kept ensures c in commits || c in known {
      assert c in Unique(commits + known);
    }
  }

  lemma FirstAreRemembered(commits: seq<Commit>, known: seq<Commit>)
    requires |SetOf(commits)| <= 500
    ensures forall c :: c in commits ==> c in Remembered(commits, known)
  {
    UniqueBegins(commits, known);
    UniqueCounts(commits);
    TakeKeeps(Unique(commits), Unique(commits + known), KNOWN_MAX);
  }

  lemma TipsAreRemembered(refs: Listing, tips: map<Branch, Commit>, known: seq<Commit>)
    requires Lists(refs, tips)
    ensures KnowsTips(Remembered(Firsts(refs), known), tips, known)
  {
    FirstsAreTips(refs, tips);
    RememberedAreOnce(Firsts(refs), known);
    if |tips.Values| <= 500 { FirstAreRemembered(Firsts(refs), known); }
    assert forall c :: c in Firsts(refs) <==> c in tips.Values by {
      assert forall c :: c in Firsts(refs) <==> c in SetOf(Firsts(refs));
    }
  }

  /** What is remembered after a pull: the remote's tips before what was known, each
   *  once, as far as there is room. */
  ghost predicate KnowsTips(known: seq<Commit>, tips: map<Branch, Commit>, before: seq<Commit>) {
    && |known| <= 500
    && (forall i, j :: 0 <= i < j < |known| ==> known[i] != known[j])
    && (forall c :: c in known ==> c in tips.Values || c in before)
    && (|tips.Values| <= 500 ==> forall b :: b in tips ==> tips[b] in known)
  }

  /** A pull picked up after one that stopped ends where a fresh one does. */
  lemma PullFromHalfway(before: ProjectState, halfway: ProjectState, tips: map<Branch, Commit>, fetchOnly: bool,
                        inTheWay: bool)
    requires Untouched(before, halfway, tips)
    ensures Pulled(halfway, tips, fetchOnly, inTheWay) == Pulled(before, tips, fetchOnly, inTheWay)
  {
    assert halfway.commits + History(tips.Values) == before.commits + History(tips.Values);
  }

  /** What a pull promises: every ancestor of every branch of the remote is in
   *  the project, and its tracking branches are the remote's, no more. */
  lemma PullBringsTheRemote(s: ProjectState, tips: map<Branch, Commit>, fetchOnly: bool, inTheWay: bool)
    requires s.Sound()
    ensures var after := Pulled(s, tips, fetchOnly, inTheWay).0;
      && after.Sound() && s.commits <= after.commits
      && (forall b, a :: b in tips && a in Ancestors(tips[b]) ==> a in after.commits)
      && (forall b :: b in tips ==> b in after.origin && after.origin[b] == tips[b])
      && (forall b :: b in after.origin && b != ORIGIN_HEAD ==> b in tips)
      && ("HEAD" !in tips ==> ("HEAD" in after.origin <==> "HEAD" in s.origin))
      && ("HEAD" !in tips && "HEAD" in s.origin ==> after.origin["HEAD"] == s.origin["HEAD"])
      && after.incoming == map[]
  {
    PullKeepsSound(s, tips, fetchOnly, inTheWay);
    HistoryIsClosed(tips.Values);
    forall b, a | b in tips && a in Ancestors(tips[b]) ensures a in History(tips.Values) {
      assert tips[b] in tips.Values;
    }
  }

  /** The one checked out is a strict ancestor of its tracking branch. */
  ghost predicate MayAdvance(heads: map<Branch, Commit>, origin: map<Branch, Commit>, branch: Branch) {
    branch in heads && branch in origin && heads[branch] != origin[branch] && heads[branch] in Ancestors(origin[branch])
  }

  /** It is fast-forwarded exactly if it may be and nothing is in the way; it is
   *  current exactly if it has all its tracking branch has, and has diverged
   *  exactly if neither has all of the other. */
  lemma AdvancesExactly(s: ProjectState, tips: map<Branch, Commit>, fetchOnly: bool, inTheWay: bool, branch: Branch)
    requires s.checkedOut == Some(branch) && !fetchOnly
    ensures var (after, outcome) := Pulled(s, tips, fetchOnly, inTheWay);
      && (outcome == FastForwarded(branch) <==> MayAdvance(s.heads, after.origin, branch) && !inTheWay)
      && (outcome == Blocked(branch) <==> MayAdvance(s.heads, after.origin, branch) && inTheWay)
      && (outcome == Current(branch) <==>
            branch in after.origin && branch in s.heads && after.origin[branch] in Ancestors(s.heads[branch]))
      && (outcome == Diverged(branch) <==>
            branch in after.origin && (branch in s.heads ==>
              && after.origin[branch] !in Ancestors(s.heads[branch])
              && s.heads[branch] !in Ancestors(after.origin[branch])))
      && (outcome == Fetched(Some(branch)) <==> branch !in after.origin)
  {
    var origin := Pulled(s, tips, fetchOnly, inTheWay).0.origin;
    if MayAdvance(s.heads, origin, branch) { NoTwoWays(s.heads[branch], origin[branch]); }
  }

  /** No branch of the project moves but the one checked out, and that one only
   *  to its tracking branch, and only to a descendant of itself. */
  lemma PullOnlyFastForwards(s: ProjectState, tips: map<Branch, Commit>, fetchOnly: bool, inTheWay: bool, b: Branch)
    requires b in s.heads
    ensures var (after, outcome) := Pulled(s, tips, fetchOnly, inTheWay);
      && after.heads.Keys == s.heads.Keys
      && s.heads[b] in Ancestors(after.heads[b])
      && (after.heads[b] != s.heads[b] <==> outcome == FastForwarded(b))
      && (outcome == FastForwarded(b) ==> s.checkedOut == Some(b) && !fetchOnly && after.heads[b] == after.origin[b])
  {
    var (after, outcome) := Pulled(s, tips, fetchOnly, inTheWay);
    if outcome == FastForwarded(b) {
      assert s.heads[b] != after.origin[b];
    }
  }

  /** Pulling again what was just pulled changes nothing, and says so. */
  lemma PullIsIdempotent(s: ProjectState, tips: map<Branch, Commit>, fetchOnly: bool, inTheWay: bool)
    ensures var (once, outcome) := Pulled(s, tips, fetchOnly, inTheWay);
      Pulled(once, tips, fetchOnly, inTheWay)
        == (once, if outcome.FastForwarded? then Current(outcome.branch) else outcome)
  {
    var (once, outcome) := Pulled(s, tips, fetchOnly, inTheWay);
    assert OriginAfter(once.origin, tips) == once.origin;
    assert once.commits + History(tips.Values) == once.commits;
  }

  // ------------------------------------------------------------------ push --

  /** What a sandbox says it bundled, and the file it left. */
  datatype Answer = Answer(branch: Branch, commit: Commit, bundled: bool, file: Option<Bundle>)

  datatype Fault = NoFile | NotFetched | WrongHead | SentNothing
  datatype Sent =
    | Pushed(branch: Branch, commit: Commit)
    | CacheNotReached
    | NotBundled
    | BadName
    | Moved
    | SandboxFault(fault: Fault)
    | RemoteNotReached
    | DefaultBranch(branch: Branch)
    | NotAccepted

  /** The shapes `check-ref-format` is lenient about, refused before it is asked. */
  predicate IsBranchName(name: Branch, refFormat: bool) {
    && 0 < |name| <= 255
    && name[0] != '-'
    && (forall c :: c in name ==> !IsSpace(c) && '\U{001f}' < c && c !in "\U{007f}:*?[\\^~")
    && !Contains(name, "..") && !Contains(name, "@{")
    && !EndsWith(name, "/") && !EndsWith(name, ".lock")
    && refFormat
  }

  /** Nothing in it that git reads otherwise than as a branch: no option, refspec,
   *  pattern, range or reflog, nor two words. */
  lemma BranchNamesExactly(name: Branch)
    ensures IsBranchName(name, true) <==>
            && 1 <= |name| <= 255 && name[0] != '-' && name[|name| - 1] != '/'
            && !(|name| >= 5 && name[|name| - 5..] == ".lock")
            && !Follows(name, '.', '.') && !Follows(name, '@', '{')
            && forall c :: c in name ==>
                 && !IsSpace(c) && c as int > 31 && c as int != 127
                 && c != ':' && c != '*' && c != '?' && c != '[' && c != '\\' && c != '^' && c != '~'
    ensures !IsBranchName(name, false)
  {
    PairStandsExactly(name, "..");
    PairStandsExactly(name, "@{");
    if name != "" { assert EndsWith(name, "/") <==> name[|name| - 1] == '/'; }
    forall c: char
      ensures c in "\U{007f}:*?[\\^~" <==>
              c as int == 127 || c == ':' || c == '*' || c == '?' || c == '[' || c == '\\' || c == '^' || c == '~'
    {
    }
  }

  /** What a sandbox that runs its script sends to a cache that has `haves`. */
  ghost predicate Honest(answer: Answer, haves: set<Commit>) {
    var tips := map[answer.branch := answer.commit];
    if answer.bundled
    then answer.file.Some? && exists excluded :: excluded <= haves && answer.file == CutBundle(tips, excluded)
    else answer.commit in History(haves)
  }

  /** `git fetch <bundle> refs/heads/<branch>`: its prerequisites are here, and
   *  what it brings connects the branch. */
  predicate Fetchable(bundle: Bundle, branch: Branch, store: set<Commit>) {
    && branch in bundle.refs
    && bundle.prerequisites <= store
    && Ancestors(bundle.refs[branch]) <= store + bundle.contents
  }

  /** What is wrong with an answer. */
  ghost predicate Faults(fault: Fault, answer: Answer, store: set<Commit>) {
    match fault
    case SentNothing => !answer.bundled && answer.commit !in store
    case NoFile => answer.bundled && answer.file.None?
    case NotFetched => answer.bundled && answer.file.Some? && !Fetchable(answer.file.value, answer.branch, store)
    case WrongHead =>
      && answer.bundled && answer.file.Some? && answer.branch in answer.file.value.refs
      && answer.file.value.refs[answer.branch] != answer.commit
  }

  predicate Receivable(answer: Answer, store: set<Commit>) {
    if answer.bundled
    then
      && answer.file.Some? && Fetchable(answer.file.value, answer.branch, store)
      && answer.file.value.refs[answer.branch] == answer.commit
    else answer.commit in store
  }

  /** What an honest sandbox sends, a cache that has the haves can take. */
  lemma HonestIsReceivable(answer: Answer, haves: set<Commit>, store: set<Commit>)
    requires Closed(store) && haves <= store && Honest(answer, haves)
    ensures Receivable(answer, store)
    ensures answer.bundled ==> Closed(store + answer.file.value.contents)
  {
    if answer.bundled {
      var tips := map[answer.branch := answer.commit];
      var excluded :| excluded <= haves && answer.file == CutBundle(tips, excluded);
      PrerequisitesAreExcludedHistory(tips, excluded, store);
      TakingABundleKeepsClosed(tips, excluded, store);
      BundledRefsAreInside(tips, excluded);
      var bundle := answer.file.value;
      var b :| b in bundle.refs;
      assert b == answer.branch;
      AncestorsStayInside(answer.commit, store + bundle.contents);
    } else {
      HistoryStaysInside(haves, store);
    }
  }

  /** How the second half of a push goes: whether the remote is reached, and whether
   *  it takes what it could. */
  datatype Sending = Sending(reached: bool, accepts: bool)

  /**
   * The cache takes what the sandbox sent and pushes the commit it named, to a
   * remote that may have moved since the cache was refreshed. Nothing is
   * assumed of the sandbox's answer; an honest one is never at fault.
   */
  method Send(cache: Cache, remote: Remote, answer: Answer, allowDefault: bool, reviewed: Option<Commit>,
              refFormat: bool, sending: Sending)
    returns (sent: Sent)
    requires cache.Connected()
    modifies cache, remote`branches
    ensures cache.Connected()
    ensures sent.Pushed? ==>
              && sent == Pushed(answer.branch, answer.commit)
              && IsBranchName(answer.branch, refFormat)
              && (reviewed.Some? ==> answer.commit == reviewed.value)
              && (remote.default == Some(answer.branch) ==> allowDefault)
              && sending.reached && sending.accepts
              && Ancestors(answer.commit) <= cache.commits
              && (answer.branch in old(remote.branches) ==>
                    old(remote.branches)[answer.branch] in Ancestors(answer.commit))
              && remote.branches == old(remote.branches)[answer.branch := answer.commit]
              && cache.branches == old(cache.branches)[answer.branch := answer.commit]
              && answer.branch !in cache.outgoing
              && cache.known == Remembered([answer.commit], old(cache.known))
    ensures !sent.Pushed? ==>
              && remote.branches == old(remote.branches)
              && cache.branches == old(cache.branches) && cache.known == old(cache.known)
    ensures sent.BadName? ==> !IsBranchName(answer.branch, refFormat)
    ensures sent.Moved? ==> reviewed.Some? && reviewed.value != answer.commit
    ensures sent.SandboxFault? ==> Faults(sent.fault, answer, old(cache.commits))
    ensures sent.RemoteNotReached? ==> !sending.reached
    ensures sent.DefaultBranch? ==> remote.default == Some(answer.branch) && !allowDefault
    ensures sent.NotAccepted? ==>
              || !sending.accepts
              || !(Ancestors(answer.commit) <= cache.commits)
              || (answer.branch in remote.branches && remote.branches[answer.branch] !in Ancestors(answer.commit))
    ensures !sent.CacheNotReached? && !sent.NotBundled?
    ensures !sent.BadName? && !sent.Moved? && !sent.SandboxFault? ==> answer.commit in cache.commits
    ensures forall haves :: old(Closed(cache.commits)) && haves <= old(cache.commits) && Honest(answer, haves) ==>
              Closed(cache.commits) && !sent.SandboxFault?
  {
    if !IsBranchName(answer.branch, refFormat) { return BadName; }
    if reviewed.Some? && answer.commit != reviewed.value { return Moved; }
    var fault := cache.Receive(answer);
    if fault.Some? { return SandboxFault(fault.value); }
    if !sending.reached { return RemoteNotReached; }
    if remote.default == Some(answer.branch) && !allowDefault { return DefaultBranch(answer.branch); }
    // A plain push: the history goes along, and only a fast-forward is taken.
    if !sending.accepts || !(Ancestors(answer.commit) <= cache.commits) { return NotAccepted; }
    if answer.branch in remote.branches && remote.branches[answer.branch] !in Ancestors(answer.commit) {
      return NotAccepted;
    }
    remote.branches := remote.branches[answer.branch := answer.commit];
    cache.Settle(answer.branch, answer.commit);
    return Pushed(answer.branch, answer.commit);
  }

  /** What a sandbox may leave out: the newest branch tips, and what the project
   *  is known to have, as far as the cache has them itself. */
  function Haves(listing: Listing, known: seq<Commit>, store: set<Commit>): (haves: seq<Commit>)
    ensures forall c :: c in haves <==>
              c in store && (c in known || exists i :: 0 <= i < |listing| && i < 200 && listing[i].0 == c)
  {
    var newest := Firsts(Take(listing, HAVES_MAX));
    assert forall i :: 0 <= i < |newest| ==> newest[i] == listing[i].0;
    Present(Unique(newest + known), store)
  }

  /** How a push goes: whether the remote is reached at first, whether the sandbox runs
   *  its script and git writes the bundle, and the rest. */
  datatype Pushing = Pushing(reached: bool, ran: bool, written: bool, sending: Sending)

  /** Others may push to the remote at any moment: `meantime` is what it holds
   *  by the time this push reaches it, if that is not what the refresh saw. */
  method PushBranch(project: Project, cache: Cache, remote: Remote, allowDefault: bool, reviewed: Option<Commit>,
                    refFormat: bool, meantime: Option<map<Branch, Commit>>, pushing: Pushing)
    returns (sent: Sent)
    requires project.State().Sound() && cache.Connected() && Closed(cache.commits)
    modifies cache, remote`branches
    ensures cache.Connected() && Closed(cache.commits)
    ensures !sent.SandboxFault?
    ensures sent.Pushed? ==>
              var before := meantime.GetOr(old(remote.branches));
              && project.checkedOut == Some(sent.branch)
              && sent.branch in project.heads && project.heads[sent.branch] == sent.commit
              && (reviewed.Some? ==> sent.commit == reviewed.value)
              && (remote.default == Some(sent.branch) ==> allowDefault)
              && (sent.branch in before ==> before[sent.branch] in Ancestors(sent.commit))
              && remote.branches == before[sent.branch := sent.commit]
    ensures !sent.Pushed? ==> remote.branches in {old(remote.branches), meantime.GetOr(old(remote.branches))}
    ensures sent.CacheNotReached? <==> !pushing.reached
    ensures sent.NotBundled? ==> !pushing.ran || !pushing.written || !project.OnABranch()
    ensures pushing.reached && (!pushing.ran || !project.OnABranch()) ==> sent.NotBundled?
    ensures sent.BadName? ==> project.OnABranch() && !IsBranchName(project.checkedOut.value, refFormat)
    ensures sent.Moved? ==> project.OnABranch() && reviewed.Some? && reviewed.value != project.Head()
    ensures sent.RemoteNotReached? ==> !pushing.sending.reached
    ensures sent.DefaultBranch? ==> project.OnABranch() && remote.default == project.checkedOut && !allowDefault
    ensures sent.NotAccepted? ==>
              || !pushing.sending.accepts
              || (project.OnABranch() && project.checkedOut.value in remote.branches
                  && remote.branches[project.checkedOut.value] !in Ancestors(project.Head()))
  {
    cache.Refresh(remote, pushing.reached);
    if !pushing.reached { return CacheNotReached; }
    var listing := cache.BranchesOf();
    var haves := Haves(listing, cache.known, cache.commits);
    if !pushing.ran { return NotBundled; }
    var answer := project.BundleScript(haves, pushing.written);
    if answer.None? { return NotBundled; }
    remote.branches := meantime.GetOr(remote.branches);
    assert SetOf(haves) <= cache.commits && Honest(answer.value, SetOf(haves));
    sent := Send(cache, remote, answer.value, allowDefault, reviewed, refFormat, pushing.sending);
    if sent.NotAccepted? {
      AncestorsStayInside(answer.value.commit, cache.commits);
    }
  }

  datatype PushResult =
    | NotPushed(why: Sent)
    | PushedAndTracked(branch: Branch, commit: Commit)
    | PushedOnly(branch: Branch, commit: Commit)

  /** Push, then bring the project's tracking branches level: a push that went
   *  through is never reported as one that did not. */
  method Push(project: Project, cache: Cache, remote: Remote, allowDefault: bool, reviewed: Option<Commit>,
              refFormat: bool, meantime: Option<map<Branch, Commit>>, pushing: Pushing, course: Course)
    returns (result: PushResult)
    requires project.State().Sound() && cache.Connected() && Closed(cache.commits)
    modifies cache, remote`branches
    modifies project`commits, project`heads, project`origin, project`incoming
    ensures project.State().Sound() && cache.Connected() && Closed(cache.commits)
    ensures project.heads == old(project.heads) && project.checkedOut == old(project.checkedOut)
    ensures result.NotPushed? ==>
              && !result.why.Pushed?
              && remote.branches in {old(remote.branches), meantime.GetOr(old(remote.branches))}
              && project.State() == old(project.State())
    ensures !result.NotPushed? ==>
              && project.checkedOut == Some(result.branch)
              && result.branch in project.heads && project.heads[result.branch] == result.commit
              && remote.branches == meantime.GetOr(old(remote.branches))[result.branch := result.commit]
    ensures result.PushedAndTracked? ==>
              && project.origin == OriginAfter(old(project.origin), remote.branches)
              && project.origin[result.branch] == result.commit
    ensures result.PushedOnly? ==> !(course.reached && course.first.Goes() && course.again.Goes())
  {
    var sent := PushBranch(project, cache, remote, allowDefault, reviewed, refFormat, meantime, pushing);
    if !sent.Pushed? { return NotPushed(sent); }
    assert sent.branch in remote.branches && remote.branches != map[];
    var pulled, _ := Pull(project, cache, remote, true, course);
    if pulled.Done? { return PushedAndTracked(sent.branch, sent.commit); }
    return PushedOnly(sent.branch, sent.commit);
  }
}
