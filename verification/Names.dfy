/**
 * What counts as a target, and the docker name each is known by: `/` and `@`
 * spelled so that docker takes them, in a way meant never to collide.
 */
module Names {
  import opened Text
  import opened Wrappers

  const SLASH := "__"
  const SEPARATOR := "--wt--"
  const MAX_SEGMENT := 64

  /** No reserved sequence in it. */
  predicate Namespaceable(name: string) {
    !Contains(name, SLASH) && !Contains(name, SEPARATOR)
  }

  function ReplaceAll(s: string, c: char, into: string): string {
    if s == "" then ""
    else (if s[0] == c then into else [s[0]]) + ReplaceAll(s[1..], c, into)
  }

  function Encoded(name: string): string {
    ReplaceAll(ReplaceAll(name, '/', SLASH), '@', SEPARATOR)
  }

  /** Nothing for a name the encoding refuses. */
  function VolumeNamespace(name: string): Option<string> {
    if Namespaceable(name) then Some(Encoded(name)) else None
  }

  predicate SegmentChar(c: char) {
    IsAlnum(c) || c == '.' || c == '_' || c == '-'
  }

  /** A path segment, however long. */
  predicate Spelled(s: string) {
    |s| >= 1 && IsAlnum(s[0]) && forall c :: c in s ==> SegmentChar(c)
  }

  predicate Segment(s: string) {
    Spelled(s) && |s| <= MAX_SEGMENT
  }

  predicate ValidName(name: string) {
    && Namespaceable(name)
    && (Segment(name) || exists k :: 0 <= k < |name| && name[k] == '/' && Segment(name[..k]) && Segment(name[k + 1..]))
  }

  predicate ValidWorktree(name: string) {
    Segment(name) && Namespaceable(name)
  }

  /** A project, or one of its worktrees. */
  datatype Target = Target(project: string, worktree: Option<string>) {
    function Name(): string {
      if worktree.Some? && worktree.value != "" then project + "@" + worktree.value else project
    }

    function Namespace(): Option<string> {
      VolumeNamespace(Name())
    }

    predicate Valid() {
      ValidName(project) && (worktree.Some? ==> ValidWorktree(worktree.value))
    }
  }

  /** The two ways to read one name: the separator overlaps itself. */
  predicate Twins(t: Target, u: Target) {
    && t.worktree.Some? && u.worktree.Some?
    && u.project == t.project + "--wt"
    && t.worktree.value == "wt--" + u.worktree.value
  }

  predicate Collide(t: Target, u: Target) {
    Twins(t, u) || Twins(u, t)
  }

  // ------------------------------------------------------------- encoding --

  lemma {:induction false} ReplaceAllOver(s: string, t: string, c: char, into: string)
    ensures ReplaceAll(s + t, c, into) == ReplaceAll(s, c, into) + ReplaceAll(t, c, into)
  {
    if s == "" {
      assert s + t == t;
    } else {
      assert (s + t)[1..] == s[1..] + t;
      ReplaceAllOver(s[1..], t, c, into);
    }
  }

  lemma {:induction false} NothingToReplace(s: string, c: char, into: string)
    requires c !in s
    ensures ReplaceAll(s, c, into) == s
  {
    if s != "" { NothingToReplace(s[1..], c, into); }
  }

  lemma EncodedOver(s: string, t: string)
    ensures Encoded(s + t) == Encoded(s) + Encoded(t)
  {
    ReplaceAllOver(s, t, '/', SLASH);
    ReplaceAllOver(ReplaceAll(s, '/', SLASH), ReplaceAll(t, '/', SLASH), '@', SEPARATOR);
  }

  lemma PlainIsEncoded(s: string)
    requires '/' !in s && '@' !in s
    ensures Encoded(s) == s
  {
    NothingToReplace(s, '/', SLASH);
    NothingToReplace(s, '@', SEPARATOR);
  }

  lemma SlashIsEncoded()
    ensures Encoded("/") == SLASH && Encoded("@") == SEPARATOR
  {
    assert ReplaceAll("/", '/', SLASH) == SLASH;
    NothingToReplace(SLASH, '@', SEPARATOR);
    NothingToReplace("@", '/', SLASH);
    assert ReplaceAll("@", '@', SEPARATOR) == SEPARATOR;
  }

  /** A part that lacks `c` stands in `s + [c] + t` only where it stands in one of them. */
  lemma NotAcross(s: string, c: char, t: string, part: string)
    requires c !in part && !Contains(s, part) && !Contains(t, part) && part != ""
    ensures !Contains(s + [c] + t, part)
  {
    var whole := s + [c] + t;
    forall i | 0 <= i <= |whole| ensures !At(whole, part, i) {
      if i > |s| {
        assert !At(t, part, i - |s| - 1);
      } else if i + |part| <= |s| {
        assert !At(s, part, i);
      } else if i + |part| <= |whole| {
        assert whole[i + (|s| - i)] == c && part[|s| - i] != c;
      }
    }
  }

  // -------------------------------------------------- projects are told apart --

  /** A project's spelling, whatever its length, as far as `/` is concerned. */
  predicate Shaped(p: string) {
    && !Contains(p, SLASH)
    && (Spelled(p) || exists k :: 0 <= k < |p| && p[k] == '/' && Spelled(p[..k]) && Spelled(p[k + 1..]))
  }

  lemma EncodedProject(p: string, k: nat)
    requires k < |p| && p[k] == '/' && Spelled(p[..k]) && Spelled(p[k + 1..])
    ensures Encoded(p) == p[..k] + SLASH + p[k + 1..]
  {
    assert p == p[..k] + ("/" + p[k + 1..]);
    EncodedOver(p[..k], "/" + p[k + 1..]);
    EncodedOver("/", p[k + 1..]);
    SlashIsEncoded();
    PlainIsEncoded(p[..k]);
    PlainIsEncoded(p[k + 1..]);
  }

  /** Where two nested names agree once encoded, they were split at one place:
   *  an owner may end in `_`, but no repository begins with one. */
  lemma SplitAtOnePlace(a: string, b: string, c: string, d: string)
    requires a + SLASH + b == c + SLASH + d && |a| <= |c|
    requires Spelled(b) && !Contains(c, SLASH)
    ensures a == c && b == d
  {
    var whole := a + SLASH + b;
    assert forall i :: 0 <= i < |whole| ==> whole[i] == (c + SLASH + d)[i];
    assert whole[|a|] == '_' && whole[|a| + 1] == '_' && whole[|a| + 2] == b[0] && whole[|c| + 1] == '_';
    assert |c| >= |a| + 2 ==> At(c, SLASH, |a|);
    assert |a| == |c|;
    assert a == whole[..|a|] && c == whole[..|c|];
    assert b == whole[|a| + 2..] && d == whole[|c| + 2..];
  }

  lemma PartOfPart(s: string, from: nat, to: nat, part: string)
    requires from <= to <= |s| && Contains(s[from..to], part)
    ensures Contains(s, part)
  {
    var i :| 0 <= i <= to - from && At(s[from..to], part, i);
    var j := from + i;
    assert At(s, part, j);
  }

  lemma ProjectsAreToldApart(p: string, q: string)
    requires Shaped(p) && Shaped(q) && Encoded(p) == Encoded(q)
    ensures p == q
  {
    if Spelled(p) && Spelled(q) {
      PlainIsEncoded(p);
      PlainIsEncoded(q);
    } else if Spelled(p) {
      PlainAndNestedDiffer(p, q);
    } else if Spelled(q) {
      PlainAndNestedDiffer(q, p);
    } else {
      var k :| 0 <= k < |p| && p[k] == '/' && Spelled(p[..k]) && Spelled(p[k + 1..]);
      var n :| 0 <= n < |q| && q[n] == '/' && Spelled(q[..n]) && Spelled(q[n + 1..]);
      EncodedProject(p, k);
      EncodedProject(q, n);
      if k <= n {
        if Contains(q[..n], SLASH) { PartOfPart(q, 0, n, SLASH); }
        SplitAtOnePlace(p[..k], p[k + 1..], q[..n], q[n + 1..]);
      } else {
        if Contains(p[..k], SLASH) { PartOfPart(p, 0, k, SLASH); }
        SplitAtOnePlace(q[..n], q[n + 1..], p[..k], p[k + 1..]);
      }
      SplitAt(p, k);
      SplitAt(q, n);
    }
  }

  lemma SplitAt(s: string, k: nat)
    requires k < |s| && s[k] == '/'
    ensures s == s[..k] + "/" + s[k + 1..]
  {
  }

  lemma PlainAndNestedDiffer(p: string, q: string)
    requires Shaped(p) && Shaped(q) && Spelled(p) && !Spelled(q)
    ensures Encoded(p) != Encoded(q)
  {
    PlainIsEncoded(p);
    var n :| 0 <= n < |q| && q[n] == '/' && Spelled(q[..n]) && Spelled(q[n + 1..]);
    EncodedProject(q, n);
    assert Encoded(q)[n..n + 2] == SLASH;
    assert At(Encoded(q), SLASH, n);
  }

  // --------------------------------------------------- worktrees and projects --

  lemma NestedHoldsNone(a: string, b: string)
    requires !Contains(a, SEPARATOR) && !Contains(b, SEPARATOR)
    ensures !Contains(a + SLASH + b, SEPARATOR)
  {
    NothingInNothing(SEPARATOR);
    NotAcross("", '_', b, SEPARATOR);
    NotAcross(a, '_', "" + ['_'] + b, SEPARATOR);
    assert a + SLASH + b == a + ['_'] + ("" + ['_'] + b);
  }

  lemma NestedParts(p: string, k: nat)
    requires k < |p| && p[k] == '/' && Spelled(p[..k]) && Spelled(p[k + 1..])
    ensures '@' !in p
    ensures forall part :: Contains(p[..k], part) || Contains(p[k + 1..], part) ==> Contains(p, part)
  {
    forall i | 0 <= i < |p| ensures p[i] != '@' {
      if i < k { assert p[i] in p[..k]; }
      else if i > k { assert p[i] == p[k + 1..][i - k - 1]; assert p[i] in p[k + 1..]; }
    }
    forall part | Contains(p[..k], part) || Contains(p[k + 1..], part) ensures Contains(p, part) {
      assert p[k + 1..] == p[k + 1..|p|] && p[..k] == p[0..k];
      if Contains(p[..k], part) { PartOfPart(p, 0, k, part); } else { PartOfPart(p, k + 1, |p|, part); }
    }
  }

  lemma ProjectNeverHoldsSeparator(p: string)
    requires ValidName(p)
    ensures !Contains(Encoded(p), SEPARATOR) && '@' !in p
  {
    if Segment(p) {
      PlainIsEncoded(p);
    } else {
      var k :| 0 <= k < |p| && p[k] == '/' && Segment(p[..k]) && Segment(p[k + 1..]);
      EncodedProject(p, k);
      NestedParts(p, k);
      NestedHoldsNone(p[..k], p[k + 1..]);
    }
  }

  lemma NothingInNothing(part: string)
    requires part != ""
    ensures !Contains("", part)
  {
  }

  /** A worktree's namespace; validation leaves nothing for the encoding to refuse. */
  lemma WorktreeNamespace(p: string, w: string)
    requires ValidName(p) && ValidWorktree(w)
    ensures Target(p, Some(w)).Namespace() == Some(Encoded(p) + SEPARATOR + w)
  {
    ProjectNeverHoldsSeparator(p);
    NotAcross(p, '@', w, SLASH);
    NotAcross(p, '@', w, SEPARATOR);
    assert p + "@" + w == p + ['@'] + w;
    assert p + "@" + w == p + ("@" + w);
    assert Encoded(p) + (SEPARATOR + w) == Encoded(p) + SEPARATOR + w;
    EncodedOver(p, "@" + w);
    EncodedOver("@", w);
    SlashIsEncoded();
    PlainIsEncoded(w);
  }

  lemma OverlapIsFour(d: string, v: string, e: string, w: string)
    requires d + SEPARATOR + v == e + SEPARATOR + w && |d| < |e|
    requires !Contains(e, SEPARATOR) && Spelled(v)
    ensures |e| == |d| + 4
  {
    var whole := d + SEPARATOR + v;
    assert forall i :: 0 <= i < |whole| ==> whole[i] == (e + SEPARATOR + w)[i];
    assert forall j :: 0 <= j < 6 ==> whole[|d| + j] == SEPARATOR[j] && whole[|e| + j] == SEPARATOR[j];
    assert |e| >= |d| + 6 ==> At(e, SEPARATOR, |d|);
    assert whole[|d| + 6] == v[0];
    assert whole[|e|] == '-' && whole[|e| + 1] == '-';
  }

  /** The separator meets itself only by its last two dashes -- or its last one,
   *  which would start a worktree's name with a dash. */
  lemma SeparatorOverlap(d: string, v: string, e: string, w: string)
    requires d + SEPARATOR + v == e + SEPARATOR + w && |d| < |e|
    requires !Contains(e, SEPARATOR) && Spelled(v)
    ensures e == d + "--wt" && v == "wt--" + w
  {
    OverlapIsFour(d, v, e, w);
    var whole := d + SEPARATOR + v;
    assert SEPARATOR == "--wt" + "--" && SEPARATOR == "--" + "wt--";
    assert whole == (d + "--wt") + ("--" + v);
    assert whole == e + ("--" + ("wt--" + w));
    assert e == whole[..|e|] && d + "--wt" == whole[..|e|];
    assert "--" + v == whole[|e|..] && "--" + ("wt--" + w) == whole[|e|..];
    assert v == whole[|e|..][2..] && "wt--" + w == whole[|e|..][2..];
  }

  lemma SeparatorsTell(p: string, v: string, q: string, w: string)
    requires ValidName(p) && ValidWorktree(v) && ValidName(q) && ValidWorktree(w) && |Encoded(p)| <= |Encoded(q)|
    requires Encoded(p) + SEPARATOR + v == Encoded(q) + SEPARATOR + w
    ensures (p == q && v == w) || (q == p + "--wt" && v == "wt--" + w)
  {
    ProjectNeverHoldsSeparator(q);
    ValidIsShaped(p);
    ValidIsShaped(q);
    if |Encoded(p)| == |Encoded(q)| {
      var whole := Encoded(p) + SEPARATOR + v;
      assert Encoded(p) == whole[..|Encoded(p)|] && Encoded(q) == whole[..|Encoded(p)|];
      assert v == whole[|Encoded(p)| + 6..] && w == whole[|Encoded(q)| + 6..];
      ProjectsAreToldApart(p, q);
    } else {
      SeparatorOverlap(Encoded(p), v, Encoded(q), w);
      EncodedOver(p, "--wt");
      PlainIsEncoded("--wt");
      StaysShaped(p);
      ProjectsAreToldApart(p + "--wt", q);
    }
  }

  lemma ValidIsShaped(p: string)
    requires ValidName(p)
    ensures Shaped(p)
  {
  }

  lemma StaysShaped(p: string)
    requires Shaped(p)
    ensures Shaped(p + "--wt")
  {
    forall i | 0 <= i <= |p + "--wt"| ensures !At(p + "--wt", SLASH, i) {
      assert SLASH[0] == '_' && SLASH[1] == '_';
      assert !At(p, SLASH, i);
    }
    if !Spelled(p) {
      var k :| 0 <= k < |p| && p[k] == '/' && Spelled(p[..k]) && Spelled(p[k + 1..]);
      assert (p + "--wt")[..k] == p[..k] && (p + "--wt")[k + 1..] == p[k + 1..] + "--wt";
    }
  }

  /**
   * Two targets the validation accepts have one namespace exactly when they
   * are one target, or the two readings of `P--wt--wt--W`: worktree `wt--W` of
   * `P`, and worktree `W` of `P--wt`. Reserving `--wt--` within each name does
   * not keep them apart, because the separator supplies half of it.
   */
  lemma NamespacesCollideExactly(t: Target, u: Target)
    requires t.Valid() && u.Valid()
    ensures t.Namespace().Some? && u.Namespace().Some?
    ensures t.Namespace() == u.Namespace() <==> t == u || Collide(t, u)
  {
    NamespaceOf(t);
    NamespaceOf(u);
    ProjectNeverHoldsSeparator(t.project);
    ProjectNeverHoldsSeparator(u.project);
    if t.worktree.None? && u.worktree.None? {
      ValidIsShaped(t.project);
      ValidIsShaped(u.project);
      if t.Namespace() == u.Namespace() { ProjectsAreToldApart(t.project, u.project); }
    } else if t.worktree.None? {
      assert At(Encoded(u.project) + SEPARATOR + u.worktree.value, SEPARATOR, |Encoded(u.project)|);
    } else if u.worktree.None? {
      assert At(Encoded(t.project) + SEPARATOR + t.worktree.value, SEPARATOR, |Encoded(t.project)|);
    } else {
      if t.Namespace() == u.Namespace() {
        if |Encoded(t.project)| <= |Encoded(u.project)| {
          SeparatorsTell(t.project, t.worktree.value, u.project, u.worktree.value);
        } else {
          SeparatorsTell(u.project, u.worktree.value, t.project, t.worktree.value);
        }
      }
      if Twins(t, u) { TwinsShare(t, u); }
      if Twins(u, t) { TwinsShare(u, t); }
    }
  }

  lemma NamespaceOf(t: Target)
    requires t.Valid()
    ensures t.worktree.None? ==> t.Namespace() == Some(Encoded(t.project))
    ensures t.worktree.Some? ==> t.Namespace() == Some(Encoded(t.project) + SEPARATOR + t.worktree.value)
  {
    if t.worktree.Some? { WorktreeNamespace(t.project, t.worktree.value); }
  }

  lemma JoinedIsSpelled(a: string, between: string, b: string)
    requires Spelled(a) && Spelled(b) && between in [SLASH, SEPARATOR]
    ensures Spelled(a + between + b)
  {
    assert forall c :: c in between ==> SegmentChar(c);
    assert forall c :: c in a + between + b ==> c in a || c in between || c in b;
  }

  /** A namespace is a docker name, and a name that may own a forward. */
  lemma NamespaceIsAName(t: Target)
    requires t.Valid()
    ensures t.Namespace().Some? && Spelled(t.Namespace().value)
  {
    NamespaceOf(t);
    var p := t.project;
    if Segment(p) {
      PlainIsEncoded(p);
    } else {
      var k :| 0 <= k < |p| && p[k] == '/' && Segment(p[..k]) && Segment(p[k + 1..]);
      EncodedProject(p, k);
      JoinedIsSpelled(p[..k], SLASH, p[k + 1..]);
    }
    if t.worktree.Some? { JoinedIsSpelled(Encoded(p), SEPARATOR, t.worktree.value); }
  }

  lemma TwinsShare(t: Target, u: Target)
    requires t.Valid() && u.Valid() && Twins(t, u)
    ensures t.Namespace() == u.Namespace()
  {
    NamespaceOf(t);
    NamespaceOf(u);
    EncodedOver(t.project, "--wt");
    PlainIsEncoded("--wt");
    Regrouped(Encoded(t.project), u.worktree.value);
  }

  lemma Regrouped(p: string, w: string)
    ensures p + SEPARATOR + ("wt--" + w) == p + "--wt" + SEPARATOR + w
  {
    assert SEPARATOR + "wt--" == "--wt" + SEPARATOR;
    assert p + SEPARATOR + ("wt--" + w) == p + (SEPARATOR + "wt--") + w;
    assert p + "--wt" + SEPARATOR + w == p + ("--wt" + SEPARATOR) + w;
  }

  /** The collision is real: both of these are targets anyone could make. */
  lemma TwoTargetsOneNamespace()
    ensures var t, u := Target("a", Some("wt--b")), Target("a--wt", Some("b"));
      t.Valid() && u.Valid() && t != u && t.Namespace() == u.Namespace()
  {
    var t, u := Target("a", Some("wt--b")), Target("a--wt", Some("b"));
    NoUnderscore("a");
    NoUnderscore("wt--b");
    NoUnderscore("a--wt");
    NoUnderscore("b");
    assert t.worktree.value == "wt--" + "b" && u.project == "a" + "--wt";
    TwinsShare(t, u);
  }

  lemma NoUnderscore(s: string)
    requires '_' !in s && |s| < 6
    ensures Namespaceable(s)
  {
    forall i | 0 <= i <= |s| ensures !At(s, SLASH, i) {
      assert SLASH[0] == '_';
    }
  }
}
