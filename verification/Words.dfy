/** What the words of a command line may be, told by what they are made of. */
module Words {
  import opened Args
  import opened Text
  import opened Requests
  import opened Wrappers
  import N = Names
  import P = Projects

  const LOWER := "abcdefghijklmnopqrstuvwxyz"
  const UPPER := "ABCDEFGHIJKLMNOPQRSTUVWXYZ"
  const DIGITS := "0123456789"

  lemma AlnumExactly(c: char)
    ensures IsAlnum(c) <==> c in LOWER || c in UPPER || c in DIGITS
  {
    LowerExactly(c);
    UpperExactly(c);
  }

  lemma LowerExactly(c: char)
    ensures 'a' <= c <= 'z' <==> c in LOWER
  {
  }

  lemma UpperExactly(c: char)
    ensures 'A' <= c <= 'Z' <==> c in UPPER
  {
  }

  lemma HexExactly(c: char)
    ensures IsHex(c) <==> c in "0123456789abcdef"
  {
  }

  lemma HexWordExactly(id: string)
    ensures (forall i :: 0 <= i < |id| ==> IsHex(id[i])) <==> forall c :: c in id ==> c in "0123456789abcdef"
  {
    forall i | 0 <= i < |id| ensures IsHex(id[i]) <==> id[i] in "0123456789abcdef" {
      HexExactly(id[i]);
    }
  }

  lemma TransferNameHasItsId(s: string) returns (id: string)
    requires IsTransferName(s)
    ensures |id| == 16 && (forall c :: c in id ==> c in "0123456789abcdef")
    ensures s == "desolate-transfer-" + id + ".bundle"
  {
    id := s[18..34];
    forall i | 0 <= i < 16 ensures IsHex(id[i]) {
      assert IsHex(s[18 + i]);
    }
    HexWordExactly(id);
    assert s == s[..18] + id + s[34..];
  }

  /** Sixteen hexadecimal digits between its two ends. */
  lemma TransferNamesExactly(s: string)
    ensures IsTransferName(s) <==>
            exists id: string :: |id| == 16 && (forall c :: c in id ==> c in "0123456789abcdef")
                         && s == "desolate-transfer-" + id + ".bundle"
  {
    if IsTransferName(s) {
      var id := TransferNameHasItsId(s);
    }
    if id: string :| |id| == 16 && (forall c :: c in id ==> c in "0123456789abcdef")
                     && s == "desolate-transfer-" + id + ".bundle"
    {
      HexWordExactly(id);
      assert s[18..34] == id && s[34..] == ".bundle";
      forall i | 18 <= i < 34 ensures IsHex(s[i]) {
        assert s[i] == id[i - 18];
      }
    }
  }

  /** No option, no range, and one word to a shell. */
  lemma RefsExactly(s: string)
    ensures IsRef(s) <==>
            && s != "" && s[0] in LOWER + UPPER + DIGITS && !Follows(s, '.', '.')
            && forall c :: c in s ==> c in LOWER + UPPER + DIGITS || c == '.' || c == '_' || c == '/' || c == '-'
  {
    PairStandsExactly(s, "..");
    forall c: char ensures IsAlnum(c) <==> c in LOWER + UPPER + DIGITS {
      AlnumExactly(c);
    }
  }

  // ------------------------------------------------------------------ numbers --

  lemma TensAndOnes(tens: nat, ones: nat)
    requires ones < 10 && tens > 0
    ensures Digits(10 * tens + ones) == Digits(tens) + ['0' + ones as char]
  {
  }

  lemma {:induction false} DigitsAreBack(s: string)
    requires s != "" && s[0] != '0' && forall i :: 0 <= i < |s| ==> IsDigit(s[i])
    ensures Digits(ToNumber(s)) == s && ToNumber(s) > 0
  {
    var front, last := s[..|s| - 1], (s[|s| - 1] - '0') as nat;
    assert s == front + ['0' + last as char];
    if front != "" {
      DigitsAreBack(front);
      TensAndOnes(ToNumber(front), last);
    }
  }

  function Power(n: nat): nat {
    if n == 0 then 1 else 10 * Power(n - 1)
  }

  lemma {:induction false} PowersGrow(k: nat)
    requires k > 0
    ensures Power(k) >= 10
  {
    if k > 1 { PowersGrow(k - 1); }
  }

  lemma {:induction false} DigitsCount(n: nat, k: nat)
    requires k > 0
    ensures |Digits(n)| <= k <==> n < Power(k)
  {
    DigitsAreRead(n);
    if n >= 10 {
      DigitsAreRead(n / 10);
      if k > 1 { DigitsCount(n / 10, k - 1); } else { assert Digits(n / 10) != ""; }
    } else {
      assert Power(k) >= 10 by { PowersGrow(k); }
    }
  }

  /** A port's word is how some number under a hundred thousand is written, and no
   *  other; it may be more than any port. */
  lemma PortWordsExactly(s: string)
    ensures IsPortWord(s) <==> exists n: nat :: 1 <= n < 100000 && s == Digits(n)
    ensures IsLabel(s) <==> s == "editor" || exists n: nat :: 1 <= n < 100000 && s == Digits(n)
  {
    assert Power(5) == 100000;
    if IsPortWord(s) {
      DigitsAreBack(s);
      DigitsCount(ToNumber(s), 5);
    }
    if n: nat :| 1 <= n < 100000 && s == Digits(n) {
      DigitsAreRead(n);
      DigitsCount(n, 5);
    }
  }

  // -------------------------------------------------------------------- paths --

  /** A path's segments, between its slashes. */
  function Segments(s: string): seq<string> {
    if '/' !in s then [s] else
      var i := FirstSlash(s);
      [s[..i]] + Segments(s[i + 1..])
  }

  function FirstSlash(s: string): (i: nat)
    requires '/' in s
    ensures i < |s| && s[i] == '/' && '/' !in s[..i]
  {
    if s[0] == '/' then 0 else
      var i := 1 + FirstSlash(s[1..]);
      assert s[..i] == [s[0]] + s[1..][..i - 1];
      i
  }

  /** `..` stands between slashes, or an end, at `i`. */
  ghost predicate Climbs(s: string, i: int) {
    0 <= i <= |s| && At(s, "..", i) && (i == 0 || s[i - 1] == '/') && (i + 2 == |s| || s[i + 2] == '/')
  }

  lemma OneSegmentClimbs(s: string)
    requires '/' !in s
    ensures (exists i :: Climbs(s, i)) <==> s == ".."
  {
    if i :| Climbs(s, i) {
      assert i == 0 && |s| == 2 && s[i + 0] == ".."[0] && s[i + 1] == ".."[1];
    }
    if s == ".." { assert Climbs(s, 0); }
  }

  lemma FirstSegmentClimbs(s: string, i: nat, j: int)
    requires i < |s| && s[i] == '/' && '/' !in s[..i]
    ensures j <= i ==> (Climbs(s, j) <==> j == 0 && s[..i] == "..")
    ensures j > i ==> (Climbs(s, j) <==> Climbs(s[i + 1..], j - i - 1))
  {
    var rest := s[i + 1..];
    assert forall k :: 0 <= k < i ==> s[..i][k] == s[k];
    if j <= i && Climbs(s, j) {
      assert s[j + 0] == ".."[0] && s[j + 1] == ".."[1];
      assert j + 2 == i && j == 0;
      assert s[..i] == "..";
    }
    if j == 0 && s[..i] == ".." {
      assert s[..i][0] == s[0] && s[..i][1] == s[1];
      assert Climbs(s, 0);
    }
    if j > i {
      assert forall k :: 0 <= k < |rest| ==> rest[k] == s[i + 1 + k];
      assert At(s, "..", j) <==> At(rest, "..", j - i - 1);
    }
  }

  lemma {:induction false} UpwardExactly(s: string)
    ensures (exists i :: Climbs(s, i)) <==> ".." in Segments(s)
    decreases |s|
  {
    if '/' !in s {
      OneSegmentClimbs(s);
    } else {
      var i := FirstSlash(s);
      UpwardExactly(s[i + 1..]);
      forall j ensures j <= i ==> (Climbs(s, j) <==> j == 0 && s[..i] == "..")
               ensures j > i ==> (Climbs(s, j) <==> Climbs(s[i + 1..], j - i - 1))
      {
        FirstSegmentClimbs(s, i, j);
      }
      var rest := s[i + 1..];
      if k :| Climbs(rest, k) { assert Climbs(s, k + i + 1); }
      if s[..i] == ".." { assert Climbs(s, 0); }
    }
  }

  /** A path below where it is used: it does not begin at the root, no segment of it
   *  goes up, and it ends neither a line nor a field. */
  lemma PathsWithinExactly(s: string)
    ensures RelativeWithin(s) <==>
            s != "" && Segments(s)[0] != "" && ".." !in Segments(s) && '\0' !in s && '\n' !in s && ',' !in s
  {
    UpwardExactly(s);
    if !NoUpward(s) {
      var i :| 0 <= i <= |s| && At(s, "..", i)
               && (i == 0 || s[i - 1] == '/') && (i + 2 == |s| || s[i + 2] == '/');
      assert Climbs(s, i);
    }
    if '/' in s && s != "" {
      assert Segments(s)[0] == s[..FirstSlash(s)];
      assert s[0] == '/' ==> FirstSlash(s) == 0;
    }
  }

  // -------------------------------------------------------------------- names --

  lemma SpacesExactly(c: char)
    ensures IsSpace(c) <==>
            var n := c as int;
            || 9 <= n <= 13 || n == 32 || n == 160 || n == 5760 || 8192 <= n <= 8202
            || n == 8232 || n == 8233 || n == 8239 || n == 8287 || n == 12288 || n == 65279
  {
  }

  /** No option to git, and one word. */
  lemma BranchesExactly(b: string)
    ensures ValidBranch(b) <==>
            && 1 <= |b| <= 255 && b[0] != '-'
            && forall c :: c in b ==> c as int > 31 && c as int != 127 && !IsSpace(c)
  {
  }

  lemma SegmentsOfNamesExactly(s: string)
    ensures N.Segment(s) <==>
            && 1 <= |s| <= 64 && s[0] in LOWER + UPPER + DIGITS
            && forall c :: c in s ==> c in LOWER + UPPER + DIGITS || c == '.' || c == '_' || c == '-'
  {
    forall c: char ensures IsAlnum(c) <==> c in LOWER + UPPER + DIGITS {
      AlnumExactly(c);
    }
  }

  lemma NoSlashInSegment(s: string)
    requires N.Segment(s)
    ensures '/' !in s
  {
    assert !N.SegmentChar('/');
  }

  lemma CutAtItsSlash(name: string, k: nat)
    requires k < |name| && name[k] == '/' && '/' !in name[..k]
    ensures FirstSlash(name) == k && Segments(name) == [name[..k]] + Segments(name[k + 1..])
  {
    var i := FirstSlash(name);
    assert forall j :: 0 <= j < k ==> name[..k][j] != '/';
    assert forall j :: 0 <= j < i ==> name[..i][j] != '/';
  }

  /** A project is named by one segment or two, and by none of the reserved sequences. */
  lemma ProjectNamesExactly(name: string)
    ensures N.ValidName(name) <==>
            && !Contains(name, "__") && !Contains(name, "--wt--")
            && |Segments(name)| <= 2 && forall s :: s in Segments(name) ==> N.Segment(s)
  {
    if '/' !in name {
      assert Segments(name) == [name];
    } else {
      var i := FirstSlash(name);
      CutAtItsSlash(name, i);
      assert name[..i] in Segments(name);
      var rest := name[i + 1..];
      if '/' !in rest { assert Segments(rest) == [rest]; }
      if N.ValidName(name) { ValidNameHasTwo(name); }
      if '/' in rest {
        CutAtItsSlash(rest, FirstSlash(rest));
        assert |Segments(rest)| >= 2;
      }
    }
  }

  lemma ValidNameHasTwo(name: string)
    requires N.ValidName(name) && '/' in name
    ensures var i := FirstSlash(name);
      N.Segment(name[..i]) && N.Segment(name[i + 1..]) && '/' !in name[i + 1..]
  {
    if N.Segment(name) { NoSlashInSegment(name); }
    var k :| 0 <= k < |name| && name[k] == '/' && N.Segment(name[..k]) && N.Segment(name[k + 1..]);
    NoSlashInSegment(name[..k]);
    NoSlashInSegment(name[k + 1..]);
    CutAtItsSlash(name, k);
  }

  /** A name has no docker name exactly if it holds a reserved sequence; it is not listed
   *  then, nor if it begins with a dot. An empty worktree is none. */
  lemma NamesAreRefusedExactly(name: string)
    ensures N.VolumeNamespace(name).None? <==> Contains(name, "__") || Contains(name, "--wt--")
    ensures P.IsVisible(name) <==> N.VolumeNamespace(name).Some? && !(name != "" && name[0] == '.')
    ensures N.Target(name, Some("")).Name() == N.Target(name, None).Name() == name
  {
  }

  /** A request is held to its names, its worktree if it is about one, and its values. */
  lemma RequestsAreAcceptedExactly(r: Request)
    ensures Accepted(r) <==> (r.On? ==>
              && N.ValidName(r.project)
              && (r.worktree == None || N.ValidWorktree(r.worktree.value))
              && (r.op.RemoveIt? || r.op.AddWorktree? ==> r.worktree != None)
              && (r.op.BundleIt? || r.op.PullIt? ==> IsTransferName(r.op.transfer))
              && (r.op.PortsOfIt? && r.op.move != None ==>
                    IsLabel(r.op.move.value.0) && 1 <= r.op.move.value.1 <= 65535)
              && (r.op.AddWorktree? ==>
                    && (if r.op.branch == None then ValidBranch(r.worktree.value) else ValidBranch(r.op.branch.value))
                    && (r.op.from == None || ValidBranch(r.op.from.value))))
  {
  }
}
