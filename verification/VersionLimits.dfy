/**
Exactly which versions the order of Compare (pkg/version/version.go) goes wrong
for, told by versions made from them: cut after an identifier, with another in its place.
*/
module VersionLimits {
  import opened Options
  import opened Text
  import opened Version
  import opened VersionOrder
  import opened Precedence

  // What can take the place of an identifier.
  predicate Harmless(d: string) {
    d != "" && 'g' !in d && '.' !in d && '+' !in d && d[|d| - 1] != 'y'
  }

  lemma {:induction false} JoinEnds(parts: seq<string>) returns (front: string)
    requires parts != []
    ensures Join(parts, '.') == front + parts[|parts| - 1]
    ensures front == "" || front[|front| - 1] == '.'
  {
    if |parts| == 1 {
      front := "";
    } else {
      var f := JoinEnds(parts[1..]);
      front := parts[0] + "." + f;
    }
  }

  lemma {:induction false} JoinHasNo(parts: seq<string>, c: char)
    requires parts != [] && c != '.' && forall k :: 0 <= k < |parts| ==> c !in parts[k]
    ensures c !in Join(parts, '.')
  {
    if |parts| > 1 {
      JoinHasNo(parts[1..], c);
    }
  }

  lemma InTheSecond(a: string, b: string, i: int)
    ensures |a| <= i < |a + b| ==> (a + b)[i] in b
  {
    assert |a| <= i < |a + b| ==> (a + b)[i] == b[i - |a|];
  }

  lemma SuffixHasItsG(front: string, d: string, base: string, count: string, hash: string, tail: string)
    requires CommitSuffix(front + d, base, count, hash, tail) && (front == "" || front[|front| - 1] == '.')
    ensures 'g' in d
  {
    var m := count + "-g" + hash + tail;
    assert front + d == base + m;
    assert '.' !in m by {
      assert forall i :: 0 <= i < |count| ==> IsDigit(count[i]);
      assert forall i :: 0 <= i < |hash| ==> IsHex(hash[i]);
    }
    assert m[|count| + 1] == 'g';
    InTheSecond(base, m, |front| - 1);
    InTheSecond(front, d, |base| + |count| + 1);
    assert (base + m)[|base| + |count| + 1] == m[|count| + 1];
  }

  // No commit's suffix ends in it.
  lemma NoCommitThere(front: string, d: string)
    requires Harmless(d) && (front == "" || front[|front| - 1] == '.')
    ensures !Described(front + d)
  {
    var p := front + d;
    assert p[|p| - 1] == d[|d| - 1];
    if base, count, hash, tail :| CommitSuffix(p, base, count, hash, tail) {
      SuffixHasItsG(front, d, base, count, hash, tail);
    }
  }

  // v with identifier k replaced and the rest cut off.
  function Cropped(v: Semver, k: nat, d: string): Semver
    requires k < |Pre(v)|
  {
    v.(prerelease := Join(Pre(v)[..k] + [d], '.'))
  }

  // A string that is read as that.
  function Render(v: Semver): string
    requires v.major >= 0 && v.minor >= 0 && v.patch >= 0
  {
    Shown(v) + "+"
  }

  lemma ReadIsUnique(s: string, v: Semver)
    requires IsVersion(s, v)
    ensures Read(s) == Some(v)
  {
    var w := Read(s).value;
    ShownSplits(v);
    ShownSplits(w);
    SameCore(v, w);
  }

  lemma NoPlus(s: string, v: Semver)
    requires IsVersion(s, v)
    ensures '+' !in v.prerelease && forall k :: 0 <= k < |Pre(v)| ==> '+' !in Pre(v)[k]
  {
    var i := |Shown(v)| - |v.prerelease|;
    assert v.prerelease == Shown(v)[i..];
    PartsHaveNo(v.prerelease, '+');
  }

  lemma {:induction false} PartsHaveNo(s: string, c: char)
    requires c !in s
    ensures forall k :: 0 <= k < |Split(s, '.')| ==> c !in Split(s, '.')[k]
    decreases |s|
  {
    var (before, after) := Cut(s, '.');
    if after.Some? {
      PartsHaveNo(after.value, c);
    }
  }

  lemma CroppedParts(v: Semver, k: nat, d: string)
    requires k < |Pre(v)| && Harmless(d) && forall j :: 0 <= j < k ==> '+' !in Pre(v)[j]
    ensures var w := Cropped(v, k, d);
      Pre(w) == Pre(v)[..k] + [d] && w.prerelease != "" && '+' !in w.prerelease && !Described(w.prerelease)
  {
    var parts := Pre(v)[..k] + [d];
    var front := JoinEnds(parts);
    NoCommitThere(front, d);
    JoinHasNo(parts, '+');
    SplitJoin(parts, '.');
  }

  lemma RenderReads(w: Semver)
    requires Proper(w) && '+' !in w.prerelease
    ensures Read(Render(w)) == Some(w)
  {
    BodyOfShown(w, "");
    assert Shown(w) + "+" + "" == Render(w);
    ReadIsUnique(Render(w), w);
  }

  lemma CroppedReads(s: string, v: Semver, k: nat, d: string)
    requires IsVersion(s, v) && k < |Pre(v)| && Harmless(d)
    ensures Read(Render(Cropped(v, k, d))) == Some(Cropped(v, k, d))
    ensures Pre(Cropped(v, k, d)) == Pre(v)[..k] + [d] && Cropped(v, k, d).prerelease != ""
  {
    NoPlus(s, v);
    CroppedParts(v, k, d);
    RenderReads(Cropped(v, k, d));
  }

  lemma {:induction false} FirstToDiffer(a: seq<string>, b: seq<string>, k: nat)
    requires k < |a| && k < |b| && a[..k] == b[..k] && Identifiers(a[k], b[k]) != 0
    ensures Lists(a, b) == Identifiers(a[k], b[k])
  {
    if k > 0 {
      assert a[..k][0] == b[..k][0];
      assert Identifiers(a[0], a[0]) == 0;
      assert a[1..][..k - 1] == a[..k][1..] && b[1..][..k - 1] == b[..k][1..];
      FirstToDiffer(a[1..], b[1..], k - 1);
    }
  }

  // How versions with the same numbers compare that differ in an identifier first.
  lemma RankedAt(v: Semver, w: Semver, k: nat)
    requires Level(v, w) && v.prerelease != "" && w.prerelease != "" && k < |Pre(v)| && k < |Pre(w)|
    requires Pre(v)[..k] == Pre(w)[..k] && Identifiers(Pre(v)[k], Pre(w)[k]) != 0
    ensures Ranked(v, w) == Identifiers(Pre(v)[k], Pre(w)[k])
  {
    FirstToDiffer(Pre(v), Pre(w), k);
    ListsReflexive(Pre(v));
  }

  ghost predicate Circle(a: string, b: string, c: string) {
    Order(a, b) < 0 && Order(b, c) < 0 && Order(c, a) < 0
  }

  lemma {:induction false} FirstNot(ids: seq<string>, p: string -> bool) returns (k: nat)
    requires exists j :: 0 <= j < |ids| && !p(ids[j])
    ensures k < |ids| && !p(ids[k]) && forall j :: 0 <= j < k ==> p(ids[j])
  {
    if !p(ids[0]) {
      k := 0;
    } else {
      var j :| 0 <= j < |ids| && !p(ids[j]);
      assert ids[1..][j - 1] == ids[j];
      var n := FirstNot(ids[1..], p);
      k := n + 1;
      assert forall i :: 0 < i < k ==> ids[i] == ids[1..][i - 1];
    }
  }

  // What the largest number of 64 bits is written as.
  const LARGEST := Itoa(MAX_INT)

  lemma NumbersAreHarmless()
    ensures Harmless("0") && Harmless(LARGEST) && Harmless("-")
    ensures Atoi("0") == Some(0) && Atoi(LARGEST) == Some(MAX_INT) && AllDigits("0") && AllDigits(LARGEST)
  {
    ZeroIsOrdinary();
    AtoiItoa(MAX_INT);
    assert IsDigit(LARGEST[|LARGEST| - 1]);
    forall c | !IsDigit(c) ensures c !in LARGEST { ItoaHasNo(MAX_INT, c); }
  }

  lemma PlainCropped(s: string, v: Semver, k: nat, d: string)
    requires IsVersion(s, v) && k < |Pre(v)| && Harmless(d) && Unsigned(d)
    requires forall j :: 0 <= j < k ==> Unsigned(Pre(v)[j])
    ensures Plain(Render(Cropped(v, k, d)))
  {
    CroppedReads(s, v, k, d);
  }

  /**
   Compare is a total preorder but for the versions that are not Plain, and
   each of those is on a circle with two that are.
   */
  lemma OnACircle(a: string)
    ensures !Plain(a) <==> exists b, c :: Plain(b) && Plain(c) && Circle(a, b, c)
  {
    if !Plain(a) {
      var b, c := TheirCircle(a);
    } else {
      forall b, c | Plain(b) && Plain(c) ensures !Circle(a, b, c) {
        TotalPreorder(a, b, c);
        TotalPreorder(c, a, b);
      }
    }
  }

  lemma TheirCircle(a: string) returns (b: string, c: string)
    requires !Plain(a)
    ensures Plain(b) && Plain(c) && Circle(a, b, c)
  {
    var v := Read(a).value;
    var k := FirstNot(Pre(v), Unsigned);
    NumbersAreHarmless();
    BelowZeroIsACircle(Pre(v)[k], "0", LARGEST);
    b, c := Render(Cropped(v, k, "0")), Render(Cropped(v, k, LARGEST));
    CroppedReads(a, v, k, "0");
    CroppedReads(a, v, k, LARGEST);
    PlainCropped(a, v, k, "0");
    PlainCropped(a, v, k, LARGEST);
    assert Pre(v) != [""];
    RankedAt(v, Cropped(v, k, "0"), k);
    RankedAt(Cropped(v, k, "0"), Cropped(v, k, LARGEST), k);
    RankedAt(Cropped(v, k, LARGEST), v, k);
  }

  lemma MinusFiveIsNoCommit()
    ensures !Described("-5")
  {
    SplitStep("", "5");
    SplitStep("5", "");
    assert "" + "-" + "5" == "-5";
    WithoutItsEnd("-5");
    assert TrimSuffix(TrimSuffix("-5", "dirty"), "-") == "-5";
    ByItsParts("-5", "", "5", "5");
  }

  lemma MinusFive()
    ensures Atoi("-5") == Some(-5) && Split("-5", '.') == ["-5"]
  {
    assert "-5"[1..] == "5" && DigitsValue("5") == 5;
    assert '.' !in "-5";
  }

  lemma ShownFive()
    ensures Shown(Semver(1, 0, 0, "-5")) == "1.0.0--5"
  {
    assert Itoa(1) == "1" && Itoa(0) == "0";
    assert Core(Semver(1, 0, 0, "-5")) == "1.0.0";
  }

  /** Such a version: 1.0.0--5 comes before 1.0.0-0, that before 1.0.0-9223372036854775807, and that before 1.0.0--5. */
  lemma BelowZeroIsAVersion()
    ensures Read("1.0.0--5") == Some(Semver(1, 0, 0, "-5")) && !Plain("1.0.0--5")
  {
    var v := Semver(1, 0, 0, "-5");
    MinusFiveIsNoCommit();
    ShownFive();
    Untagged(v);
    ReadIsUnique("1.0.0--5", v);
    MinusFive();
    assert Pre(v)[0] == "-5" && !Unsigned("-5");
  }

  // A version keeps to section 11 with another.
  ghost predicate Keeps(a: string, b: string)
    requires Read(a).Some? && Read(b).Some?
  {
    && (Order(a, b) < 0 <==> LowerVersion(Read(a).value, Read(b).value))
    && (Order(a, b) > 0 <==> LowerVersion(Read(b).value, Read(a).value))
  }

  ghost predicate OrdinaryVersion(a: string) {
    Read(a).Some? && AllOrdinary(Pre(Read(a).value))
  }

  // With which of three ordinary identifiers it does not.
  lemma DisagreesWith(i: string) returns (j: string)
    requires !Ordinary(i) && '+' !in i
    ensures Harmless(j) && Ordinary(j) && Identifiers(i, j) != 0
    ensures Lower(i, j) || Lower(j, i)
    ensures !Agrees(i, j)
  {
    NumbersAreHarmless();
    DashIsOrdinary();
    if Atoi(i).None? {
      j := "-";
      DigitsBeforeDash(i);
      assert IsDigit(i[0]);
    } else {
      var n := Atoi(i).value;
      assert i[0] == '-' && n <= 0 by { assert i[0] in i; }
      j := if n == 0 then LARGEST else "0";
      VersionOrder.Numbers(i, j);
      if n == 0 { MinusFits(0, MAX_INT); } else { MinusWraps(n); }
    }
  }

  lemma {:induction false} LowerAtTheFirst(a: seq<string>, b: seq<string>, k: nat)
    requires k < |a| && k < |b| && a[..k] == b[..k] && !Equal(a[k], b[k])
    ensures LowerPrerelease(a, b) <==> Lower(a[k], b[k])
  {
    if k == 0 {
      FirstDecides(a, b);
    } else {
      assert a[..k][0] == b[..k][0];
      RestDecides(a, b);
      assert a[1..][..k - 1] == a[..k][1..] && b[1..][..k - 1] == b[..k][1..];
      LowerAtTheFirst(a[1..], b[1..], k - 1);
    }
  }

  lemma LowerVersionAt(v: Semver, w: Semver, k: nat)
    requires Level(v, w) && v.prerelease != "" && w.prerelease != "" && k < |Pre(v)| && k < |Pre(w)|
    requires Pre(v)[..k] == Pre(w)[..k] && !Equal(Pre(v)[k], Pre(w)[k])
    ensures LowerVersion(v, w) <==> Lower(Pre(v)[k], Pre(w)[k])
  {
    LowerAtTheFirst(Pre(v), Pre(w), k);
  }

  ghost predicate RanksRight(v: Semver, w: Semver) {
    (Ranked(v, w) < 0 <==> LowerVersion(v, w)) && (Ranked(v, w) > 0 <==> LowerVersion(w, v))
  }

  lemma RanksWrong(v: Semver, w: Semver, k: nat)
    requires Level(v, w) && v.prerelease != "" && w.prerelease != "" && k < |Pre(v)| && k < |Pre(w)|
    requires Pre(v)[..k] == Pre(w)[..k] && Identifiers(Pre(v)[k], Pre(w)[k]) != 0
    requires !Equal(Pre(v)[k], Pre(w)[k]) && !Agrees(Pre(v)[k], Pre(w)[k])
    ensures !RanksRight(v, w)
  {
    RankedAt(v, w, k);
    LowerVersionAt(v, w, k);
    LowerVersionAt(w, v, k);
  }

  lemma OrdinaryCropped(s: string, v: Semver, k: nat, d: string)
    requires IsVersion(s, v) && k < |Pre(v)| && Harmless(d) && Ordinary(d)
    requires forall j :: 0 <= j < k ==> Ordinary(Pre(v)[j])
    ensures OrdinaryVersion(Render(Cropped(v, k, d)))
  {
    CroppedReads(s, v, k, d);
  }

  lemma CroppedRanksWrong(s: string, v: Semver, k: nat, d: string)
    requires IsVersion(s, v) && k < |Pre(v)| && Harmless(d) && !Ordinary(Pre(v)[k])
    requires Identifiers(Pre(v)[k], d) != 0 && !Equal(Pre(v)[k], d) && !Agrees(Pre(v)[k], d)
    ensures !RanksRight(v, Cropped(v, k, d))
  {
    CroppedReads(s, v, k, d);
    assert Pre(v)[k] in Pre(v);
    NotEmpty(v, Pre(v)[k]);
    RanksWrong(v, Cropped(v, k, d), k);
  }

  lemma NotEmpty(v: Semver, i: string)
    requires i in Pre(v) && !Ordinary(i)
    ensures v.prerelease != ""
  {
  }

  lemma NotKept(a: string) returns (b: string)
    requires Read(a).Some? && !OrdinaryVersion(a)
    ensures OrdinaryVersion(b) && !Keeps(a, b)
  {
    var v := Read(a).value;
    var k := FirstNot(Pre(v), Ordinary);
    NoPlus(a, v);
    var j := DisagreesWith(Pre(v)[k]);
    b := Render(Cropped(v, k, j));
    OrdinaryCropped(a, v, k, j);
    CroppedRanksWrong(a, v, k, j);
    CroppedReads(a, v, k, j);
    KeepsIsRanks(a, b);
  }

  lemma KeepsIsRanks(a: string, b: string)
    requires Read(a).Some? && Read(b).Some?
    ensures Keeps(a, b) <==> RanksRight(Read(a).value, Read(b).value)
  {
  }

  /**
   Compare keeps to section 11 for a version, with every version of ordinary
   identifiers, if and only if its own are ordinary.
   */
  lemma KeepsExactly(a: string)
    requires Read(a).Some?
    ensures OrdinaryVersion(a) <==> forall b :: OrdinaryVersion(b) ==> Keeps(a, b)
  {
    if OrdinaryVersion(a) {
      forall b | OrdinaryVersion(b) ensures Keeps(a, b) {
        ComparesByPrecedence(a, b);
      }
    } else {
      var b := NotKept(a);
    }
  }
}
