/**
Precedence as section 11 of Semantic Versioning 2.0.0 defines it, and where
Compare keeps to it.
*/
module Precedence {
  import opened Options
  import opened Text
  import opened Version
  import opened VersionOrder

  // Items 11.4.1 to 11.4.3: digits alone are a number, numbers come before
  // what is not one, and the rest is in ASCII order.
  ghost predicate Lower(a: string, b: string) {
    if AllDigits(a) then !AllDigits(b) || DigitsValue(a) < DigitsValue(b)
    else !AllDigits(b) && Compare(a, b) < 0
  }

  ghost predicate Equal(a: string, b: string) {
    !Lower(a, b) && !Lower(b, a)
  }

  ghost predicate EqualUpTo(a: seq<string>, b: seq<string>, k: nat) {
    k <= |a| && k <= |b| && forall i :: 0 <= i < k ==> Equal(a[i], b[i])
  }

  // Items 11.4 and 11.4.4: the first identifier that differs decides, and
  // otherwise the longer list is the higher.
  ghost predicate LowerAt(a: seq<string>, b: seq<string>, k: nat) {
    EqualUpTo(a, b, k) && k < |b| && (k == |a| || Lower(a[k], b[k]))
  }

  ghost predicate LowerPrerelease(a: seq<string>, b: seq<string>) {
    exists k: nat :: LowerAt(a, b, k)
  }

  // Items 11.2 and 11.3: the numbers, then a pre-release before its release.
  ghost predicate LowerVersion(v: Semver, w: Semver) {
    Before(v, w) || (Level(v, w) && v.prerelease != ""
                     && (w.prerelease == "" || LowerPrerelease(Pre(v), Pre(w))))
  }

  // What the number reader takes for a number is one: no sign, and 64 bits are enough.
  predicate Ordinary(i: string) {
    Atoi(i).Some? <==> AllDigits(i)
  }

  predicate AllOrdinary(ids: seq<string>) {
    forall k :: 0 <= k < |ids| ==> Ordinary(ids[k])
  }

  // What the digits of an ordinary number read as.
  lemma ReadsAsItsDigits(i: string)
    requires Ordinary(i)
    ensures Atoi(i) == if AllDigits(i) then Some(DigitsValue(i)) else None
    ensures AllDigits(i) ==> DigitsValue(i) <= MAX_INT
  {
    if AllDigits(i) {
      assert IsDigit(i[0]);
    }
  }

  lemma OrdinaryIdentifiers(a: string, b: string)
    requires Ordinary(a) && Ordinary(b)
    ensures Identifiers(a, b) < 0 <==> Lower(a, b)
    ensures Identifiers(a, b) > 0 <==> Lower(b, a)
  {
    ReadsAsItsDigits(a);
    ReadsAsItsDigits(b);
    CompareFlips(a, b);
    if AllDigits(a) && AllDigits(b) {
      MinusFits(DigitsValue(a), DigitsValue(b));
    }
  }

  // Keeping to the precedence with one identifier.
  ghost predicate Agrees(i: string, j: string) {
    (Identifiers(i, j) < 0 <==> Lower(i, j)) && (Identifiers(i, j) > 0 <==> Lower(j, i))
  }

  /**
   An identifier is compared as section 11 says, with every ordinary one, if and
   only if it is ordinary itself: signed numbers and numbers beyond 64 bits are not.
   */
  lemma OrdinaryOrNot(i: string)
    ensures Ordinary(i) <==> forall j :: Ordinary(j) ==> Agrees(i, j)
  {
    if Ordinary(i) {
      forall j | Ordinary(j) ensures Agrees(i, j) {
        OrdinaryIdentifiers(i, j);
      }
    } else if Atoi(i).Some? {
      AtoiItoa(MAX_INT);
      SignedAgainstLargest(i, Itoa(MAX_INT));
    } else {
      DashIsOrdinary();
      DigitsBeforeDash(i);
    }
  }

  lemma ZeroIsOrdinary()
    ensures AllDigits("0") && Atoi("0") == Some(0)
  {
    assert DigitsValue("0") == 0;
  }

  lemma DashIsOrdinary()
    ensures Ordinary("-") && !AllDigits("-") && Atoi("-") == None
  {
    assert !IsDigit("-"[0]);
  }

  // A number comes before a dash, yet its text comes after.
  lemma DigitsBeforeDash(i: string)
    requires AllDigits(i) && Atoi(i).None?
    ensures !Agrees(i, "-")
  {
    assert IsDigit(i[0]);
    DashIsOrdinary();
  }

  // A signed number is no number, so every number comes before it; read as one,
  // it never comes after the largest.
  lemma SignedAgainstLargest(i: string, largest: string)
    requires Atoi(i).Some? && !AllDigits(i) && Atoi(largest) == Some(MAX_INT) && AllDigits(largest)
    ensures exists j :: Ordinary(j) && !Agrees(i, j)
  {
    assert Lower(largest, i);
    var n := Atoi(i).value;
    VersionOrder.Numbers(i, largest);
    if 0 <= n {
      MinusFits(n, MAX_INT);
      assert Ordinary(largest) && !Agrees(i, largest);
    } else {
      ZeroIsOrdinary();
      VersionOrder.Numbers(i, "0");
      MinusWraps(n);
      assert Ordinary("0") && !Agrees(i, "0");
    }
  }

  lemma NoneLower(a: seq<string>, b: seq<string>)
    requires a == [] || b == []
    ensures LowerPrerelease(a, b) <==> |a| < |b|
  {
    assert |a| < |b| ==> LowerAt(a, b, 0);
  }

  lemma FirstDecides(a: seq<string>, b: seq<string>)
    requires a != [] && b != [] && !Equal(a[0], b[0])
    ensures LowerPrerelease(a, b) <==> Lower(a[0], b[0])
  {
    if Lower(a[0], b[0]) {
      assert LowerAt(a, b, 0);
    }
    forall k: nat ensures LowerAt(a, b, k) ==> k == 0 {}
  }

  lemma RestDecides(a: seq<string>, b: seq<string>)
    requires a != [] && b != [] && Equal(a[0], b[0])
    ensures LowerPrerelease(a, b) <==> LowerPrerelease(a[1..], b[1..])
  {
    if k: nat :| LowerAt(a, b, k) {
      assert k > 0;
      forall i | 0 <= i < k - 1 ensures Equal(a[1..][i], b[1..][i]) {
        assert Equal(a[i + 1], b[i + 1]);
      }
      assert LowerAt(a[1..], b[1..], k - 1);
    }
    if k: nat :| LowerAt(a[1..], b[1..], k) {
      forall i | 0 <= i < k + 1 ensures Equal(a[i], b[i]) {
        assert i > 0 ==> Equal(a[1..][i - 1], b[1..][i - 1]);
      }
      assert LowerAt(a, b, k + 1);
    }
  }

  lemma {:induction false} OrdinaryLists(a: seq<string>, b: seq<string>)
    requires AllOrdinary(a) && AllOrdinary(b)
    ensures Lists(a, b) < 0 <==> LowerPrerelease(a, b)
  {
    if a == [] || b == [] {
      NoneLower(a, b);
    } else {
      OrdinaryIdentifiers(a[0], b[0]);
      if Identifiers(a[0], b[0]) == 0 {
        RestDecides(a, b);
        OrdinaryLists(a[1..], b[1..]);
      } else {
        FirstDecides(a, b);
      }
    }
  }

  lemma OrdinaryIsUnsigned(ids: seq<string>)
    requires AllOrdinary(ids)
    ensures AllUnsigned(ids)
  {
    forall k | 0 <= k < |ids| ensures Unsigned(ids[k]) {
      ReadsAsItsDigits(ids[k]);
    }
  }

  /** Versions of ordinary identifiers are compared as section 11 says. */
  lemma ComparesByPrecedence(a: string, b: string)
    requires Read(a).Some? && Read(b).Some?
    requires AllOrdinary(Pre(Read(a).value)) && AllOrdinary(Pre(Read(b).value))
    ensures Order(a, b) < 0 <==> LowerVersion(Read(a).value, Read(b).value)
    ensures Order(a, b) > 0 <==> LowerVersion(Read(b).value, Read(a).value)
  {
    var v, w := Read(a).value, Read(b).value;
    OrdinaryIsUnsigned(Pre(v));
    OrdinaryIsUnsigned(Pre(w));
    RankedFlips(v, w);
    RankedByPrecedence(v, w);
    RankedByPrecedence(w, v);
  }

  lemma RankedByPrecedence(v: Semver, w: Semver)
    requires Proper(v) && Proper(w) && AllOrdinary(Pre(v)) && AllOrdinary(Pre(w))
    ensures Ranked(v, w) < 0 <==> LowerVersion(v, w)
  {
    ByTheNumbers(v, w);
    OrdinaryLists(Pre(v), Pre(w));
    ListsReflexive(Pre(v));
  }
}
