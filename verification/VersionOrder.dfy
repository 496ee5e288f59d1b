/** Comparing versions (Compare and comparePrerelease in pkg/version/version.go). */
module VersionOrder {
  import opened Options
  import opened Text
  import opened Version

  function Sign(n: int): (s: int)
    ensures (s == -1 <==> n < 0) && (s == 0 <==> n == 0) && (s == 1 <==> n > 0)
  {
    if n < 0 then -1 else if n > 0 then 1 else 0
  }

  // The difference of two numbers, in 64 bits.
  function Minus(a: int, b: int): int {
    (a - b + MAX_INT + 1) % (2 * (MAX_INT + 1)) - MAX_INT - 1
  }

  lemma MinusFits(a: int, b: int)
    requires 0 <= a <= MAX_INT && 0 <= b <= MAX_INT
    ensures Minus(a, b) == a - b
  {
  }

  // One identifier of a pre-release against another.
  function Identifiers(a: string, b: string): (c: int)
    ensures -1 <= c <= 1
  {
    match (Atoi(a), Atoi(b))
    case (Some(n), Some(m)) => if n != m then Sign(Minus(n, m)) else 0
    case (Some(_), None) => -1
    case (None, Some(_)) => 1
    case (None, None) => Compare(a, b)
  }

  function Lists(a: seq<string>, b: seq<string>): (c: int)
    ensures -1 <= c <= 1
  {
    if a == [] || b == [] then Sign(|a| - |b|)
    else
      var c := Identifiers(a[0], b[0]);
      if c != 0 then c else Lists(a[1..], b[1..])
  }

  method CompareIdentifiers(a: string, b: string) returns (c: int)
    ensures c == Identifiers(a, b)
  {
    var n, m := Atoi(a), Atoi(b);
    if n.Some? && m.Some? {
      if n.value != m.value { return Sign(Minus(n.value, m.value)); }
      return 0;
    }
    if n.Some? { return -1; }
    if m.Some? { return 1; }
    c := Compare(a, b);
  }

  lemma ListsFrom(a: seq<string>, b: seq<string>, i: nat)
    requires i < |a| && i < |b|
    ensures Lists(a[i..], b[i..]) == if Identifiers(a[i], b[i]) != 0 then Identifiers(a[i], b[i])
        else Lists(a[i + 1..], b[i + 1..])
  {
    assert a[i..][1..] == a[i + 1..] && b[i..][1..] == b[i + 1..];
  }

  method ComparePrerelease(a: string, b: string) returns (c: int)
    ensures c == Lists(Split(a, '.'), Split(b, '.'))
  {
    c := CompareLists(Split(a, '.'), Split(b, '.'));
  }

  method CompareLists(a: seq<string>, b: seq<string>) returns (c: int)
    ensures c == Lists(a, b)
  {
    var i := 0;
    while i < |a| && i < |b|
      invariant i <= |a| && i <= |b| && Lists(a, b) == Lists(a[i..], b[i..])
    {
      ListsFrom(a, b, i);
      c := CompareIdentifiers(a[i], b[i]);
      if c != 0 { return c; }
      i := i + 1;
    }
    c := Sign(|a| - |b|);
  }

  // What a version's pre-release ranks by.
  function Pre(v: Semver): seq<string> {
    Split(v.prerelease, '.')
  }

  // One version against another.
  function Ranked(v: Semver, w: Semver): (c: int)
    ensures -1 <= c <= 1
  {
    if v.major != w.major then Sign(Minus(v.major, w.major))
    else if v.minor != w.minor then Sign(Minus(v.minor, w.minor))
    else if v.patch != w.patch then Sign(Minus(v.patch, w.patch))
    else if v.prerelease == w.prerelease then 0
    else if v.prerelease == "" then 1
    else if w.prerelease == "" then -1
    else Lists(Pre(v), Pre(w))
  }

  // The version a string is, if it is one.
  ghost function Read(s: string): (r: Option<Semver>)
    ensures r.Some? ==> IsVersion(s, r.value)
    ensures r.None? ==> forall v :: !IsVersion(s, v)
  {
    if v :| IsVersion(s, v) then Some(v) else None
  }

  // What comparing two strings gives: what is not a version comes first.
  ghost function Order(a: string, b: string): (c: int)
    ensures -1 <= c <= 1
  {
    match (Read(a), Read(b))
    case (None, None) => 0
    case (None, Some(_)) => -1
    case (Some(_), None) => 1
    case (Some(v), Some(w)) => Ranked(v, w)
  }

  method CompareVersions(a: string, b: string) returns (c: int)
    ensures c == Order(a, b)
  {
    var va := Parse(a);
    var vb := Parse(b);
    assert va == Read(a) && vb == Read(b);
    if va.None? && vb.None? { return 0; }
    if va.None? { return -1; }
    if vb.None? { return 1; }
    c := Rank(va.value, vb.value);
  }

  method Rank(v: Semver, w: Semver) returns (c: int)
    requires Proper(v) && Proper(w)
    ensures c == Ranked(v, w)
  {
    MinusFits(v.major, w.major);
    MinusFits(v.minor, w.minor);
    MinusFits(v.patch, w.patch);
    c := FirstDifference([Minus(v.major, w.major), Minus(v.minor, w.minor), Minus(v.patch, w.patch)]);
    if c != 0 { return c; }
    if v.prerelease == w.prerelease { return 0; }
    if v.prerelease == "" { return 1; }
    if w.prerelease == "" { return -1; }
    c := ComparePrerelease(v.prerelease, w.prerelease);
  }

  method FirstDifference(d: seq<int>) returns (c: int)
    requires |d| == 3
    ensures c == if d[0] != 0 then Sign(d[0]) else if d[1] != 0 then Sign(d[1]) else Sign(d[2])
  {
    for i := 0 to 3
      invariant forall k :: 0 <= k < i ==> d[k] == 0
    {
      if d[i] != 0 {
        return Sign(d[i]);
      }
    }
    c := 0;
  }

  // No identifier reads as a number below zero, which semver.org has none of.
  predicate Unsigned(i: string) {
    Atoi(i).Some? ==> Atoi(i).value >= 0
  }

  predicate AllUnsigned(ids: seq<string>) {
    forall k :: 0 <= k < |ids| ==> Unsigned(ids[k])
  }

  lemma IdentifiersFlip(a: string, b: string)
    requires Unsigned(a) && Unsigned(b)
    ensures Identifiers(b, a) == -Identifiers(a, b)
  {
    if Atoi(a).Some? && Atoi(b).Some? {
      MinusFits(Atoi(a).value, Atoi(b).value);
      MinusFits(Atoi(b).value, Atoi(a).value);
    }
    CompareFlips(a, b);
  }

  lemma IdentifiersChain(a: string, b: string, c: string)
    requires Unsigned(a) && Unsigned(b) && Unsigned(c)
    requires Identifiers(a, b) <= 0 && Identifiers(b, c) <= 0
    ensures Identifiers(a, c) <= 0
    ensures Identifiers(a, b) < 0 || Identifiers(b, c) < 0 ==> Identifiers(a, c) < 0
  {
    match (Atoi(a), Atoi(b), Atoi(c)) {
      case (Some(x), Some(y), Some(z)) =>
        MinusFits(x, y);
        MinusFits(y, z);
        MinusFits(x, z);
      case (None, None, None) => CompareChains(a, b, c);
      case _ =>
    }
  }

  lemma {:induction false} ListsFlip(a: seq<string>, b: seq<string>)
    requires AllUnsigned(a) && AllUnsigned(b)
    ensures Lists(b, a) == -Lists(a, b)
  {
    if a != [] && b != [] {
      IdentifiersFlip(a[0], b[0]);
      ListsFlip(a[1..], b[1..]);
    }
  }

  lemma {:induction false} ListsChain(a: seq<string>, b: seq<string>, c: seq<string>)
    requires AllUnsigned(a) && AllUnsigned(b) && AllUnsigned(c)
    requires Lists(a, b) <= 0 && Lists(b, c) <= 0
    ensures Lists(a, c) <= 0
    ensures Lists(a, b) < 0 || Lists(b, c) < 0 ==> Lists(a, c) < 0
  {
    if a != [] && b != [] && c != [] {
      IdentifiersChain(a[0], b[0], c[0]);
      IdentifiersFlip(a[0], b[0]);
      IdentifiersFlip(b[0], c[0]);
      IdentifiersFlip(a[0], c[0]);
      if Identifiers(a[0], b[0]) == 0 && Identifiers(b[0], c[0]) == 0 {
        IdentifiersChain(c[0], b[0], a[0]);
        ListsChain(a[1..], b[1..], c[1..]);
      }
    }
  }

  ghost predicate Plain(s: string) {
    Read(s).Some? ==> AllUnsigned(Pre(Read(s).value))
  }

  lemma RankedFlips(v: Semver, w: Semver)
    requires Proper(v) && Proper(w) && AllUnsigned(Pre(v)) && AllUnsigned(Pre(w))
    ensures Ranked(w, v) == -Ranked(v, w)
  {
    MinusFits(v.major, w.major);
    MinusFits(v.minor, w.minor);
    MinusFits(v.patch, w.patch);
    MinusFits(w.major, v.major);
    MinusFits(w.minor, v.minor);
    MinusFits(w.patch, v.patch);
    ListsFlip(Pre(v), Pre(w));
  }

  // The numbers of two versions, and where they differ in nothing else.
  predicate Before(v: Semver, w: Semver) {
    v.major < w.major || (v.major == w.major && (v.minor < w.minor || (v.minor == w.minor && v.patch < w.patch)))
  }

  predicate Level(v: Semver, w: Semver) {
    v.major == w.major && v.minor == w.minor && v.patch == w.patch
  }

  lemma ByTheNumbers(v: Semver, w: Semver)
    requires Proper(v) && Proper(w)
    ensures Before(v, w) ==> Ranked(v, w) == -1
    ensures Before(w, v) ==> Ranked(v, w) == 1
    ensures Level(v, w) || Before(v, w) || Before(w, v)
  {
    MinusFits(v.major, w.major);
    MinusFits(v.minor, w.minor);
    MinusFits(v.patch, w.patch);
  }

  lemma ListsReflexive(a: seq<string>)
    ensures Lists(a, a) == 0
  {
    if a != [] { ListsReflexive(a[1..]); }
  }

  lemma RankedChains(u: Semver, v: Semver, w: Semver)
    requires Proper(u) && Proper(v) && Proper(w)
    requires AllUnsigned(Pre(u)) && AllUnsigned(Pre(v)) && AllUnsigned(Pre(w))
    requires Ranked(u, v) <= 0 && Ranked(v, w) <= 0
    ensures Ranked(u, w) <= 0
    ensures Ranked(u, v) < 0 || Ranked(v, w) < 0 ==> Ranked(u, w) < 0
  {
    ByTheNumbers(u, v);
    ByTheNumbers(v, w);
    ByTheNumbers(u, w);
    if Level(u, v) && Level(v, w) && u.prerelease != "" && v.prerelease != "" && w.prerelease != "" {
      ListsReflexive(Pre(u));
      ListsReflexive(Pre(v));
      ListsChain(Pre(u), Pre(v), Pre(w));
    }
  }

  /** Compare is a total preorder that no non-version exceeds. */
  lemma TotalPreorder(a: string, b: string, c: string)
    requires Plain(a) && Plain(b) && Plain(c)
    ensures Order(a, a) == 0
    ensures Order(b, a) == -Order(a, b)
    ensures Order(a, b) <= 0 && Order(b, c) <= 0 ==> Order(a, c) <= 0
    ensures Order(a, b) <= 0 && Order(b, c) <= 0 && (Order(a, b) < 0 || Order(b, c) < 0) ==> Order(a, c) < 0
    ensures Read(a).None? ==> Order(a, b) <= 0
  {
    match (Read(a), Read(b)) {
      case (Some(v), Some(w)) =>
        RankedFlips(v, w);
        if Read(c).Some? && Order(a, b) <= 0 && Order(b, c) <= 0 {
          RankedChains(v, w, Read(c).value);
        }
      case _ =>
    }
  }

  lemma MinusWraps(n: int)
    requires -MAX_INT - 1 <= n < 0
    ensures Minus(n, 0) == n && Minus(MAX_INT, n) < 0
  {
  }

  lemma Numbers(a: string, b: string)
    requires Atoi(a).Some? && Atoi(b).Some?
    ensures Identifiers(a, b) == if Atoi(a) == Atoi(b) then 0 else Sign(Minus(Atoi(a).value, Atoi(b).value))
  {
  }

  /**
   Every identifier below zero breaks the order: in 64 bits the largest number
   comes before it, as it comes before zero and zero before the largest.
   */
  lemma BelowZeroIsACircle(i: string, zero: string, largest: string)
    requires Atoi(zero) == Some(0) && Atoi(largest) == Some(MAX_INT)
    ensures !Unsigned(i) <==> Identifiers(i, zero) < 0 && Identifiers(zero, largest) < 0 && Identifiers(largest, i) < 0
  {
    Numbers(zero, largest);
    MinusFits(0, MAX_INT);
    if Atoi(i).Some? {
      var n := Atoi(i).value;
      Numbers(i, zero);
      Numbers(largest, i);
      if n < 0 { MinusWraps(n); } else { MinusFits(MAX_INT, n); MinusFits(n, 0); }
    }
  }
}
