/**
The redirects of a proxy block (validatePathRedirects in pkg/spec/proxy.go):
which of them lead back to where they start.
*/
module Redirects {
  import opened Options

  // A redirect as the file has it. `target` is the path it leads to on the
  // same host, empty for another host; the two flags say whether its source
  // passes the checks that look at nothing else, and whether the rest does.
  datatype Redirect = Redirect(from: string, target: string, fromOk: bool, restOk: bool)

  datatype Complaint =
    | Invalid(entry: nat)
    | Twice(entry: nat)
    | ToItself(entry: nat)
    | LeadsBack(entry: nat)

  // Lower case, as the proxy compares paths.
  function PathKey(p: string): string {
    if p == "" then ""
    else [if 'A' <= p[0] <= 'Z' then (p[0] as int + 32) as char else p[0]] + PathKey(p[1..])
  }

  // A character is the same as another in any case.
  predicate SameLetter(c: char, d: char) {
    c == d || ('A' <= c <= 'Z' && d as int == c as int + 32) || ('A' <= d <= 'Z' && c as int == d as int + 32)
  }

  predicate SameLetters(p: string, q: string) {
    |p| == |q| && forall k :: 0 <= k < |p| ==> SameLetter(p[k], q[k])
  }

  lemma SameFromTheSecond(p: string, q: string)
    requires p != "" && q != ""
    ensures SameLetters(p, q) <==> SameLetter(p[0], q[0]) && SameLetters(p[1..], q[1..])
  {
    if SameLetter(p[0], q[0]) && SameLetters(p[1..], q[1..]) {
      forall k | 0 <= k < |p| ensures SameLetter(p[k], q[k]) {
        if k > 0 { assert SameLetter(p[1..][k - 1], q[1..][k - 1]); }
      }
    }
  }

  lemma KeyStep(p: string, q: string)
    requires p != "" && q != ""
    ensures PathKey(p) == PathKey(q) <==> SameLetter(p[0], q[0]) && PathKey(p[1..]) == PathKey(q[1..])
  {
    assert PathKey(p)[1..] == PathKey(p[1..]) && PathKey(q)[1..] == PathKey(q[1..]);
    assert PathKey(p)[0] == PathKey(q)[0] <==> SameLetter(p[0], q[0]);
  }

  /** Paths have one key exactly if they differ in nothing but the case of their letters. */
  lemma {:induction false} KeysFold(p: string, q: string)
    ensures PathKey(p) == PathKey(q) <==> SameLetters(p, q)
  {
    if p != "" && q != "" {
      KeysFold(p[1..], q[1..]);
      KeyStep(p, q);
      SameFromTheSecond(p, q);
    }
  }

  // Where n redirects lead from a path, if that many follow one another.
  function Follow(next: map<string, string>, at: string, n: nat): Option<string> {
    if n == 0 then Some(at)
    else
      var before := Follow(next, at, n - 1);
      if before.Some? && before.value in next then Some(next[before.value]) else None
  }

  ghost predicate ReturnsIn(next: map<string, string>, at: string, n: nat) {
    n > 0 && Follow(next, at, n) == Some(at)
  }

  // Following the redirects from a path comes back to it.
  ghost predicate Returns(next: map<string, string>, at: string) {
    exists n :: ReturnsIn(next, at, n)
  }

  // After n redirects from a path there is none to follow.
  ghost predicate EndsIn(next: map<string, string>, at: string, n: nat) {
    Follow(next, at, n).Some? && Follow(next, at, n).value !in next
  }

  // Every way from a path ends within so many redirects.
  ghost predicate Ends(next: map<string, string>, at: string, within: nat) {
    exists n: nat :: n <= within && EndsIn(next, at, n)
  }

  lemma {:induction false} FollowOn(next: map<string, string>, at: string, m: nat, n: nat)
    requires Follow(next, at, m).Some?
    ensures Follow(next, at, m + n) == Follow(next, Follow(next, at, m).value, n)
  {
    if n > 0 {
      FollowOn(next, at, m, n - 1);
      assert m + n - 1 == m + (n - 1);
    }
  }

  lemma {:induction false} FollowBefore(next: map<string, string>, at: string, m: nat, n: nat)
    requires m < n && Follow(next, at, n).Some?
    ensures Follow(next, at, m).Some? && Follow(next, at, m).value in next
  {
    if m + 1 < n {
      FollowBefore(next, at, m, n - 1);
    }
  }

  // The first n paths on the way.
  ghost function Way(next: map<string, string>, at: string, n: nat): (way: seq<string>)
    requires Follow(next, at, n).Some?
    ensures |way| == n && forall k :: 0 <= k < n ==> Follow(next, at, k) == Some(way[k]) && way[k] in next
  {
    forall k | 0 <= k < n ensures Follow(next, at, k).Some? && Follow(next, at, k).value in next {
      FollowBefore(next, at, k, n);
    }
    seq(n, k requires 0 <= k < n => FollowAt(next, at, k, n))
  }

  ghost function FollowAt(next: map<string, string>, at: string, k: nat, n: nat): string
    requires k < n && Follow(next, at, n).Some?
  {
    FollowBefore(next, at, k, n);
    Follow(next, at, k).value
  }

  /** More places than names for them: two are the same. */
  lemma {:induction false} Pigeonhole(way: seq<string>, holes: set<string>) returns (a: nat, b: nat)
    requires |way| > |holes| && forall k :: 0 <= k < |way| ==> way[k] in holes
    ensures a < b < |way| && way[a] == way[b]
    decreases |way|
  {
    var n := |way| - 1;
    if way[n] in way[..n] {
      a :| 0 <= a < n && way[a] == way[n];
      b := n;
    } else {
      a, b := Pigeonhole(way[..n], holes - {way[n]});
    }
  }

  // A way that comes back does so within as many steps as there are redirects.
  lemma {:induction false} ReturnsSoon(next: map<string, string>, at: string, n: nat) returns (m: nat)
    requires ReturnsIn(next, at, n)
    ensures m <= |next| && ReturnsIn(next, at, m)
    decreases n
  {
    if n <= |next| {
      m := n;
    } else {
      var way := Way(next, at, n);
      assert |next.Keys| == |next|;
      var a, b := Pigeonhole(way, next.Keys);
      FollowOn(next, at, a, n - b);
      FollowOn(next, at, b, n - b);
      m := ReturnsSoon(next, at, a + (n - b));
    }
  }

  /** A way on which nothing leads back ends, after no more redirects than there are. */
  lemma WaysEnd(next: map<string, string>, at: string)
    requires forall p :: p in next ==> !Returns(next, p)
    ensures Ends(next, at, |next|)
  {
    if n: nat :| n <= |next| && EndsIn(next, at, n) {
    } else {
      GoesOn(next, at, |next| + 1);
      var way := Way(next, at, |next| + 1);
      assert |next.Keys| == |next|;
      var a, b := Pigeonhole(way, next.Keys);
      FollowOn(next, at, a, b - a);
      assert ReturnsIn(next, way[a], b - a);
    }
  }

  lemma {:induction false} GoesOn(next: map<string, string>, at: string, n: nat)
    requires forall m: nat :: m < n ==> !EndsIn(next, at, m)
    ensures Follow(next, at, n).Some?
  {
    if n > 0 {
      GoesOn(next, at, n - 1);
      assert !EndsIn(next, at, n - 1);
    }
  }

  // The redirects whose paths and targets pass every check so far, none of them twice.
  ghost predicate Valid(rs: seq<Redirect>) {
    && (forall i :: 0 <= i < |rs| ==> rs[i].fromOk && rs[i].restOk)
    && (forall i, j :: 0 <= i < j < |rs| ==> PathKey(rs[i].from) != PathKey(rs[j].from))
  }

  ghost predicate IsFrom(rs: seq<Redirect>, p: string) {
    exists i :: 0 <= i < |rs| && PathKey(rs[i].from) == p
  }

  // Where the redirects lead, by the key of their path.
  ghost predicate Leads(next: map<string, string>, rs: seq<Redirect>) {
    && (forall i :: 0 <= i < |rs| ==> PathKey(rs[i].from) in next && next[PathKey(rs[i].from)] == PathKey(rs[i].target))
    && (forall p :: p in next ==> IsFrom(rs, p))
    && |next| == |rs|
  }

  ghost predicate Taken(rs: seq<Redirect>, j: nat, p: string)
    requires j < |rs|
  {
    rs[j].fromOk && rs[j].restOk && PathKey(rs[j].from) == p
  }

  // An earlier redirect, valid by itself, has the same path.
  ghost predicate Before(rs: seq<Redirect>, i: nat)
    requires i < |rs|
  {
    exists j :: 0 <= j < i && Taken(rs, j, PathKey(rs[i].from))
  }

  // What is said of one redirect by itself.
  ghost predicate Judged(rs: seq<Redirect>, complaints: seq<Complaint>, i: nat)
    requires i < |rs|
  {
    && (Invalid(i) in complaints <==> !rs[i].fromOk || !rs[i].restOk)
    && (Twice(i) in complaints <==> rs[i].fromOk && Before(rs, i))
  }

  // The paths of the redirects up to i that are valid by themselves.
  ghost predicate Knows(next: map<string, string>, rs: seq<Redirect>, i: nat)
    requires i <= |rs|
  {
    forall p :: p in next <==> exists j :: 0 <= j < i && Taken(rs, j, p)
  }

  // One redirect by itself, and against those before it.
  method JudgeOne(next: map<string, string>, rs: seq<Redirect>, i: nat)
    returns (found: seq<Complaint>, more: map<string, string>)
    requires i < |rs| && Knows(next, rs, i)
    ensures Judged(rs, found, i) && Knows(more, rs, i + 1)
    ensures forall c :: c in found ==> (c.Invalid? || c.Twice?) && c.entry == i
    ensures found == [] <==> rs[i].fromOk && rs[i].restOk && PathKey(rs[i].from) !in next
    ensures more == if found == [] then next[PathKey(rs[i].from) := PathKey(rs[i].target)] else next
  {
    var key := PathKey(rs[i].from);
    found, more := [], next;
    if !rs[i].fromOk {
      found := [Invalid(i)];
    } else if key in next {
      found := [Twice(i)];
    }
    if !rs[i].restOk {
      found := found + [Invalid(i)];
    }
    if found == [] {
      more := next[key := PathKey(rs[i].target)];
    }
    KnowsOn(next, more, rs, i);
  }

  lemma KnowsOn(next: map<string, string>, more: map<string, string>, rs: seq<Redirect>, i: nat)
    requires i < |rs| && Knows(next, rs, i)
    requires forall p :: p in more <==> p in next || Taken(rs, i, p)
    ensures Knows(more, rs, i + 1)
  {
    forall p ensures p in more <==> exists j :: 0 <= j < i + 1 && Taken(rs, j, p) {
      if Taken(rs, i, p) {
        assert p in more;
      } else if p in next {
        var j :| 0 <= j < i && Taken(rs, j, p);
      }
    }
  }

  // The first loop: the table of redirects, and what is wrong with each by itself.
  method Collect(rs: seq<Redirect>) returns (next: map<string, string>, complaints: seq<Complaint>)
    ensures complaints == [] <==> Valid(rs)
    ensures complaints == [] ==> Leads(next, rs)
    ensures forall c :: c in complaints ==> (c.Invalid? || c.Twice?) && c.entry < |rs|
    ensures forall k: nat :: k < |rs| ==> Judged(rs, complaints, k)
  {
    next, complaints := map[], [];
    for i := 0 to |rs|
      invariant complaints == [] ==> Valid(rs[..i]) && Leads(next, rs[..i])
      invariant forall c :: c in complaints ==> (c.Invalid? || c.Twice?) && c.entry < i
      invariant forall k: nat :: k < i ==> Judged(rs, complaints, k)
      invariant Knows(next, rs, i)
    {
      var found, more := JudgeOne(next, rs, i);
      assert rs[..i + 1] == rs[..i] + [rs[i]];
      if found == [] && complaints == [] {
        ValidOn(next, rs[..i], rs[i]);
        LeadsOn(next, rs[..i], rs[i]);
      }
      JudgedOn(rs, complaints, found, i);
      next, complaints := more, complaints + found;
    }
    assert rs[..|rs|] == rs;
    ValidIsSilent(rs, complaints);
  }

  lemma ValidIsSilent(rs: seq<Redirect>, complaints: seq<Complaint>)
    requires forall c :: c in complaints ==> (c.Invalid? || c.Twice?) && c.entry < |rs|
    requires forall k: nat :: k < |rs| ==> Judged(rs, complaints, k)
    ensures complaints != [] ==> !Valid(rs)
  {
    if complaints != [] {
      var c := complaints[0];
      assert c in complaints && Judged(rs, complaints, c.entry);
      assert c.Twice? ==> Before(rs, c.entry);
    }
  }

  lemma JudgedOn(rs: seq<Redirect>, before: seq<Complaint>, found: seq<Complaint>, i: nat)
    requires i < |rs| && (forall c :: c in before ==> c.entry < i) && forall k: nat :: k < i ==> Judged(rs, before, k)
    requires forall c :: c in found ==> c.entry == i
    requires Judged(rs, found, i)
    ensures forall k: nat :: k <= i ==> Judged(rs, before + found, k)
  {
    forall k: nat | k <= i ensures Judged(rs, before + found, k) {
      assert k < i ==> Judged(rs, before, k);
    }
  }

  lemma ValidOn(next: map<string, string>, rs: seq<Redirect>, r: Redirect)
    requires Valid(rs) && Leads(next, rs) && r.fromOk && r.restOk && PathKey(r.from) !in next
    ensures Valid(rs + [r])
  {
    var more := rs + [r];
    assert more[|rs|] == r && forall i :: 0 <= i < |rs| ==> more[i] == rs[i];
  }

  lemma LeadsOn(next: map<string, string>, rs: seq<Redirect>, r: Redirect)
    requires Valid(rs) && Leads(next, rs) && r.fromOk && r.restOk && PathKey(r.from) !in next
    ensures Leads(next[PathKey(r.from) := PathKey(r.target)], rs + [r])
  {
    var more, longer := rs + [r], next[PathKey(r.from) := PathKey(r.target)];
    forall i | 0 <= i < |more| ensures more[i] == if i == |rs| then r else rs[i] {}
    forall p | p in longer ensures IsFrom(more, p) {
      FromMore(rs, r, p);
    }
  }

  lemma FromMore(rs: seq<Redirect>, r: Redirect, p: string)
    requires p == PathKey(r.from) || IsFrom(rs, p)
    ensures IsFrom(rs + [r], p)
  {
    var more := rs + [r];
    if p == PathKey(r.from) {
      assert PathKey(more[|rs|].from) == p;
    } else {
      var i :| 0 <= i < |rs| && PathKey(rs[i].from) == p;
      assert PathKey(more[i].from) == p;
    }
  }

  // The walk from one redirect: `steps` bounds it, and is enough.
  method Walk(next: map<string, string>, start: string, entry: nat, bound: nat) returns (found: Option<Complaint>)
    requires start in next && |next| <= bound
    ensures found.Some? <==> Returns(next, start)
    ensures found.Some? ==> found.value == if next[start] == start then ToItself(entry) else LeadsBack(entry)
  {
    var at := start;
    for steps := 0 to bound + 1
      invariant Follow(next, start, steps) == Some(at)
      invariant forall n: nat :: n <= steps ==> !ReturnsIn(next, start, n)
      invariant steps > 0 ==> next[start] != start
    {
      assert Follow(next, start, steps + 1) == if at in next then Some(next[at]) else None;
      if at !in next {
        NoReturnFrom(next, start, steps);
        return None;
      }
      if next[at] == start {
        assert ReturnsIn(next, start, steps + 1);
        return Some(if steps == 0 then ToItself(entry) else LeadsBack(entry));
      }
      at := next[at];
    }
    NoLateReturn(next, start, bound + 1);
    return None;
  }

  lemma NoReturnFrom(next: map<string, string>, start: string, steps: nat)
    requires EndsIn(next, start, steps) && forall n: nat :: n <= steps ==> !ReturnsIn(next, start, n)
    ensures !Returns(next, start)
  {
    forall n ensures !ReturnsIn(next, start, n) {
      if ReturnsIn(next, start, n) {
        FollowBefore(next, start, steps, n);
      }
    }
  }

  lemma NoLateReturn(next: map<string, string>, start: string, steps: nat)
    requires |next| <= steps && forall n: nat :: n <= steps ==> !ReturnsIn(next, start, n)
    ensures !Returns(next, start)
  {
    forall n ensures !ReturnsIn(next, start, n) {
      if ReturnsIn(next, start, n) {
        var m := ReturnsSoon(next, start, n);
      }
    }
  }

  // The complaint of an entry says whether it leads straight to itself.
  ghost predicate Placed(next: map<string, string>, rs: seq<Redirect>, c: Complaint) {
    && (c.ToItself? || c.LeadsBack?) && c.entry < |rs|
    && var key := PathKey(rs[c.entry].from);
    key in next && (c.ToItself? <==> next[key] == key)
  }

  // An entry is complained about exactly when its path comes back to itself.
  ghost predicate Told(next: map<string, string>, rs: seq<Redirect>, complaints: seq<Complaint>, i: nat)
    requires i < |rs|
  {
    Returns(next, PathKey(rs[i].from)) <==> ToItself(i) in complaints || LeadsBack(i) in complaints
  }

  // The second loop.
  method CheckWays(next: map<string, string>, rs: seq<Redirect>) returns (complaints: seq<Complaint>)
    requires Leads(next, rs)
    ensures forall k: nat :: k < |rs| ==> Told(next, rs, complaints, k)
    ensures forall c :: c in complaints ==> Placed(next, rs, c)
  {
    complaints := [];
    for i := 0 to |rs|
      invariant forall k: nat :: k < i ==> Told(next, rs, complaints, k)
      invariant forall c :: c in complaints ==> Placed(next, rs, c) && c.entry < i
    {
      var found := Walk(next, PathKey(rs[i].from), i, |rs|);
      ghost var before := complaints;
      if found.Some? {
        complaints := complaints + [found.value];
      }
      assert ToItself(i) !in before && LeadsBack(i) !in before;
      forall k: nat | k <= i ensures Told(next, rs, complaints, k) {
        if k < i { assert Told(next, rs, before, k); }
      }
    }
  }

  /**
   With every redirect valid by itself, one is complained about exactly when
   following the redirects from its path comes back to it. With no complaint,
   every way through them ends after no more hops than there are redirects.
   */
  method ValidatePathRedirects(rs: seq<Redirect>) returns (next: map<string, string>, complaints: seq<Complaint>)
    ensures !Valid(rs) ==> complaints != [] && forall c :: c in complaints ==> c.Invalid? || c.Twice?
    ensures !Valid(rs) ==> forall i: nat :: i < |rs| ==> Judged(rs, complaints, i)
    ensures Valid(rs) ==> Leads(next, rs)
    ensures Valid(rs) ==> forall i: nat :: i < |rs| ==> Told(next, rs, complaints, i)
    ensures Valid(rs) ==> forall c :: c in complaints ==> Placed(next, rs, c)
    ensures complaints == [] ==> forall p :: Ends(next, p, |rs|)
  {
    next, complaints := Collect(rs);
    if complaints == [] {
      complaints := CheckWays(next, rs);
      AcceptedEnd(next, rs, complaints);
    }
  }

  lemma AcceptedEnd(next: map<string, string>, rs: seq<Redirect>, complaints: seq<Complaint>)
    requires Leads(next, rs)
    requires forall i: nat :: i < |rs| ==> Told(next, rs, complaints, i)
    ensures complaints == [] ==> forall p :: Ends(next, p, |rs|)
  {
    if complaints == [] {
      forall p | p in next ensures !Returns(next, p) {
        assert IsFrom(rs, p);
        var i: nat :| i < |rs| && PathKey(rs[i].from) == p;
        assert Told(next, rs, complaints, i);
      }
      forall p ensures Ends(next, p, |rs|) {
        WaysEnd(next, p);
      }
    }
  }
}
