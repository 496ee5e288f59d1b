/**
Counting failed authentications (agent/internal/api/ratelimit.go): the limiter
that forgets addresses, and the one that never does.
*/
module RateLimit {
  import opened Options

  type Time = int // nanoseconds; the zero time of the source is None

  const LIMIT := 20
  const WINDOW := 60 * 1_000_000_000
  const BLOCK := 60 * 1_000_000_000
  const PRUNE_EVERY := 60 * 1_000_000_000

  datatype Client = Client(failures: seq<Time>, blockedUntil: Option<Time>) {
    predicate Blocked(now: Time) {
      blockedUntil.Some? && now < blockedUntil.value
    }

    predicate Idle(now: Time) {
      Recent(failures, now) == [] && !Blocked(now)
    }
  }

  const NOBODY := Client([], None)

  // The failures still within the window: all but the oldest that are not.
  function Recent(failures: seq<Time>, now: Time): seq<Time> {
    if failures != [] && failures[0] <= now - WINDOW then Recent(failures[1..], now) else failures
  }

  // One more failure.
  function Fail(c: Client, now: Time): Client {
    var failures := Recent(c.failures, now) + [now];
    if |failures| >= LIMIT then Client([], Some(now + BLOCK)) else c.(failures := failures)
  }

  function Get(clients: map<string, Client>, addr: string): Client {
    if addr in clients then clients[addr] else NOBODY
  }

  class Limiter {
    var clients: map<string, Client>
    var pruned: Option<Time>

    constructor ()
      ensures clients == map[] && pruned == None
    {
      clients, pruned := map[], None;
    }

    // How much longer addr is refused, if it is.
    method Limited(addr: string, now: Time) returns (wait: Option<int>)
      modifies this
      ensures clients == After(old(clients), old(pruned), now) && pruned == Pruned(old(pruned), now)
      ensures wait == Wait(Get(clients, addr), now)
    {
      Prune(now);
      if addr !in clients || clients[addr].blockedUntil.None? || now >= clients[addr].blockedUntil.value {
        return None;
      }
      return Some(clients[addr].blockedUntil.value - now);
    }

    method Failed(addr: string, now: Time)
      modifies this`clients
      ensures clients == old(clients)[addr := Fail(Get(old(clients), addr), now)]
    {
      var c := if addr in clients then clients[addr] else Client([], None);
      var recent := RecentLoop(c.failures, now);
      c := c.(failures := recent + [now]);
      if |c.failures| >= LIMIT {
        c := Client([], Some(now + BLOCK));
      }
      clients := clients[addr := c];
    }

    method Prune(now: Time)
      modifies this
      ensures clients == After(old(clients), old(pruned), now) && pruned == Pruned(old(pruned), now)
    {
      if pruned.Some? && now - pruned.value < PRUNE_EVERY {
        return;
      }
      pruned := Some(now);
      var left := clients.Keys;
      while left != {}
        invariant pruned == Some(now) && left <= clients.Keys <= old(clients).Keys
        invariant forall a :: a in clients ==> clients[a] == old(clients)[a]
        invariant forall a :: a in old(clients) && a !in left ==> (a in clients <==> !old(clients)[a].Idle(now))
        decreases |left|
      {
        var addr :| addr in left;
        left := left - {addr};
        var c := clients[addr];
        var recent := RecentLoop(c.failures, now);
        if |recent| == 0 && (c.blockedUntil.None? || now >= c.blockedUntil.value) {
          clients := clients - {addr};
        }
      }
    }
  }

  method RecentLoop(failures: seq<Time>, now: Time) returns (r: seq<Time>)
    ensures r == Recent(failures, now)
  {
    var i := 0;
    while i < |failures| && failures[i] <= now - WINDOW
      invariant 0 <= i <= |failures|
      invariant Recent(failures, now) == Recent(failures[i..], now)
      decreases |failures| - i
    {
      assert failures[i..][1..] == failures[i + 1..];
      i := i + 1;
    }
    r := failures[i..];
  }

  // What a prune at now leaves, if one is due.
  function After(clients: map<string, Client>, pruned: Option<Time>, now: Time): map<string, Client> {
    if pruned.Some? && now - pruned.value < PRUNE_EVERY then clients
    else map a | a in clients && !clients[a].Idle(now) :: clients[a]
  }

  function Pruned(pruned: Option<Time>, now: Time): Option<Time> {
    if pruned.Some? && now - pruned.value < PRUNE_EVERY then pruned else Some(now)
  }

  function Wait(c: Client, now: Time): Option<int> {
    if c.Blocked(now) then Some(c.blockedUntil.value - now) else None
  }

  datatype Call = Ask(addr: string, now: Time) | Failure(addr: string, now: Time)

  datatype State = State(clients: map<string, Client>, pruned: Option<Time>)

  // A run of the limiter: what it answered, in order.
  function Pruning(s: State, calls: seq<Call>): seq<Option<int>>
    decreases |calls|
  {
    if calls == [] then []
    else
      match calls[0]
      case Ask(addr, now) =>
        var t := State(After(s.clients, s.pruned, now), Pruned(s.pruned, now));
        [Wait(Get(t.clients, addr), now)] + Pruning(t, calls[1..])
      case Failure(addr, now) =>
        Pruning(s.(clients := s.clients[addr := Fail(Get(s.clients, addr), now)]), calls[1..])
  }

  // The same of one that never forgets an address.
  function Keeping(clients: map<string, Client>, calls: seq<Call>): seq<Option<int>>
    decreases |calls|
  {
    if calls == [] then []
    else
      match calls[0]
      case Ask(addr, now) => [Wait(Get(clients, addr), now)] + Keeping(clients, calls[1..])
      case Failure(addr, now) => Keeping(clients[addr := Fail(Get(clients, addr), now)], calls[1..])
  }

  ghost predicate Monotone(calls: seq<Call>, from: Time) {
    calls != [] ==> from <= calls[0].now && Monotone(calls[1..], calls[0].now)
  }

  // What cannot be told apart from now on.
  ghost predicate Alike(a: Client, b: Client, now: Time) {
    && Recent(a.failures, now) == Recent(b.failures, now)
    && (a.blockedUntil == b.blockedUntil || (!a.Blocked(now) && !b.Blocked(now)))
  }

  lemma {:induction false} RecentLater(failures: seq<Time>, now: Time, later: Time)
    requires now <= later
    ensures Recent(failures, later) == Recent(Recent(failures, now), later)
  {
    if failures != [] && failures[0] <= now - WINDOW {
      RecentLater(failures[1..], now, later);
    }
  }

  // Two clients that are alike stay so, and are answered alike, whatever happens.
  lemma AlikeStays(a: Client, b: Client, now: Time, later: Time)
    requires Alike(a, b, now) && now <= later
    ensures Alike(a, b, later) && Wait(a, later) == Wait(b, later)
    ensures Alike(Fail(a, later), Fail(b, later), later)
  {
    RecentLater(a.failures, now, later);
    RecentLater(b.failures, now, later);
  }

  ghost predicate AllAlike(p: map<string, Client>, k: map<string, Client>, now: Time) {
    forall a :: Alike(Get(p, a), Get(k, a), now)
  }

  lemma AllStay(p: map<string, Client>, k: map<string, Client>, now: Time, later: Time)
    requires AllAlike(p, k, now) && now <= later
    ensures AllAlike(p, k, later)
  {
    forall a ensures Alike(Get(p, a), Get(k, a), later) {
      AlikeStays(Get(p, a), Get(k, a), now, later);
    }
  }

  lemma {:induction false} NothingRecent(failures: seq<Time>, now: Time)
    ensures Recent(failures, now) == [] <==> forall k :: 0 <= k < |failures| ==> failures[k] <= now - WINDOW
  {
    if failures != [] {
      NothingRecent(failures[1..], now);
      assert forall k :: 1 <= k < |failures| ==> failures[k] == failures[1..][k - 1];
    }
  }

  /**
   Forgetting, at most once a minute: exactly the addresses are forgotten that have not failed
   within the last minute and are not blocked.
   */
  lemma PruneForgets(clients: map<string, Client>, pruned: Option<Time>, now: Time, a: string)
    requires a in clients
    ensures var due := pruned.None? || now - pruned.value >= 60_000_000_000; var c := clients[a];
      var recent := exists k :: 0 <= k < |c.failures| && c.failures[k] > now - 60_000_000_000;
      && (a in After(clients, pruned, now) <==> !due || recent || (c.blockedUntil.Some? && now < c.blockedUntil.value))
      && (a in After(clients, pruned, now) ==> After(clients, pruned, now)[a] == c)
      && Pruned(pruned, now) == if due then Some(now) else pruned
  {
    NothingRecent(clients[a].failures, now);
  }

  // A prune tells nobody apart.
  lemma PruneIsUnseen(p: map<string, Client>, k: map<string, Client>, pruned: Option<Time>, now: Time)
    requires AllAlike(p, k, now)
    ensures AllAlike(After(p, pruned, now), k, now)
  {
    forall a ensures Alike(Get(After(p, pruned, now), a), Get(k, a), now) {
      assert Alike(Get(p, a), Get(k, a), now);
    }
  }

  /**
   Forgetting addresses changes no answer: with a clock that does not go back,
   every sequence of calls is answered as by a limiter that keeps them all.
   */
  lemma {:induction false} PruningIsUnseen(s: State, clients: map<string, Client>, calls: seq<Call>, from: Time)
    requires Monotone(calls, from) && AllAlike(s.clients, clients, from)
    ensures Pruning(s, calls) == Keeping(clients, calls)
    decreases |calls|
  {
    if calls != [] {
      var addr, now := calls[0].addr, calls[0].now;
      AllStay(s.clients, clients, from, now);
      if calls[0].Ask? {
        PruneIsUnseen(s.clients, clients, s.pruned, now);
        var t := State(After(s.clients, s.pruned, now), Pruned(s.pruned, now));
        assert Alike(Get(t.clients, addr), Get(clients, addr), now);
        AlikeStays(Get(t.clients, addr), Get(clients, addr), now, now);
        PruningIsUnseen(t, clients, calls[1..], now);
      } else {
        FailuresAlike(s.clients, clients, addr, now);
        PruningIsUnseen(s.(clients := s.clients[addr := Fail(Get(s.clients, addr), now)]),
                        clients[addr := Fail(Get(clients, addr), now)], calls[1..], now);
      }
    }
  }

  lemma FailuresAlike(p: map<string, Client>, k: map<string, Client>, addr: string, now: Time)
    requires AllAlike(p, k, now)
    ensures AllAlike(p[addr := Fail(Get(p, addr), now)], k[addr := Fail(Get(k, addr), now)], now)
  {
    var p', k' := p[addr := Fail(Get(p, addr), now)], k[addr := Fail(Get(k, addr), now)];
    AlikeStays(Get(p, addr), Get(k, addr), now, now);
    forall a ensures Alike(Get(p', a), Get(k', a), now) {
      assert Alike(Get(p, a), Get(k, a), now);
    }
  }

  // The client of an address after its failures, by their times.
  function Counted(times: seq<Time>): Client {
    if times == [] then NOBODY else Fail(Counted(times[..|times| - 1]), times[|times| - 1])
  }

  ghost predicate Sorted(times: seq<Time>) {
    forall i, j :: 0 <= i < j < |times| ==> times[i] <= times[j]
  }

  // Where counting starts: after the last failure that started a block.
  ghost function Since(times: seq<Time>): nat
    decreases |times|, 1
  {
    if times == [] then 0
    else if StartsBlock(times) then |times|
    else Since(times[..|times| - 1])
  }

  // The last failure is the twentieth within a minute, none of which counted for a block before.
  ghost predicate StartsBlock(times: seq<Time>)
    decreases |times|, 0
  {
    var n := |times|;
    && n >= LIMIT && n - LIMIT >= Since(times[..n - 1])
    && times[n - LIMIT] > times[n - 1] - WINDOW
  }

  lemma {:induction false} RecentAppend(failures: seq<Time>, now: Time)
    ensures Recent(failures + [now], now) == Recent(failures, now) + [now]
  {
    if failures != [] && failures[0] <= now - WINDOW {
      RecentAppend(failures[1..], now);
      assert (failures + [now])[1..] == failures[1..] + [now];
    }
  }

  // Of sorted times, the recent ones are the last ones.
  lemma {:induction false} RecentIsASuffix(failures: seq<Time>, now: Time, k: nat)
    requires Sorted(failures) && k > 0
    ensures Sorted(Recent(failures, now))
    ensures |Recent(failures, now)| >= k <==> |failures| >= k && failures[|failures| - k] > now - WINDOW
  {
    if failures != [] && failures[0] <= now - WINDOW {
      RecentIsASuffix(failures[1..], now, k);
    }
  }

  lemma TwentiethWithinAMinute(times: seq<Time>)
    requires Sorted(times) && times != [] && Since(times[..|times| - 1]) <= |times| - 1
    ensures var n := |times| - 1;
      StartsBlock(times) <==> |Recent(times[Since(times[..n])..n], times[n])| >= LIMIT - 1
  {
    var n := |times| - 1;
    var u := Since(times[..n]);
    RecentIsASuffix(times[u..n], times[n], LIMIT - 1);
    if n + 1 - LIMIT >= u {
      assert times[u..n][n - u - (LIMIT - 1)] == times[n + 1 - LIMIT];
    }
  }

  // What is still counted when the next failure comes.
  ghost predicate Counts(times: seq<Time>, now: Time) {
    Since(times) <= |times| && Recent(Counted(times).failures, now) == Recent(times[Since(times)..], now)
  }

  lemma FailOnce(times: seq<Time>)
    requires Sorted(times) && times != [] && Counts(times[..|times| - 1], times[|times| - 1])
    ensures var n := |times| - 1; var c := Counted(times);
      && Since(times) <= |times| && |c.failures| < LIMIT
      && c.failures == Recent(times[Since(times)..], times[n])
      && c.blockedUntil == if StartsBlock(times) then Some(times[n] + BLOCK) else Counted(times[..n]).blockedUntil
  {
    var n := |times| - 1;
    var u := Since(times[..n]);
    assert times[..n][u..] == times[u..n];
    TwentiethWithinAMinute(times);
    RecentNext(times, u);
    assert times[|times|..] == [];
  }

  lemma RecentNext(times: seq<Time>, u: nat)
    requires Sorted(times) && u < |times|
    ensures var n := |times| - 1;
      Recent(times[u..], times[n]) == Recent(times[u..n], times[n]) + [times[n]]
  {
    var n := |times| - 1;
    RecentAppend(times[u..n], times[n]);
    assert times[u..n] + [times[n]] == times[u..];
  }

  /**
   A block starts exactly at the twentieth failure within a minute, counted
   from the last block on. What is counted is sorted, all of the last minute,
   and shorter than twenty.
   */
  lemma {:induction false} BlocksStartAtTheTwentieth(times: seq<Time>)
    requires Sorted(times)
    ensures var c := Counted(times);
      && Since(times) <= |times| && |c.failures| < LIMIT && Sorted(c.failures)
      && (times != [] ==>
            && c.failures == Recent(times[Since(times)..], times[|times| - 1])
            && c.blockedUntil == if StartsBlock(times) then Some(times[|times| - 1] + BLOCK)
                                 else Counted(times[..|times| - 1]).blockedUntil)
    decreases |times|
  {
    if times != [] {
      var n := |times| - 1;
      BlocksStartAtTheTwentieth(times[..n]);
      if n > 0 {
        RecentLater(times[..n][Since(times[..n])..], times[n - 1], times[n]);
      }
      FailOnce(times);
      RecentIsASuffix(times[Since(times)..], times[n], 1);
    }
  }

  // The times of the failures of one address.
  ghost function FailuresOf(calls: seq<Call>, addr: string): seq<Time> {
    if calls == [] then []
    else
      FailuresOf(calls[..|calls| - 1], addr)
      + if calls[|calls| - 1].Failure? && calls[|calls| - 1].addr == addr then [calls[|calls| - 1].now] else []
  }

  ghost function Kept(calls: seq<Call>): map<string, Client> {
    if calls == [] then map[]
    else
      var clients, last := Kept(calls[..|calls| - 1]), calls[|calls| - 1];
      if last.Failure? then clients[last.addr := Fail(Get(clients, last.addr), last.now)] else clients
  }

  lemma {:induction false} KeptCounts(calls: seq<Call>, addr: string)
    ensures Get(Kept(calls), addr) == Counted(FailuresOf(calls, addr))
  {
    if calls != [] {
      KeptCounts(calls[..|calls| - 1], addr);
      var times := FailuresOf(calls[..|calls| - 1], addr);
      var last := calls[|calls| - 1];
      assert times + [] == times;
      assert (times + [last.now])[..|times|] == times;
    }
  }

  lemma {:induction false} KeepingOneMore(clients: map<string, Client>, calls: seq<Call>, done: seq<Call>, last: Call)
    requires clients == Kept(done) && last.Ask?
    ensures Keeping(clients, calls + [last])
            == Keeping(clients, calls) + [Wait(Get(Kept(done + calls), last.addr), last.now)]
    decreases |calls|
  {
    if calls == [] {
      assert done + calls == done && calls + [last] == [last];
    } else {
      var more := done + [calls[0]];
      assert more[..|done|] == done && (calls + [last])[1..] == calls[1..] + [last];
      assert done + calls == more + calls[1..];
      KeepingOneMore(Kept(more), calls[1..], more, last);
    }
  }

  /**
   Whom the limiter refuses, and for how long, is decided by the failures of
   that address alone, however often it was pruned meanwhile.
   */
  lemma RefusedByItsFailures(calls: seq<Call>, last: Call, from: Time)
    requires Monotone(calls + [last], from) && last.Ask?
    ensures Pruning(State(map[], None), calls + [last])
            == Keeping(map[], calls) + [Wait(Counted(FailuresOf(calls, last.addr)), last.now)]
  {
    PruningIsUnseen(State(map[], None), map[], calls + [last], from);
    KeepingOneMore(map[], calls, [], last);
    assert [] + calls == calls;
    KeptCounts(calls, last.addr);
  }

  // The k-th failure of an address started a block, and none after it did.
  ghost predicate LastBlock(times: seq<Time>, k: nat) {
    0 < k <= |times| && StartsBlock(times[..k]) && forall j :: k < j <= |times| ==> !StartsBlock(times[..j])
  }

  // A block that started at a time goes on for so long.
  predicate BlocksFor(start: Time, now: Time, w: int) {
    start <= now < start + 60_000_000_000 && w == start + 60_000_000_000 - now
  }

  // How long an address is refused at a moment.
  ghost predicate RefusedFor(times: seq<Time>, now: Time, w: int) {
    exists k: nat :: LastBlock(times, k) && BlocksFor(times[k - 1], now, w)
  }

  lemma {:induction false} BlockedSince(times: seq<Time>, k: nat)
    requires Sorted(times) && LastBlock(times, k)
    ensures Counted(times).blockedUntil == Some(times[k - 1] + BLOCK)
    decreases |times|
  {
    BlocksStartAtTheTwentieth(times);
    assert times[..|times|] == times;
    if k < |times| {
      ShorterLast(times, k);
      BlockedSince(times[..|times| - 1], k);
    }
  }

  lemma ShorterLast(times: seq<Time>, k: nat)
    requires LastBlock(times, k) && k < |times|
    ensures LastBlock(times[..|times| - 1], k)
  {
    var less := times[..|times| - 1];
    forall j | 0 <= j <= |less| ensures less[..j] == times[..j] {}
  }

  lemma {:induction false} NeverBlocked(times: seq<Time>)
    requires Sorted(times) && forall j :: 0 < j <= |times| ==> !StartsBlock(times[..j])
    ensures Counted(times).blockedUntil.None?
    decreases |times|
  {
    if times != [] {
      var less := times[..|times| - 1];
      forall j | 0 <= j <= |less| ensures less[..j] == times[..j] {}
      NeverBlocked(less);
      BlocksStartAtTheTwentieth(times);
      assert times[..|times|] == times;
    }
  }

  // The last block there was, if there was any.
  lemma {:induction false} LastOfBlocks(times: seq<Time>, n: nat) returns (k: nat)
    requires n <= |times| && forall j :: n < j <= |times| ==> !StartsBlock(times[..j])
    ensures if k == 0 then forall j :: 0 < j <= |times| ==> !StartsBlock(times[..j]) else LastBlock(times, k)
  {
    if n == 0 || StartsBlock(times[..n]) {
      k := n;
    } else {
      k := LastOfBlocks(times, n - 1);
    }
  }

  lemma OneLast(times: seq<Time>, j: nat, k: nat)
    requires LastBlock(times, j) && LastBlock(times, k)
    ensures j == k
  {
  }

  lemma BlockWaits(times: seq<Time>, k: nat, c: Client, now: Time)
    requires LastBlock(times, k) && times[k - 1] <= now && c.blockedUntil == Some(times[k - 1] + BLOCK)
    ensures forall w :: Wait(c, now) == Some(w) <==> RefusedFor(times, now, w)
  {
    forall w ensures Wait(c, now) == Some(w) <==> RefusedFor(times, now, w) {
      if j: nat :| LastBlock(times, j) && BlocksFor(times[j - 1], now, w) {
        OneLast(times, j, k);
      }
    }
  }

  lemma WaitIsRefusal(times: seq<Time>, now: Time)
    requires Sorted(times) && forall j :: 0 <= j < |times| ==> times[j] <= now
    ensures forall w :: Wait(Counted(times), now) == Some(w) <==> RefusedFor(times, now, w)
  {
    var k := LastOfBlocks(times, |times|);
    if k == 0 {
      NeverBlocked(times);
    } else {
      BlockedSince(times, k);
      BlockWaits(times, k, Counted(times), now);
    }
  }

  lemma {:induction false} MonotoneAre(calls: seq<Call>, from: Time)
    requires Monotone(calls, from)
    ensures forall i :: 0 <= i < |calls| ==> from <= calls[i].now
    ensures forall i, j :: 0 <= i < j < |calls| ==> calls[i].now <= calls[j].now
    decreases |calls|
  {
    if calls != [] {
      MonotoneAre(calls[1..], calls[0].now);
      assert forall i :: 0 < i < |calls| ==> calls[i] == calls[1..][i - 1];
    }
  }

  lemma {:induction false} FailuresAreSorted(calls: seq<Call>, addr: string)
    requires forall i, j :: 0 <= i < j < |calls| ==> calls[i].now <= calls[j].now
    ensures Sorted(FailuresOf(calls, addr))
    ensures forall j :: 0 <= j < |FailuresOf(calls, addr)| ==> FailuresOf(calls, addr)[j] <= calls[|calls| - 1].now
  {
    if calls != [] {
      FailuresAreSorted(calls[..|calls| - 1], addr);
    }
  }

  /**
   Who is refused, and how long: an address is answered that it must wait exactly while the last
   of its failures that started a block is less than a minute ago, and then for what is left of that minute.
   */
  lemma RefusedWhileBlocked(calls: seq<Call>, last: Call, from: Time)
    requires Monotone(calls + [last], from) && last.Ask?
    ensures var answers := Pruning(State(map[], None), calls + [last]);
      && answers != []
      && forall w ::
           answers[|answers| - 1] == Some(w) <==> RefusedFor(FailuresOf(calls, last.addr), last.now, w)
  {
    var all := calls + [last];
    RefusedByItsFailures(calls, last, from);
    MonotoneAre(all, from);
    assert forall i :: 0 <= i < |calls| ==> calls[i] == all[i];
    assert all[|calls|] == last;
    FailuresAreSorted(calls, last.addr);
    WaitIsRefusal(FailuresOf(calls, last.addr), last.now);
  }

  lemma {:induction false} TooFew(times: seq<Time>)
    requires |times| < LIMIT
    ensures !StartsBlock(times) && Since(times) == 0
  {
    if times != [] {
      TooFew(times[..|times| - 1]);
    }
  }

  /** Twenty failures in less than a minute, and a second later: refused for another 59 seconds. Nineteen are not. */
  lemma TwentyFailures(times: seq<Time>, now: Time)
    requires Sorted(times) && |times| <= 20 && times != []
    requires times[|times| - 1] < times[0] + 60_000_000_000 && now == times[|times| - 1] + 1_000_000_000
    ensures |times| == 20 ==> RefusedFor(times, now, 59_000_000_000)
    ensures |times| < 20 ==> forall w :: !RefusedFor(times, now, w)
  {
    if |times| == 20 {
      TooFew(times[..19]);
      assert times[..20] == times;
      assert LastBlock(times, 20);
    } else {
      forall k: nat | 0 < k <= |times| ensures !StartsBlock(times[..k]) {
        TooFew(times[..k]);
      }
    }
  }
}
