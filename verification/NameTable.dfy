/**
The proxy's table of names (caddy/table.go): what each name last resolved to.

This module has the values of the table and, as functions, what each of its
critical sections does to one entry. `NameTableCode` has the same sections as
methods that update entries in place; `NameTableRun` interleaves them.
*/
module NameTable {
  import opened Options

  type Name = string
  type Time = int // nanoseconds; the zero time of the source is None

  datatype Settings = Settings(refresh: int, wait: int, keep: int)

  datatype Error = NoError | NoReplicas | ResolveFailed(code: nat)

  // What the resolver gave back, its addresses sorted.
  datatype Answer = Answer(addrs: seq<string>, err: Error) {
    predicate Settles() {
      err == NoError || err == NoReplicas
    }
  }

  datatype Reply = Served(addrs: seq<string>) | Refused(err: Error) | Cancelled

  const MAX_DURATION := 0x7fff_ffff_ffff_ffff

  const IDLE := 10 * 60 * 1_000_000_000

  const CROWDED := 256

  // now.Sub(since): from the zero time, the longest duration there is.
  function Elapsed(since: Option<Time>, now: Time): int {
    if since.None? then MAX_DURATION else now - since.value
  }

  datatype Entry = Entry(
    addrs: seq<string>,
    answered: Option<Time>, // when addrs was last confirmed
    asked: Option<Time>,    // when the lookup in flight, or the last one, started
    failing: bool,          // the last lookup ended without an answer
    err: Error,
    inFlight: Option<nat>,  // the channel its lookup closes
    used: Time,             // 0 before the first request has stamped it
    dropped: nat)
  {
    function Result(): Reply {
      if addrs == [] then Refused(err) else Served(addrs)
    }

    function Kept(now: Time, keep: int): Option<seq<string>> {
      if addrs == [] || Elapsed(answered, now) >= keep then None else Some(addrs)
    }

    predicate Fresh(now: Time, refresh: int) {
      !failing && answered.Some? && Elapsed(answered, now) < refresh
    }

    predicate Due(now: Time, refresh: int) {
      inFlight.None? && (asked.None? || Elapsed(asked, now) >= refresh)
    }

    function Patience(now: Time, wait: int): int {
      wait - Elapsed(asked, now)
    }

    predicate Forgettable(now: Time) {
      inFlight.None? && now - used > IDLE
    }
  }

  // What a table of so many names keeps when a new one is asked for.
  predicate Stays(e: Entry, now: Time, names: nat) {
    names < CROWDED || !e.Forgettable(now)
  }

  const NewEntry := Entry([], None, None, false, NoError, None, 0, 0)

  // The first critical section of a request: an answer at once, or what to wait for.
  datatype Entered =
    | Now(reply: Reply)
    | Later(done: nat, dropped: nat, kept: Option<seq<string>>, patience: int)

  // The entry a request leaves behind; `channel` is the one it makes if it starts a lookup.
  function Touch(e: Entry, now: Time, s: Settings, channel: nat): Entry {
    var used := e.(used := now);
    if !e.Fresh(now, s.refresh) && e.Due(now, s.refresh)
    then used.(asked := Some(now), inFlight := Some(channel))
    else used
  }

  // What the request is told; `e` is the entry after Touch.
  function Enter(e: Entry, now: Time, s: Settings): Entered {
    if e.Fresh(now, s.refresh) then Now(e.Result())
    else
      var kept := e.Kept(now, s.keep);
      var patience := e.Patience(now, s.wait);
      if e.inFlight.None? || (kept.Some? && (e.failing || patience <= 0))
      then Now(if kept.Some? then Served(kept.value) else Refused(e.err))
      else Later(e.inFlight.value, e.dropped, kept, patience)
  }

  // The last critical section of a request that waited for a lookup to end.
  function Conclude(e: Entry, now: Time, keep: int): Reply {
    if !e.failing then e.Result()
    else
      var kept := e.Kept(now, keep);
      if kept.Some? then Served(kept.value) else Refused(e.err)
  }

  // The end of a lookup that was not dropped meanwhile.
  function Commit(e: Entry, now: Time, a: Answer): Entry {
    var settled :=
      if a.Settles()
      then e.(addrs := a.addrs, answered := Some(now), failing := false, err := a.err)
      else e.(failing := true, err := a.err);
    settled.(inFlight := None)
  }

  // An entry whose name was dropped n times.
  function Dropped(e: Entry, n: nat): Entry {
    if n == 0 then e
    else e.(dropped := e.dropped + n, addrs := [], answered := None, asked := None)
  }

  function Count(name: Name, names: seq<Name>): nat {
    if names == [] then 0
    else (if names[0] == name then 1 else 0) + Count(name, names[1..])
  }

  lemma DroppedOnce(e: Entry, n: nat)
    ensures Dropped(Dropped(e, n), 1) == Dropped(e, n + 1)
  {
  }

  lemma {:induction false} CountAppend(name: Name, names: seq<Name>, last: Name)
    ensures Count(name, names + [last]) == Count(name, names) + if last == name then 1 else 0
  {
    if names == [] {
      assert names + [last] == [last];
    } else {
      CountAppend(name, names[1..], last);
      assert (names + [last])[1..] == names[1..] + [last];
    }
  }

  lemma CountNext(names: seq<Name>, i: nat)
    requires i < |names|
    ensures forall n :: Count(n, names[..i + 1]) == Count(n, names[..i]) + if names[i] == n then 1 else 0
  {
    forall n ensures Count(n, names[..i + 1]) == Count(n, names[..i]) + if names[i] == n then 1 else 0 {
      assert names[..i + 1] == names[..i] + [names[i]];
      CountAppend(n, names[..i], names[i]);
    }
  }

  lemma {:induction false} CountPositive(name: Name, names: seq<Name>)
    ensures Count(name, names) > 0 <==> name in names
  {
    if names != [] {
      CountPositive(name, names[1..]);
    }
  }
}
