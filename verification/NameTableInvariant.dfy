/**
What every run of the table of names keeps (caddy/table.go), and that every
step keeps it.
*/
module NameTableInvariant {
  import opened Options
  import opened NameTable
  import opened NameTableRun

  // addrs is what the resolver answered to a question about name that the
  // run put to it in step from.began and that it answered in step from.replied.
  ghost predicate Came(s: System, name: Name, addrs: seq<string>, from: Origin) {
    && from.began < from.replied < |s.log|
    && s.log[from.began].Ask?
    && var l := s.log[from.began].lookup;
    && l < |s.lookups| && s.lookups[l].slot < |s.slots| && s.slots[s.lookups[l].slot].name == name
    && s.log[from.replied].Answered? && s.log[from.replied].lookup == l
    && s.log[from.replied].answer.addrs == addrs && s.log[from.replied].answer.Settles()
  }

  // No drop of name among the first steps of the log came after step began.
  ghost predicate AfterDrops(log: seq<Label>, steps: nat, name: Name, began: nat) {
    forall k :: 0 <= k < steps && k < |log| && log[k].Drop? && name in log[k].names ==> k < began
  }

  ghost predicate Active(l: Lookup) {
    !l.at.Ended?
  }

  ghost predicate NamesOk(s: System) {
    forall n :: n in s.names ==> s.names[n] < |s.slots| && s.slots[s.names[n]].name == n
  }

  ghost predicate ClosedOk(s: System) {
    forall c :: c in s.closed ==> c < s.channels && s.closed[c] <= s.now
  }

  ghost predicate SlotOk(s: System, i: nat)
    requires i < |s.slots|
  {
    var e := s.slots[i].e;
    && (e.answered.Some? ==> e.answered.value <= s.now)
    && (e.asked.Some? ==> e.asked.value <= s.now)
    && e.used <= s.now
    && (e.failing ==> e.err.ResolveFailed?)
    && (e.addrs != [] ==> e.answered.Some?)
    && (e.inFlight.None? && e.asked.Some? && !e.failing ==> e.answered.Some? && e.asked.value <= e.answered.value)
    && (e.inFlight.Some? && e.asked.None? ==> e.addrs == [])
    && (e.inFlight.Some? ==> e.inFlight.value < s.channels && e.inFlight.value !in s.closed && Held(s, i))
    && (e.addrs != [] ==> Came(s, s.slots[i].name, e.addrs, s.slots[i].from))
    && (e.addrs != [] && Held(s, i) ==> AfterDrops(s.log, |s.log|, s.slots[i].name, s.slots[i].from.began))
  }

  ghost predicate ChannelsOk(s: System) {
    forall i, j :: 0 <= i < j < |s.slots| && s.slots[i].e.inFlight.Some? ==>
        s.slots[i].e.inFlight != s.slots[j].e.inFlight
  }

  ghost predicate LookupOk(s: System, l: nat)
    requires l < |s.lookups|
  {
    var Lookup(i, since, asks, at) := s.lookups[l];
    && i < |s.slots|
    && var e := s.slots[i].e;
    && (Active(s.lookups[l]) ==> e.inFlight.Some?)
    && since <= e.dropped
    && match at {
         case Starting => asks <= e.dropped - since
         case Sampled(d) => since <= d <= e.dropped && asks <= d - since
         case Asking(d, began) =>
           && since <= d <= e.dropped && asks <= d - since + 1
           && began < |s.log| && s.log[began] == Ask(l)
           && (d == e.dropped ==> AfterDrops(s.log, |s.log|, s.slots[i].name, began))
         case Replied(d, from, a) =>
           && since <= d <= e.dropped && asks <= d - since + 1
           && from.began < from.replied < |s.log|
           && s.log[from.began] == Ask(l) && s.log[from.replied] == Answered(l, a)
           && (d == e.dropped ==> AfterDrops(s.log, |s.log|, s.slots[i].name, from.began))
         case Ended(d) => since <= d <= e.dropped && asks <= d - since + 1
       }
  }

  // One lookup owns an entry whose channel is open, and no other.
  ghost predicate OwnersOk(s: System) {
    && (forall l, m :: 0 <= l < m < |s.lookups| && Active(s.lookups[l]) && Active(s.lookups[m])
                       ==> s.lookups[l].slot != s.lookups[m].slot)
    && (forall i :: 0 <= i < |s.slots| && s.slots[i].e.inFlight.Some?
                    ==> exists l :: 0 <= l < |s.lookups| && s.lookups[l].slot == i && Active(s.lookups[l]))
  }

  ghost predicate WaitingOk(s: System, q: Request)
    requires q.stage.Waiting?
  {
    var Waiting(i, done, dropped, kept, confirmed, from, giveUpAt) := q.stage;
    && i < |s.slots| && s.slots[i].name == q.name
    && var e := s.slots[i].e;
    && q.entered <= e.used
    && (!Held(s, i) ==> s.now - q.entered > IDLE)
    && done < s.channels && (done in s.closed || e.inFlight == Some(done))
    && dropped <= e.dropped
    && (done in s.closed && !e.failing && e.answered.Some? ==> s.closed[done] <= e.answered.value)
    && (giveUpAt.Some? ==> kept.Some? && giveUpAt.value <= q.entered + q.settings.wait)
    && (kept.Some? ==>
          && kept.value != [] && Came(s, q.name, kept.value, from)
          && confirmed.Some? && q.entered - confirmed.value < q.settings.keep
          && (dropped == e.dropped && Held(s, i) ==> AfterDrops(s.log, |s.log|, q.name, from.began)))
  }

  function Max(a: int, b: int): int {
    if a < b then b else a
  }

  ghost predicate DoneOk(s: System, r: nat)
    requires r < |s.requests| && s.requests[r].stage.Done?
  {
    var Request(name, settings, entered, Done(_, reply, confirmed, from, moment, step, late)) := s.requests[r];
    && step < |s.log| && entered <= moment <= s.now
    && (s.log[step] == Arrive(name, settings) || s.log[step] == GiveUp(r) || s.log[step] == Wake(r) ||
        s.log[step] == Cancel(r))
    && (reply.Served? ==>
          && Came(s, name, reply.addrs, from) && from.replied < step
          && (moment - entered <= IDLE ==> AfterDrops(s.log, step, name, from.began))
          && confirmed.Some?
          && (moment - confirmed.value <= late
              || moment - confirmed.value
                 < Max(settings.refresh, Max(settings.keep, settings.keep + settings.wait + late))))
  }

  ghost predicate RequestOk(s: System, r: nat)
    requires r < |s.requests|
  {
    if s.requests[r].stage.Waiting? then WaitingOk(s, s.requests[r]) else DoneOk(s, r)
  }

  ghost predicate Inv(s: System) {
    && s.now >= 0
    && !s.panicked
    && NamesOk(s)
    && ClosedOk(s)
    && ChannelsOk(s)
    && OwnersOk(s)
    && (forall i :: 0 <= i < |s.slots| ==> SlotOk(s, i))
    && (forall l :: 0 <= l < |s.lookups| ==> LookupOk(s, l))
    && (forall r :: 0 <= r < |s.requests| ==> RequestOk(s, r))
  }

  // What no step takes back.
  ghost predicate Grows(s: System, t: System) {
    && s.log <= t.log
    && |s.slots| <= |t.slots| && (forall i :: 0 <= i < |s.slots| ==> s.slots[i].name == t.slots[i].name)
    && |s.lookups| <= |t.lookups| && (forall l :: 0 <= l < |s.lookups| ==> s.lookups[l].slot == t.lookups[l].slot)
  }

  lemma StillCame(s: System, t: System, name: Name, addrs: seq<string>, from: Origin)
    requires Grows(s, t) && Came(s, name, addrs, from)
    ensures Came(t, name, addrs, from)
  {
  }

  lemma StillDone(s: System, t: System, r: nat)
    requires Grows(s, t) && r < |s.requests| && r < |t.requests| && s.requests[r] == t.requests[r]
    requires s.requests[r].stage.Done? && DoneOk(s, r) && s.now <= t.now
    ensures DoneOk(t, r)
  {
    var Request(name, _, _, Done(_, reply, _, from, _, step, _)) := s.requests[r];
    if reply.Served? {
      StillCame(s, t, name, reply.addrs, from);
    }
  }

  // A step that is no drop, and leaves a waiting request and its entry alone.
  lemma StillWaiting(s: System, t: System, q: Request)
    requires Grows(s, t) && q.stage.Waiting? && WaitingOk(s, q) && s.now <= t.now
    requires t.slots[q.stage.slot] == s.slots[q.stage.slot]
    requires Held(s, q.stage.slot) == Held(t, q.stage.slot)
    requires s.channels <= t.channels && t.closed == s.closed
    requires forall k :: |s.log| <= k < |t.log| ==> !t.log[k].Drop?
    ensures WaitingOk(t, q)
  {
    if q.stage.kept.Some? {
      StillCame(s, t, q.name, q.stage.kept.value, q.stage.from);
    }
  }

  lemma StillSlot(s: System, t: System, i: nat)
    requires Grows(s, t) && i < |s.slots| && SlotOk(s, i) && s.now <= t.now
    requires t.slots[i] == s.slots[i] && Held(s, i) == Held(t, i)
    requires s.channels <= t.channels && t.closed == s.closed
    requires forall k :: |s.log| <= k < |t.log| ==> !t.log[k].Drop?
    ensures SlotOk(t, i)
  {
    if s.slots[i].e.addrs != [] {
      StillCame(s, t, s.slots[i].name, s.slots[i].e.addrs, s.slots[i].from);
    }
  }
}
