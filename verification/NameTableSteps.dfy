/** Every step of the table of names (caddy/table.go) keeps the invariant. */
module NameTableSteps {
  import opened Options
  import opened NameTable
  import opened NameTableRun
  import opened NameTableInvariant

  // A step that touches no entry and closes no channel.
  ghost predicate Quiet(s: System, t: System) {
    && Grows(s, t) && s.now <= t.now
    && t.slots == s.slots && t.names == s.names && t.closed == s.closed && t.channels == s.channels
    && t.panicked == s.panicked
    && forall k :: |s.log| <= k < |t.log| ==> !t.log[k].Drop?
  }

  lemma QuietSlots(s: System, t: System)
    requires Quiet(s, t) && Inv(s)
    ensures NamesOk(t) && ClosedOk(t) && ChannelsOk(t) && forall i :: 0 <= i < |t.slots| ==> SlotOk(t, i)
  {
    forall i | 0 <= i < |t.slots|
      ensures SlotOk(t, i)
    {
      StillSlot(s, t, i);
    }
  }

  lemma QuietRequest(s: System, t: System, r: nat)
    requires Quiet(s, t) && Inv(s) && r < |s.requests| && r < |t.requests| && t.requests[r] == s.requests[r]
    ensures RequestOk(t, r)
  {
    assert RequestOk(s, r);
    if s.requests[r].stage.Waiting? {
      StillWaiting(s, t, s.requests[r]);
    } else {
      StillDone(s, t, r);
    }
  }

  lemma QuietLookup(s: System, t: System, l: nat)
    requires Quiet(s, t) && Inv(s) && l < |s.lookups| && l < |t.lookups| && t.lookups[l] == s.lookups[l]
    ensures LookupOk(t, l)
  {
    assert LookupOk(s, l);
  }

  lemma PassKeeps(s: System, time: nat)
    requires Inv(s)
    ensures Inv(Step(s, Pass(time)))
  {
    var t := Step(s, Pass(time));
    QuietSlots(s, t);
    forall r | 0 <= r < |t.requests| ensures RequestOk(t, r) { QuietRequest(s, t, r); }
    forall l | 0 <= l < |t.lookups| ensures LookupOk(t, l) { QuietLookup(s, t, l); }
  }

  lemma CancelKeeps(s: System, r: nat)
    requires Inv(s) && Enabled(s, Cancel(r))
    ensures Inv(Step(s, Cancel(r)))
  {
    var t := Step(s, Cancel(r));
    QuietSlots(s, t);
    forall q | 0 <= q < |t.requests| ensures RequestOk(t, q) {
      assert RequestOk(s, r);
      if q != r { QuietRequest(s, t, q); } else { assert SlotOk(s, s.requests[r].stage.slot); }
    }
    forall l | 0 <= l < |t.lookups| ensures LookupOk(t, l) { QuietLookup(s, t, l); }
  }

  // Lookups end only with the channel of their entry.
  lemma OwnersStay(s: System, t: System)
    requires OwnersOk(s) && Grows(s, t) && |t.lookups| == |s.lookups|
    requires forall m :: 0 <= m < |s.lookups| && Active(t.lookups[m]) ==> Active(s.lookups[m])
    requires forall m :: 0 <= m < |s.lookups| && Active(s.lookups[m]) && !Active(t.lookups[m])
                         ==> s.lookups[m].slot < |t.slots| && t.slots[s.lookups[m].slot].e.inFlight.None?
    requires forall j :: 0 <= j < |t.slots| && t.slots[j].e.inFlight.Some? ==>
        j < |s.slots| && s.slots[j].e.inFlight.Some?
    ensures OwnersOk(t)
  {
    forall j | 0 <= j < |t.slots| && t.slots[j].e.inFlight.Some?
      ensures exists m :: 0 <= m < |t.lookups| && t.lookups[m].slot == j && Active(t.lookups[m])
    {
      var m :| 0 <= m < |s.lookups| && s.lookups[m].slot == j && Active(s.lookups[m]);
      assert t.lookups[m].slot == j && Active(t.lookups[m]);
    }
  }

  // A step of one lookup that touches no entry.
  lemma LookupMoves(s: System, t: System, l: nat)
    requires Inv(s) && Quiet(s, t) && t.requests == s.requests
    requires |t.lookups| == |s.lookups| && l < |s.lookups|
    requires forall m :: 0 <= m < |s.lookups| && m != l ==> t.lookups[m] == s.lookups[m]
    requires Active(s.lookups[l]) && Active(t.lookups[l]) && LookupOk(t, l)
    ensures Inv(t)
  {
    QuietSlots(s, t);
    forall r | 0 <= r < |t.requests| ensures RequestOk(t, r) { QuietRequest(s, t, r); }
    forall m | 0 <= m < |t.lookups| ensures LookupOk(t, m) {
      if m != l { QuietLookup(s, t, m); }
    }
    OwnersStay(s, t);
  }

  lemma SampleKeeps(s: System, l: nat)
    requires Inv(s) && Enabled(s, Sample(l))
    ensures Inv(Step(s, Sample(l)))
  {
    assert LookupOk(s, l);
    LookupMoves(s, Step(s, Sample(l)), l);
  }

  lemma AskKeeps(s: System, l: nat)
    requires Inv(s) && Enabled(s, Ask(l))
    ensures Inv(Step(s, Ask(l)))
  {
    assert LookupOk(s, l);
    LookupMoves(s, Step(s, Ask(l)), l);
  }

  lemma AnsweredKeeps(s: System, l: nat, a: Answer)
    requires Inv(s) && Enabled(s, Answered(l, a))
    ensures Inv(Step(s, Answered(l, a)))
  {
    assert LookupOk(s, l);
    LookupMoves(s, Step(s, Answered(l, a)), l);
  }

  // A step of one request that touches no entry.
  lemma RequestMoves(s: System, t: System, r: nat)
    requires Inv(s) && Quiet(s, t) && t.lookups == s.lookups
    requires |t.requests| == |s.requests| && r < |s.requests|
    requires forall q :: 0 <= q < |s.requests| && q != r ==> t.requests[q] == s.requests[q]
    requires RequestOk(t, r)
    ensures Inv(t)
  {
    QuietSlots(s, t);
    forall q | 0 <= q < |t.requests| ensures RequestOk(t, q) {
      if q != r { QuietRequest(s, t, q); }
    }
    forall m | 0 <= m < |t.lookups| ensures LookupOk(t, m) { QuietLookup(s, t, m); }
  }

  lemma GiveUpKeeps(s: System, r: nat)
    requires Inv(s) && Enabled(s, GiveUp(r))
    ensures Inv(Step(s, GiveUp(r)))
  {
    var t := Step(s, GiveUp(r));
    var q := s.requests[r];
    assert RequestOk(s, r);
    assert SlotOk(s, q.stage.slot);
    StillCame(s, t, q.name, q.stage.kept.value, q.stage.from);
    if t.requests[r].stage.Waiting? {
      StillWaiting(s, t, q);
    }
    RequestMoves(s, t, r);
  }

  lemma WakeKeeps(s: System, r: nat)
    requires Inv(s) && Enabled(s, Wake(r))
    ensures Inv(Step(s, Wake(r)))
  {
    var t := Step(s, Wake(r));
    var q := s.requests[r];
    var slot := s.slots[q.stage.slot];
    assert RequestOk(s, r);
    assert SlotOk(s, q.stage.slot);
    if slot.e.addrs != [] {
      StillCame(s, t, q.name, slot.e.addrs, slot.from);
    }
    RequestMoves(s, t, r);
  }

  // The end of a lookup that asks again: one entry is marked as asked now.
  ghost predicate Retried(s: System, t: System, i: nat) {
    && Grows(s, t) && t.now == s.now && t.names == s.names && t.channels == s.channels && t.closed == s.closed
    && t.panicked == s.panicked && t.requests == s.requests && i < |s.slots|
    && t.slots == s.slots[i := s.slots[i].(e := s.slots[i].e.(asked := Some(s.now)))]
    && (forall k :: |s.log| <= k < |t.log| ==> !t.log[k].Drop?)
  }

  lemma RetryShape(s: System, l: nat)
    requires Inv(s) && Enabled(s, Finish(l)) && s.slots[s.lookups[l].slot].e.dropped != s.lookups[l].at.dropped
    ensures Retried(s, Step(s, Finish(l)), s.lookups[l].slot) && |Step(s, Finish(l)).lookups| == |s.lookups|
  {
    assert LookupOk(s, l);
  }

  lemma RetriedSlot(s: System, t: System, i: nat)
    requires Retried(s, t, i) && SlotOk(s, i) && s.slots[i].e.inFlight.Some?
    requires s.slots[i].e.addrs != [] ==> s.slots[i].e.asked.Some?
    ensures SlotOk(t, i)
  {
    if s.slots[i].e.addrs != [] {
      StillCame(s, t, s.slots[i].name, s.slots[i].e.addrs, s.slots[i].from);
    }
    assert Held(s, i) == Held(t, i);
  }

  lemma RetrySlot(s: System, l: nat, j: nat)
    requires Inv(s) && Enabled(s, Finish(l)) && s.slots[s.lookups[l].slot].e.dropped != s.lookups[l].at.dropped
    requires j < |s.slots|
    ensures SlotOk(Step(s, Finish(l)), j)
  {
    var t := Step(s, Finish(l));
    RetryShape(s, l);
    assert LookupOk(s, l) && SlotOk(s, j);
    if j == s.lookups[l].slot {
      RetriedSlot(s, t, j);
    } else {
      StillSlot(s, t, j);
    }
  }

  lemma RetryLookup(s: System, l: nat, m: nat)
    requires Inv(s) && Enabled(s, Finish(l)) && s.slots[s.lookups[l].slot].e.dropped != s.lookups[l].at.dropped
    requires m < |s.lookups|
    ensures LookupOk(Step(s, Finish(l)), m)
  {
    assert LookupOk(s, l) && LookupOk(s, m);
  }

  lemma RetryRequest(s: System, l: nat, r: nat)
    requires Inv(s) && Enabled(s, Finish(l)) && s.slots[s.lookups[l].slot].e.dropped != s.lookups[l].at.dropped
    requires r < |s.requests|
    ensures RequestOk(Step(s, Finish(l)), r)
  {
    var t := Step(s, Finish(l));
    assert RequestOk(s, r);
    if s.requests[r].stage.Done? {
      StillDone(s, t, r);
    } else {
      SameEntry(s, t, s.requests[r]);
    }
  }

  lemma RetryOwners(s: System, l: nat)
    requires Inv(s) && Enabled(s, Finish(l)) && s.slots[s.lookups[l].slot].e.dropped != s.lookups[l].at.dropped
    ensures OwnersOk(Step(s, Finish(l)))
  {
    assert LookupOk(s, l);
    OwnersStay(s, Step(s, Finish(l)));
  }

  lemma RetryFrame(s: System, l: nat)
    requires Inv(s) && Enabled(s, Finish(l)) && s.slots[s.lookups[l].slot].e.dropped != s.lookups[l].at.dropped
    ensures Frame(Step(s, Finish(l)))
  {
    assert LookupOk(s, l) && SlotOk(s, s.lookups[l].slot);
    RetryOwners(s, l);
  }

  // A lookup that was dropped meanwhile asks again.
  lemma RetryKeeps(s: System, l: nat)
    requires Inv(s) && Enabled(s, Finish(l)) && s.slots[s.lookups[l].slot].e.dropped != s.lookups[l].at.dropped
    ensures Inv(Step(s, Finish(l)))
  {
    var t := Step(s, Finish(l));
    RetryFrame(s, l);
    RetryShape(s, l);
    forall j | 0 <= j < |t.slots| ensures SlotOk(t, j) { RetrySlot(s, l, j); }
    forall m | 0 <= m < |t.lookups| ensures LookupOk(t, m) { RetryLookup(s, l, m); }
    forall r | 0 <= r < |t.requests| ensures RequestOk(t, r) { RetryRequest(s, l, r); }
    FrameAndParts(t);
  }

  // A waiting request whose entry was changed in nothing that concerns it.
  lemma SameEntry(s: System, t: System, q: Request)
    requires Grows(s, t) && q.stage.Waiting? && WaitingOk(s, q) && s.now <= t.now
    requires var i := q.stage.slot; var e, f := s.slots[i].e, t.slots[i].e;
      e.used <= f.used && e.failing == f.failing && e.answered == f.answered && e.dropped == f.dropped
      && (e.inFlight.Some? ==> e.inFlight == f.inFlight)
    requires Held(s, q.stage.slot) == Held(t, q.stage.slot)
    requires s.channels <= t.channels && t.closed == s.closed
    requires forall k :: |s.log| <= k < |t.log| ==> !t.log[k].Drop?
    ensures WaitingOk(t, q)
  {
    if q.stage.kept.Some? {
      StillCame(s, t, q.name, q.stage.kept.value, q.stage.from);
    }
  }

  // The end of a lookup that stores what it learned and closes its channel.
  ghost predicate Committed(s: System, t: System, i: nat, c: nat) {
    && Grows(s, t) && t.now == s.now && t.names == s.names && t.channels == s.channels
    && |t.slots| == |s.slots| && i < |s.slots| && s.slots[i].e.inFlight == Some(c)
    && t.closed == s.closed[c := s.now] && t.requests == s.requests
    && (forall j :: 0 <= j < |s.slots| && j != i ==> t.slots[j] == s.slots[j])
    && (forall k :: |s.log| <= k < |t.log| ==> !t.log[k].Drop?)
  }

  lemma CommitShape(s: System, l: nat)
    requires Inv(s) && Enabled(s, Finish(l)) && s.slots[s.lookups[l].slot].e.dropped == s.lookups[l].at.dropped
    ensures var i := s.lookups[l].slot;
      && i < |s.slots| && s.slots[i].e.inFlight.Some?
      && Committed(s, Step(s, Finish(l)), i, s.slots[i].e.inFlight.value)
      && Step(s, Finish(l)).slots[i].e == Commit(s.slots[i].e, s.now, s.lookups[l].at.answer)
  {
    assert LookupOk(s, l);
  }

  lemma CommitOwnSlot(s: System, l: nat)
    requires Inv(s) && Enabled(s, Finish(l)) && s.slots[s.lookups[l].slot].e.dropped == s.lookups[l].at.dropped
    ensures SlotOk(Step(s, Finish(l)), s.lookups[l].slot)
  {
    var t := Step(s, Finish(l));
    var i := s.lookups[l].slot;
    assert LookupOk(s, l) && SlotOk(s, i);
    if s.slots[i].e.addrs != [] {
      StillCame(s, t, s.slots[i].name, s.slots[i].e.addrs, s.slots[i].from);
    }
    assert Held(s, i) == Held(t, i);
  }

  lemma OtherSlotStays(s: System, t: System, i: nat, c: nat, j: nat)
    requires Committed(s, t, i, c) && ChannelsOk(s) && j < |s.slots| && j != i && SlotOk(s, j)
    ensures SlotOk(t, j)
  {
    if s.slots[j].e.addrs != [] {
      StillCame(s, t, s.slots[j].name, s.slots[j].e.addrs, s.slots[j].from);
    }
    assert Held(s, j) == Held(t, j);
    if s.slots[j].e.inFlight.Some? {
      assert s.slots[i].e.inFlight != s.slots[j].e.inFlight;
    }
  }

  lemma CommitSlot(s: System, l: nat, j: nat)
    requires Inv(s) && Enabled(s, Finish(l)) && s.slots[s.lookups[l].slot].e.dropped == s.lookups[l].at.dropped
    requires j < |s.slots|
    ensures SlotOk(Step(s, Finish(l)), j)
  {
    if j == s.lookups[l].slot {
      CommitOwnSlot(s, l);
    } else {
      CommitShape(s, l);
      assert SlotOk(s, j);
      OtherSlotStays(s, Step(s, Finish(l)), s.lookups[l].slot, s.slots[s.lookups[l].slot].e.inFlight.value, j);
    }
  }

  lemma OwnWaiterStays(s: System, t: System, i: nat, c: nat, a: Answer, q: Request)
    requires Committed(s, t, i, c) && t.slots[i].e == Commit(s.slots[i].e, s.now, a) && SlotOk(s, i) && ClosedOk(s)
    requires q.stage.Waiting? && WaitingOk(s, q) && q.stage.slot == i
    ensures WaitingOk(t, q)
  {
    if q.stage.kept.Some? {
      StillCame(s, t, q.name, q.stage.kept.value, q.stage.from);
    }
    assert Held(s, i) == Held(t, i);
  }

  lemma OtherWaiterStays(s: System, t: System, i: nat, c: nat, q: Request)
    requires Committed(s, t, i, c) && ChannelsOk(s) && c !in s.closed
    requires q.stage.Waiting? && WaitingOk(s, q) && q.stage.slot != i
    ensures WaitingOk(t, q)
  {
    if q.stage.kept.Some? {
      StillCame(s, t, q.name, q.stage.kept.value, q.stage.from);
    }
    assert s.slots[i].e.inFlight != s.slots[q.stage.slot].e.inFlight;
    assert Held(s, q.stage.slot) == Held(t, q.stage.slot);
  }

  lemma CommitWaiter(s: System, l: nat, r: nat)
    requires Inv(s) && Enabled(s, Finish(l)) && s.slots[s.lookups[l].slot].e.dropped == s.lookups[l].at.dropped
    requires r < |s.requests| && s.requests[r].stage.Waiting?
    ensures RequestOk(Step(s, Finish(l)), r)
  {
    var t, i, q := Step(s, Finish(l)), s.lookups[l].slot, s.requests[r];
    CommitShape(s, l);
    assert RequestOk(s, r) && SlotOk(s, i);
    if q.stage.slot == i {
      OwnWaiterStays(s, t, i, s.slots[i].e.inFlight.value, s.lookups[l].at.answer, q);
    } else {
      OtherWaiterStays(s, t, i, s.slots[i].e.inFlight.value, q);
    }
  }

  lemma CommitRequest(s: System, l: nat, r: nat)
    requires Inv(s) && Enabled(s, Finish(l)) && s.slots[s.lookups[l].slot].e.dropped == s.lookups[l].at.dropped
    requires r < |s.requests|
    ensures RequestOk(Step(s, Finish(l)), r)
  {
    if s.requests[r].stage.Done? {
      assert RequestOk(s, r);
      StillDone(s, Step(s, Finish(l)), r);
    } else {
      CommitWaiter(s, l, r);
    }
  }

  lemma CommitLookup(s: System, l: nat, m: nat)
    requires Inv(s) && Enabled(s, Finish(l)) && s.slots[s.lookups[l].slot].e.dropped == s.lookups[l].at.dropped
    requires m < |s.lookups|
    ensures LookupOk(Step(s, Finish(l)), m)
  {
    assert LookupOk(s, l) && LookupOk(s, m);
    if m != l && Active(s.lookups[m]) {
      assert s.lookups[m].slot != s.lookups[l].slot;
    }
  }

  // All of the invariant but what is said of slots, requests and lookups one by one.
  ghost predicate Frame(s: System) {
    s.now >= 0 && !s.panicked && NamesOk(s) && ClosedOk(s) && ChannelsOk(s) && OwnersOk(s)
  }

  lemma FrameAndParts(t: System)
    requires Frame(t)
    requires forall j :: 0 <= j < |t.slots| ==> SlotOk(t, j)
    requires forall m :: 0 <= m < |t.lookups| ==> LookupOk(t, m)
    requires forall r :: 0 <= r < |t.requests| ==> RequestOk(t, r)
    ensures Inv(t)
  {
  }

  lemma CommitOwners(s: System, l: nat)
    requires Inv(s) && Enabled(s, Finish(l)) && s.slots[s.lookups[l].slot].e.dropped == s.lookups[l].at.dropped
    ensures OwnersOk(Step(s, Finish(l)))
  {
    assert LookupOk(s, l);
    OwnersStay(s, Step(s, Finish(l)));
  }

  lemma CommitFrame(s: System, l: nat)
    requires Inv(s) && Enabled(s, Finish(l)) && s.slots[s.lookups[l].slot].e.dropped == s.lookups[l].at.dropped
    ensures Frame(Step(s, Finish(l)))
  {
    assert LookupOk(s, l) && SlotOk(s, s.lookups[l].slot);
    CommitOwners(s, l);
  }

  // A lookup that was not dropped stores what it learned and ends.
  lemma CommitKeeps(s: System, l: nat)
    requires Inv(s) && Enabled(s, Finish(l)) && s.slots[s.lookups[l].slot].e.dropped == s.lookups[l].at.dropped
    ensures Inv(Step(s, Finish(l)))
  {
    var t := Step(s, Finish(l));
    CommitFrame(s, l);
    CommitShape(s, l);
    forall j | 0 <= j < |t.slots| ensures SlotOk(t, j) { CommitSlot(s, l, j); }
    forall r | 0 <= r < |t.requests| ensures RequestOk(t, r) { CommitRequest(s, l, r); }
    forall m | 0 <= m < |t.lookups| ensures LookupOk(t, m) { CommitLookup(s, l, m); }
    FrameAndParts(t);
  }

  // A drop, by what it changes.
  ghost predicate Drops(s: System, t: System, names: seq<Name>) {
    && Grows(s, t) && t.now == s.now && t.names == s.names && t.channels == s.channels && t.closed == s.closed
    && |t.slots| == |s.slots| && (forall j :: 0 <= j < |s.slots| ==> t.slots[j] == DropSlot(s, j, names))
    && t.requests == s.requests && t.log == s.log + [Drop(names)]
  }

  lemma DropIs(s: System, names: seq<Name>)
    ensures Drops(s, Step(s, Drop(names)), names)
  {
  }

  lemma DroppedWaiter(s: System, t: System, names: seq<Name>, q: Request)
    requires Drops(s, t, names) && q.stage.Waiting? && WaitingOk(s, q)
    ensures WaitingOk(t, q)
  {
    CountPositive(q.name, names);
    if q.stage.kept.Some? {
      StillCame(s, t, q.name, q.stage.kept.value, q.stage.from);
    }
    assert Held(s, q.stage.slot) == Held(t, q.stage.slot);
  }

  lemma DropRequest(s: System, names: seq<Name>, r: nat)
    requires Inv(s) && r < |s.requests|
    ensures RequestOk(Step(s, Drop(names)), r)
  {
    var t := Step(s, Drop(names));
    DropIs(s, names);
    assert RequestOk(s, r);
    if s.requests[r].stage.Done? {
      StillDone(s, t, r);
    } else {
      DroppedWaiter(s, t, names, s.requests[r]);
    }
  }

  lemma DropEntry(s: System, names: seq<Name>, j: nat)
    requires Inv(s) && j < |s.slots|
    ensures SlotOk(Step(s, Drop(names)), j)
  {
    var t := Step(s, Drop(names));
    assert SlotOk(s, j);
    CountPositive(s.slots[j].name, names);
    assert Held(s, j) == Held(t, j);
    if s.slots[j].e.addrs != [] {
      StillCame(s, t, s.slots[j].name, s.slots[j].e.addrs, s.slots[j].from);
    }
  }

  lemma DropLookup(s: System, names: seq<Name>, m: nat)
    requires Inv(s) && m < |s.lookups|
    ensures LookupOk(Step(s, Drop(names)), m)
  {
    assert LookupOk(s, m);
    var i := s.lookups[m].slot;
    assert SlotOk(s, i);
    CountPositive(s.slots[i].name, names);
  }

  lemma DropShape(s: System, names: seq<Name>)
    requires Inv(s)
    ensures var t := Step(s, Drop(names));
      Grows(s, t) && |t.slots| == |s.slots| && ChannelsOk(t) && NamesOk(t)
      && forall j :: 0 <= j < |s.slots| ==> t.slots[j].e.inFlight == s.slots[j].e.inFlight
  {
    DropIs(s, names);
  }

  lemma DropKeeps(s: System, names: seq<Name>)
    requires Inv(s)
    ensures Inv(Step(s, Drop(names)))
  {
    var t := Step(s, Drop(names));
    DropShape(s, names);
    forall j | 0 <= j < |t.slots| ensures SlotOk(t, j) { DropEntry(s, names, j); }
    forall r | 0 <= r < |t.requests| ensures RequestOk(t, r) { DropRequest(s, names, r); }
    forall m | 0 <= m < |t.lookups| ensures LookupOk(t, m) { DropLookup(s, names, m); }
    OwnersStay(s, t);
  }

  lemma ForgetShape(s: System)
    requires NamesOk(s)
    ensures var t := Forget(s);
      && t == s.(names := t.names) && NamesOk(t)
      && (forall n :: n in t.names ==> n in s.names && t.names[n] == s.names[n])
      && (forall n :: n in s.names && n !in t.names ==> s.slots[s.names[n]].e.Forgettable(s.now))
  {
  }

  // What making an entry, and forgetting others for it, leaves as it was.
  lemma EnsureHolds(s: System, name: Name)
    requires NamesOk(s)
    ensures var t := Ensure(s, name);
      && (forall j :: |s.slots| <= j < |t.slots| ==> t.slots[j].e == NewEntry && Held(t, j))
      && (forall j :: 0 <= j < |s.slots| && Held(t, j) ==> Held(s, j))
      && (forall j :: 0 <= j < |s.slots| && Held(s, j) && !Held(t, j) ==> s.slots[j].e.Forgettable(s.now))
  {
    ForgetShape(s);
  }

  lemma EnsureShape(s: System, name: Name)
    requires NamesOk(s) && ClosedOk(s) && ChannelsOk(s)
    ensures var t := Ensure(s, name);
      && name in t.names && NamesOk(t) && ClosedOk(t) && ChannelsOk(t)
      && t == s.(slots := t.slots, names := t.names)
      && s.slots <= t.slots && Grows(s, t)
      && (forall j :: |s.slots| <= j < |t.slots| ==> t.slots[j].e == NewEntry && Held(t, j))
      && (forall j :: 0 <= j < |s.slots| && Held(t, j) ==> Held(s, j))
      && (forall j :: 0 <= j < |s.slots| && Held(s, j) && !Held(t, j) ==> s.slots[j].e.Forgettable(s.now))
  {
    ForgetShape(s);
    EnsureHolds(s, name);
  }

  lemma EnsureSlot(s: System, name: Name, j: nat)
    requires Inv(s) && j < |Ensure(s, name).slots|
    ensures SlotOk(Ensure(s, name), j)
  {
    var t := Ensure(s, name);
    EnsureShape(s, name);
    if j < |s.slots| {
      assert SlotOk(s, j);
      if s.slots[j].e.addrs != [] {
        StillCame(s, t, s.slots[j].name, s.slots[j].e.addrs, s.slots[j].from);
      }
    }
  }

  lemma EnsureRequest(s: System, name: Name, r: nat)
    requires Inv(s) && r < |s.requests|
    ensures r < |Ensure(s, name).requests| && RequestOk(Ensure(s, name), r)
  {
    var t := Ensure(s, name);
    EnsureShape(s, name);
    assert RequestOk(s, r);
    if s.requests[r].stage.Done? {
      StillDone(s, t, r);
    } else if s.requests[r].stage.kept.Some? {
      StillCame(s, t, s.requests[r].name, s.requests[r].stage.kept.value, s.requests[r].stage.from);
    }
  }

  lemma EnsureLookup(s: System, name: Name, l: nat)
    requires Inv(s) && l < |s.lookups|
    ensures l < |Ensure(s, name).lookups| && LookupOk(Ensure(s, name), l)
  {
    EnsureShape(s, name);
    assert LookupOk(s, l);
  }

  // Forgetting detaches only entries no lookup owns and no young request waits for.
  lemma EnsureKeeps(s: System, name: Name)
    requires Inv(s)
    ensures Inv(Ensure(s, name)) && name in Ensure(s, name).names
  {
    var t := Ensure(s, name);
    EnsureShape(s, name);
    forall j | 0 <= j < |t.slots| ensures SlotOk(t, j) { EnsureSlot(s, name, j); }
    forall m | 0 <= m < |t.lookups| ensures LookupOk(t, m) { EnsureLookup(s, name, m); }
    forall r | 0 <= r < |t.requests| ensures RequestOk(t, r) { EnsureRequest(s, name, r); }
    OwnersStay(s, t);
  }
}
