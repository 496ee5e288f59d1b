/** A request arriving at the table of names (caddy/table.go) keeps the invariant. */
module NameTableArrive {
  import opened Options
  import opened NameTable
  import opened NameTableRun
  import opened NameTableInvariant
  import opened NameTableSteps

  ghost function Arrived(s: System, i: nat, settings: Settings): System
    requires i < |s.slots|
  {
    ArriveAt(s, i, settings).(log := s.log + [Arrive(s.slots[i].name, settings)])
  }

  ghost predicate Starts(s: System, i: nat, settings: Settings)
    requires i < |s.slots|
  {
    !s.slots[i].e.Fresh(s.now, settings.refresh) && s.slots[i].e.Due(s.now, settings.refresh)
  }

  // What an arrival changes.
  lemma ArriveShape(s: System, i: nat, settings: Settings)
    requires Inv(s) && Held(s, i)
    ensures var t := Arrived(s, i, settings); var e := Touch(s.slots[i].e, s.now, settings, s.channels);
      && Grows(s, t) && t.now == s.now && t.names == s.names && t.closed == s.closed && t.panicked == s.panicked
      && t.log == s.log + [Arrive(s.slots[i].name, settings)]
      && t.slots == s.slots[i := s.slots[i].(e := e)]
      && e == s.slots[i].e.(used := s.now, asked := e.asked, inFlight := e.inFlight)
      && (if Starts(s, i, settings)
          then e.asked == Some(s.now) && e.inFlight == Some(s.channels) && s.slots[i].e.inFlight.None?
               && t.channels == s.channels + 1 && t.lookups == s.lookups + [Lookup(i, e.dropped, 0, Starting)]
          else e.asked == s.slots[i].e.asked && e.inFlight == s.slots[i].e.inFlight
               && t.channels == s.channels && t.lookups == s.lookups)
      && |t.requests| == |s.requests| + 1 && t.requests[..|s.requests|] == s.requests
      && NamesOk(t) && ClosedOk(t) && forall j :: Held(t, j) == Held(s, j)
  {
    assert SlotOk(s, i);
  }

  lemma ArriveSlot(s: System, i: nat, settings: Settings, j: nat)
    requires Inv(s) && Held(s, i) && j < |s.slots|
    ensures j < |Arrived(s, i, settings).slots| && SlotOk(Arrived(s, i, settings), j)
  {
    var t := Arrived(s, i, settings);
    ArriveShape(s, i, settings);
    assert SlotOk(s, j);
    if s.slots[j].e.addrs != [] {
      StillCame(s, t, s.slots[j].name, s.slots[j].e.addrs, s.slots[j].from);
    }
  }

  lemma ArriveChannels(s: System, i: nat, settings: Settings)
    requires Inv(s) && Held(s, i)
    ensures ChannelsOk(Arrived(s, i, settings))
  {
    ArriveShape(s, i, settings);
    forall j | 0 <= j < |s.slots| ensures s.slots[j].e.inFlight != Some(s.channels) {
      assert SlotOk(s, j);
    }
  }

  lemma ArriveOwners(s: System, i: nat, settings: Settings)
    requires Inv(s) && Held(s, i)
    ensures OwnersOk(Arrived(s, i, settings))
  {
    var t := Arrived(s, i, settings);
    ArriveShape(s, i, settings);
    forall l | 0 <= l < |s.lookups| && Active(s.lookups[l]) && Starts(s, i, settings) ensures s.lookups[l].slot != i {
      assert LookupOk(s, l);
    }
    forall j | 0 <= j < |t.slots| && t.slots[j].e.inFlight.Some?
      ensures exists l :: 0 <= l < |t.lookups| && t.lookups[l].slot == j && Active(t.lookups[l])
    {
      if j == i && Starts(s, i, settings) {
        assert t.lookups[|s.lookups|].slot == j && Active(t.lookups[|s.lookups|]);
      } else {
        var l :| 0 <= l < |s.lookups| && s.lookups[l].slot == j && Active(s.lookups[l]);
        assert t.lookups[l].slot == j && Active(t.lookups[l]);
      }
    }
  }

  lemma ArriveLookup(s: System, i: nat, settings: Settings, l: nat)
    requires Inv(s) && Held(s, i) && l < |Arrived(s, i, settings).lookups|
    ensures LookupOk(Arrived(s, i, settings), l)
  {
    ArriveShape(s, i, settings);
    if l < |s.lookups| {
      assert LookupOk(s, l);
    }
  }

  lemma ArriveRequest(s: System, i: nat, settings: Settings, r: nat)
    requires Inv(s) && Held(s, i) && r < |s.requests|
    ensures r < |Arrived(s, i, settings).requests| && RequestOk(Arrived(s, i, settings), r)
  {
    var t := Arrived(s, i, settings);
    ArriveShape(s, i, settings);
    assert RequestOk(s, r);
    assert t.requests[r] == t.requests[..|s.requests|][r];
    if s.requests[r].stage.Done? {
      StillDone(s, t, r);
    } else {
      assert SlotOk(s, i);
      SameEntry(s, t, s.requests[r]);
    }
  }

  lemma ArriveNew(s: System, i: nat, settings: Settings)
    requires Inv(s) && Held(s, i)
    ensures var t := Arrived(s, i, settings); RequestOk(t, |t.requests| - 1)
  {
    var t := Arrived(s, i, settings);
    ArriveShape(s, i, settings);
    ArriveSlot(s, i, settings, i);
    assert SlotOk(s, i);
    if s.slots[i].e.addrs != [] {
      StillCame(s, t, s.slots[i].name, s.slots[i].e.addrs, s.slots[i].from);
    }
  }

  lemma ArriveKeeps(s: System, i: nat, settings: Settings)
    requires Inv(s) && Held(s, i)
    ensures Inv(Arrived(s, i, settings))
  {
    var t := Arrived(s, i, settings);
    ArriveShape(s, i, settings);
    ArriveChannels(s, i, settings);
    ArriveOwners(s, i, settings);
    forall j | 0 <= j < |t.slots| ensures SlotOk(t, j) { ArriveSlot(s, i, settings, j); }
    forall l | 0 <= l < |t.lookups| ensures LookupOk(t, l) { ArriveLookup(s, i, settings, l); }
    forall r | 0 <= r < |t.requests| ensures RequestOk(t, r) {
      if r < |s.requests| { ArriveRequest(s, i, settings, r); } else { ArriveNew(s, i, settings); }
    }
  }

  lemma StepKeeps(s: System, l: Label)
    requires Inv(s) && Enabled(s, l)
    ensures Inv(Step(s, l))
  {
    match l
    case Arrive(name, settings) =>
      EnsureKeeps(s, name);
      var t := Ensure(s, name);
      EnsureShapeLog(s, name);
      ArriveKeeps(t, t.names[name], settings);
    case GiveUp(r) => GiveUpKeeps(s, r);
    case Wake(r) => WakeKeeps(s, r);
    case Cancel(r) => CancelKeeps(s, r);
    case Sample(l) => SampleKeeps(s, l);
    case Ask(l) => AskKeeps(s, l);
    case Answered(l, a) => AnsweredKeeps(s, l, a);
    case Finish(l) =>
      if s.slots[s.lookups[l].slot].e.dropped == s.lookups[l].at.dropped {
        CommitKeeps(s, l);
      } else {
        RetryKeeps(s, l);
      }
    case Drop(names) => DropKeeps(s, names);
    case Pass(time) => PassKeeps(s, time);
  }

  lemma EnsureShapeLog(s: System, name: Name)
    ensures Ensure(s, name).log == s.log
  {
  }

  lemma {:induction false} BehaviourKeeps(b: seq<System>, k: nat)
    requires Behaviour(b) && k < |b|
    ensures Inv(b[k])
  {
    if k > 0 {
      BehaviourKeeps(b, k - 1);
      assert Follows(b, k);
      var l :| Enabled(b[k - 1], l) && b[k] == Step(b[k - 1], l);
      StepKeeps(b[k - 1], l);
    }
  }

  /** The invariant holds wherever a run leads. */
  lemma RunKeeps(s: System)
    requires Run(s)
    ensures Inv(s)
  {
    var b: seq<System> :| Behaviour(b) && b[|b| - 1] == s;
    BehaviourKeeps(b, |b| - 1);
  }
}
