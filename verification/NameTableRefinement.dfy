/**
The methods of `NameTableCode` take the steps of `NameTableRun`: a table of
entries updated in place shows, after each, what the run's next system holds.
*/
module NameTableRefinement {
  import opened Options
  import N = NameTable
  import opened NameTableRun
  import opened NameTableInvariant
  import opened NameTableSteps
  import opened NameTableArrive
  import C = NameTableCode

  // The names of the table, with the values of their entries.
  ghost function Values(t: C.Table): map<N.Name, N.Entry>
    reads t, t.entries.Values
  {
    map n | n in t.entries :: t.entries[n].Value()
  }

  ghost predicate Agrees(entries: map<N.Name, N.Entry>, s: System) {
    && entries.Keys == s.names.Keys
    && forall n :: n in s.names ==> s.names[n] < |s.slots| && entries[n] == s.slots[s.names[n]].e
  }

  ghost predicate Shows(t: C.Table, s: System)
    reads t, t.entries.Values
  {
    t.channels == s.channels && Agrees(Values(t), s)
  }

  // What a request that has let go of the lock is doing.
  ghost predicate Enters(q: Request, entered: N.Entered) {
    match entered
    case Now(reply) => q.stage.Done? && q.stage.reply == reply
    case Later(done, dropped, kept, _) =>
      q.stage.Waiting? && q.stage.done == done && q.stage.dropped == dropped && q.stage.kept == kept
  }

  lemma EnsureIsObtain(s: System, name: N.Name)
    requires Inv(s)
    ensures var u := Ensure(s, name);
      && Inv(u) && name in u.names && u.names[name] < |u.slots| && u.channels == s.channels && u.now == s.now
      && (name in s.names ==> u == s)
      && (name !in s.names ==> u.slots[u.names[name]].e == N.NewEntry)
      && (name !in s.names ==> forall n :: n != name ==> (n in u.names <==> n in Forget(s).names))
      && (forall n :: n in u.names && n != name ==>
            n in s.names && u.names[n] == s.names[n] && u.slots[u.names[n]] == s.slots[s.names[n]] &&
                u.names[n] != u.names[name])
  {
    EnsureKeeps(s, name);
    EnsureShape(s, name);
    ForgetShape(s);
  }

  lemma ArrivedEnters(u: System, i: nat, settings: N.Settings)
    requires i < |u.slots|
    ensures var after := Arrived(u, i, settings);
      && after.requests != []
      && Enters(after.requests[|after.requests| - 1],
          N.Enter(N.Touch(u.slots[i].e, u.now, settings, u.channels), u.now, settings))
  {
  }

  // Arrivals leave all entries alone but one, which they touch.
  lemma ArrivedShows(u: System, i: nat, settings: N.Settings)
    requires Inv(u) && Held(u, i)
    ensures var after := Arrived(u, i, settings); var e := N.Touch(u.slots[i].e, u.now, settings, u.channels);
      && after.names == u.names && after.slots == u.slots[i := u.slots[i].(e := e)]
      && after.channels == u.channels + if e.inFlight != u.slots[i].e.inFlight then 1 else 0
  {
    ArriveShape(u, i, settings);
  }

  lemma SameEntries(entries: map<N.Name, N.Entry>, s: System)
    requires Agrees(entries, s)
    ensures forall n :: n in Forget(s).names <==> n in entries && N.Stays(entries[n], s.now, |entries|)
  {
    assert |entries.Keys| == |s.names.Keys|;
  }

  // The entries that a table has after an arrival.
  ghost predicate HasArrived(before: map<N.Name, N.Entry>, after: map<N.Name, N.Entry>, name: N.Name, now: N.Time,
                             e: N.Entry) {
    && name in after && after[name] == e
    && (forall n :: n in after && n != name ==> n in before && after[n] == before[n])
    && (forall n :: n in before && n != name ==>
          (n in after <==> name in before || N.Stays(before[n], now, |before|)))
  }

  lemma ArriveAgrees(before: map<N.Name, N.Entry>, after: map<N.Name, N.Entry>, s: System, name: N.Name,
                     settings: N.Settings)
    requires Inv(s) && Agrees(before, s)
    requires HasArrived(before, after, name, s.now,
                      N.Touch(if name in before then before[name] else N.NewEntry, s.now, settings, s.channels))
    ensures Agrees(after, Step(s, NameTableRun.Arrive(name, settings)))
  {
    EnsureIsObtain(s, name);
    var u := Ensure(s, name);
    ArriveNames(before, after, s, name, after[name]);
    ArrivedShows(u, u.names[name], settings);
  }

  lemma ArriveNames(before: map<N.Name, N.Entry>, after: map<N.Name, N.Entry>, s: System, name: N.Name, e: N.Entry)
    requires Inv(s) && Agrees(before, s) && HasArrived(before, after, name, s.now, e)
    ensures after.Keys == Ensure(s, name).names.Keys
    ensures forall n :: n in after && n != name ==> n in s.names && after[n] == s.slots[s.names[n]].e
  {
    SameEntries(before, s);
    EnsureIsObtain(s, name);
    forall n ensures n in after <==> n in Ensure(s, name).names {}
  }

  lemma ArriveReplies(s: System, name: N.Name, settings: N.Settings, was: N.Entry)
    requires Inv(s)
    requires was == if name in s.names then s.slots[s.names[name]].e else N.NewEntry
    ensures var after := Step(s, NameTableRun.Arrive(name, settings));
      var e := N.Touch(was, s.now, settings, s.channels);
      && after.requests != [] && Enters(after.requests[|after.requests| - 1], N.Enter(e, s.now, settings))
      && after.channels == s.channels + if e.inFlight != was.inFlight then 1 else 0
  {
    EnsureIsObtain(s, name);
    var u := Ensure(s, name);
    ArrivedShows(u, u.names[name], settings);
    ArrivedEnters(u, u.names[name], settings);
  }

  // What an arrival comes to, by the values of the entries.
  ghost predicate ArrivesByValue(before: map<N.Name, N.Entry>, channels: nat, name: N.Name, settings: N.Settings,
                                 now: N.Time,
                                 after: map<N.Name, N.Entry>, channels': nat, entered: N.Entered) {
    var was := if name in before then before[name] else N.NewEntry;
    var e := N.Touch(was, now, settings, channels);
    && HasArrived(before, after, name, now, e) && entered == N.Enter(e, now, settings)
    && channels' == channels + if e.inFlight != was.inFlight then 1 else 0
  }

  method ArriveByValue(t: C.Table, name: N.Name, settings: N.Settings, now: N.Time) returns (entered: N.Entered)
    requires t.Valid()
    modifies t, t.entries.Values
    ensures t.Valid()
    ensures ArrivesByValue(old(Values(t)), old(t.channels), name, settings, now, Values(t), t.channels, entered)
  {
    ghost var before := Values(t);
    assert before.Keys == t.entries.Keys && |before.Keys| == |t.entries.Keys|;
    var e, starts;
    e, entered, starts := t.Arrive(name, now, settings);
  }

  lemma ArriveIsAStep(before: map<N.Name, N.Entry>, s: System, name: N.Name, settings: N.Settings,
                      after: map<N.Name, N.Entry>, channels: nat, entered: N.Entered)
    requires Inv(s) && Agrees(before, s)
    requires ArrivesByValue(before, s.channels, name, settings, s.now, after, channels, entered)
    ensures var t := Step(s, NameTableRun.Arrive(name, settings));
      && Agrees(after, t) && t.channels == channels
      && t.requests != [] && Enters(t.requests[|t.requests| - 1], entered)
  {
    ArriveReplies(s, name, settings, if name in before then before[name] else N.NewEntry);
    ArriveAgrees(before, after, s, name, settings);
  }

  method Arrive(t: C.Table, ghost s: System, name: N.Name, settings: N.Settings, now: N.Time)
    returns (entered: N.Entered)
    requires t.Valid() && Inv(s) && Shows(t, s) && now == s.now
    modifies t, t.entries.Values
    ensures t.Valid()
    ensures var after := Step(s, NameTableRun.Arrive(name, settings));
      Shows(t, after) && after.requests != [] && Enters(after.requests[|after.requests| - 1], entered)
  {
    ghost var before := Values(t);
    entered := ArriveByValue(t, name, settings, now);
    ArriveIsAStep(before, s, name, settings, Values(t), t.channels, entered);
  }

  // A drop, by the values of the entries.
  ghost predicate DropsByValue(before: map<N.Name, N.Entry>, names: seq<N.Name>, after: map<N.Name, N.Entry>) {
    after.Keys == before.Keys && forall n :: n in before ==> after[n] == N.Dropped(before[n], N.Count(n, names))
  }

  lemma DropIsAStep(before: map<N.Name, N.Entry>, s: System, names: seq<N.Name>, after: map<N.Name, N.Entry>)
    requires NamesOk(s) && Agrees(before, s) && DropsByValue(before, names, after)
    ensures Agrees(after, Step(s, NameTableRun.Drop(names)))
  {
    DropIs(s, names);
  }

  method DropByValue(t: C.Table, names: seq<N.Name>)
    requires t.Valid()
    modifies t.entries.Values
    ensures t.Valid() && DropsByValue(old(Values(t)), names, Values(t))
  {
    t.Drop(names);
  }

  method Drop(t: C.Table, ghost s: System, names: seq<N.Name>)
    requires t.Valid() && Inv(s) && Shows(t, s)
    modifies t.entries.Values
    ensures t.Valid() && Shows(t, Step(s, NameTableRun.Drop(names)))
  {
    ghost var before := Values(t);
    DropIs(s, names);
    DropByValue(t, names);
    DropIsAStep(before, s, names, Values(t));
  }

  lemma FinishAgrees(before: map<N.Name, N.Entry>, s: System, l: nat)
    requires Inv(s) && Agrees(before, s) && Enabled(s, NameTableRun.Finish(l))
    ensures var t := Step(s, NameTableRun.Finish(l)); var i := s.lookups[l].slot; var name := s.slots[i].name;
      i < |t.slots| && name in before && before[name] == s.slots[i].e && Agrees(before[name := t.slots[i].e], t)
  {
    assert LookupOk(s, l) && SlotOk(s, s.lookups[l].slot);
  }

  lemma FinishValue(s: System, l: nat)
    requires Inv(s) && Enabled(s, NameTableRun.Finish(l))
    ensures var t := Step(s, NameTableRun.Finish(l)); var i := s.lookups[l].slot; var at := s.lookups[l].at;
      var e := s.slots[i].e;
      && t.channels == s.channels && i < |t.slots| && l < |t.lookups| && e.inFlight.Some?
      && if e.dropped != at.dropped then
           t.slots[i].e == e.(asked := Some(s.now)) && t.lookups[l].at.Starting? && t.closed == s.closed
         else
           t.slots[i].e == N.Commit(e, s.now, at.answer) && t.lookups[l].at.Ended?
           && t.closed == s.closed[e.inFlight.value := s.now]
  {
    assert LookupOk(s, l);
  }

  // The end of a lookup, by the values of the entries.
  method FinishByValue(t: C.Table, e: C.Entry, name: N.Name, now: N.Time, sampled: nat, answer: N.Answer)
    returns (again: bool, closes: Option<nat>)
    requires t.Valid() && name in t.entries && e == t.entries[name]
    modifies e
    ensures t.Valid() && Values(t) == old(Values(t))[name := e.Value()]
    ensures again == (old(e.dropped) != sampled)
    ensures again ==> e.Value() == old(e.Value()).(asked := Some(now)) && closes.None?
    ensures !again ==> e.Value() == N.Commit(old(e.Value()), now, answer) && closes == old(e.inFlight)
  {
    again, closes := e.Finish(now, sampled, answer);
  }

  // The end of a lookup, on the entry it was given.
  method Finish(t: C.Table, e: C.Entry, name: N.Name, ghost s: System, ghost l: nat, now: N.Time,
                sampled: nat, answer: N.Answer)
    returns (again: bool, closes: Option<nat>)
    requires t.Valid() && Inv(s) && Shows(t, s) && Enabled(s, NameTableRun.Finish(l)) && now == s.now
    requires s.lookups[l].at.answer == answer && s.lookups[l].at.dropped == sampled
    requires name == s.slots[s.lookups[l].slot].name && name in t.entries && e == t.entries[name]
    modifies e
    ensures var after := Step(s, NameTableRun.Finish(l));
      && t.Valid() && Shows(t, after)
      && (again <==> after.lookups[l].at.Starting?)
      && (closes.Some? ==> after.closed == s.closed[closes.value := now]) && (closes.None? ==> after.closed == s.closed)
  {
    ghost var before := Values(t);
    FinishAgrees(before, s, l);
    FinishValue(s, l);
    again, closes := FinishByValue(t, e, name, now, sampled, answer);
  }

  // The end of a request whose lookup has ended.
  method Wake(e: C.Entry, ghost s: System, ghost r: nat, now: N.Time, keep: int) returns (reply: N.Reply)
    requires Enabled(s, NameTableRun.Wake(r)) && now == s.now && keep == s.requests[r].settings.keep
    requires e.Value() == s.slots[s.requests[r].stage.slot].e
    ensures Step(s, NameTableRun.Wake(r)).requests[r].stage.reply == reply
  {
    reply := e.Conclude(now, keep);
  }
}
