/**
Every interleaving of the table of names (caddy/table.go): requests, the
lookups they start, drops, evictions and time, one critical section at a step.
*/
module NameTableRun {
  import opened Options
  import opened NameTable

  // Where an answer came from: the steps of the run in which its question was
  // put to the resolver and in which the resolver gave it.
  datatype Origin = Origin(began: nat, replied: nat)

  // An entry, whether or not the table still holds it.
  datatype Slot = Slot(name: Name, e: Entry, from: Origin)

  datatype Progress =
    | Starting
    | Sampled(dropped: nat)
    | Asking(dropped: nat, began: nat)
    | Replied(dropped: nat, from: Origin, answer: Answer)
    | Ended(dropped: nat)

  // A lookup goroutine: the entry it was given, how often that had been
  // dropped when it started, and how often it has asked.
  datatype Lookup = Lookup(slot: nat, since: nat, asks: nat, at: Progress)

  datatype Stage =
    | Waiting(slot: nat, done: nat, dropped: nat, kept: Option<seq<string>>, confirmed: Option<Time>,
              from: Origin, giveUpAt: Option<Time>)
    | Done(slot: nat, reply: Reply, confirmed: Option<Time>, from: Origin, moment: Time, step: nat, late: int)

  datatype Request = Request(name: Name, settings: Settings, entered: Time, stage: Stage)

  datatype Label =
    | Arrive(name: Name, settings: Settings)
    | GiveUp(request: nat)
    | Wake(request: nat)
    | Cancel(request: nat)
    | Sample(lookup: nat)
    | Ask(lookup: nat)
    | Answered(lookup: nat, answer: Answer)
    | Finish(lookup: nat)
    | Drop(names: seq<Name>)
    | Pass(time: nat)

  datatype System = System(
    now: Time,
    slots: seq<Slot>,
    names: map<Name, nat>,    // the table: which slot a name has
    channels: nat,            // how many were made
    closed: map<nat, Time>,   // and when each was closed
    lookups: seq<Lookup>,
    requests: seq<Request>,
    panicked: bool,           // a nil or closed channel was closed
    log: seq<Label>)

  ghost predicate Init(s: System) {
    s.now >= 0 && s == System(s.now, [], map[], 0, map[], [], [], false, [])
  }

  ghost predicate Enabled(s: System, l: Label) {
    match l
    case Arrive(_, _) => true
    case GiveUp(r) =>
      r < |s.requests| && s.requests[r].stage.Waiting? && s.requests[r].stage.giveUpAt.Some?
      && s.requests[r].stage.giveUpAt.value <= s.now
      && s.requests[r].stage.slot < |s.slots| && s.requests[r].stage.kept.Some?
    case Wake(r) =>
      r < |s.requests| && s.requests[r].stage.Waiting? && s.requests[r].stage.done in s.closed
      && s.requests[r].stage.slot < |s.slots|
    case Cancel(r) => r < |s.requests| && s.requests[r].stage.Waiting?
    case Sample(l) => l < |s.lookups| && s.lookups[l].at.Starting? && s.lookups[l].slot < |s.slots|
    case Ask(l) => l < |s.lookups| && s.lookups[l].at.Sampled?
    case Answered(l, _) => l < |s.lookups| && s.lookups[l].at.Asking?
    case Finish(l) => l < |s.lookups| && s.lookups[l].at.Replied? && s.lookups[l].slot < |s.slots|
    case Drop(_) => true
    case Pass(_) => true
  }

  ghost predicate Held(s: System, slot: nat) {
    slot < |s.slots| && s.slots[slot].name in s.names && s.names[s.slots[slot].name] == slot
  }

  // t.forget(): with a crowded table, the names nobody asked for in a while go.
  ghost function Forget(s: System): System {
    s.(names := map n | n in s.names
                        && (s.names[n] < |s.slots| ==> Stays(s.slots[s.names[n]].e, s.now, |s.names|)) :: s.names[n])
  }

  // The entry of a name, made if there is none.
  ghost function Ensure(s: System, name: Name): System {
    if name in s.names then s
    else
      var room := Forget(s);
      room.(slots := room.slots + [Slot(name, NewEntry, Origin(0, 0))], names := room.names[name := |room.slots|])
  }

  ghost function ArriveAt(s: System, i: nat, settings: Settings): System
    requires i < |s.slots|
  {
    var Slot(name, e, from) := s.slots[i];
    var touched := Touch(e, s.now, settings, s.channels);
    var started := touched.inFlight != e.inFlight;
    var stage := match Enter(touched, s.now, settings)
      case Now(reply) => Done(i, reply, e.answered, from, s.now, |s.log|, 0)
      case Later(done, dropped, kept, patience) =>
        Waiting(i, done, dropped, kept, e.answered, from, if kept.Some? then Some(s.now + patience) else None);
    s.(slots := s.slots[i := Slot(name, touched, from)],
       channels := s.channels + if started then 1 else 0,
       lookups := s.lookups + if started then [Lookup(i, e.dropped, 0, Starting)] else [],
       requests := s.requests + [Request(name, settings, s.now, stage)])
  }

  ghost function AfterGiveUp(s: System, r: nat): Request
    requires Enabled(s, GiveUp(r))
  {
    var q := s.requests[r];
    if s.slots[q.stage.slot].e.dropped == q.stage.dropped
    then q.(stage := Done(q.stage.slot, Served(q.stage.kept.value), q.stage.confirmed, q.stage.from, s.now,
                          |s.log|, s.now - q.stage.giveUpAt.value))
    else q.(stage := q.stage.(giveUpAt := None))
  }

  ghost function AfterWake(s: System, r: nat): Request
    requires Enabled(s, Wake(r))
  {
    var q := s.requests[r];
    var slot := s.slots[q.stage.slot];
    q.(stage := Done(q.stage.slot, Conclude(slot.e, s.now, q.settings.keep), slot.e.answered, slot.from, s.now,
                     |s.log|, s.now - s.closed[q.stage.done]))
  }

  ghost function AfterFinish(s: System, l: nat): System
    requires Enabled(s, Finish(l))
  {
    var Lookup(i, _, _, at) := s.lookups[l];
    var e := s.slots[i].e;
    if e.dropped != at.dropped then
      s.(slots := s.slots[i := s.slots[i].(e := e.(asked := Some(s.now)))],
         lookups := s.lookups[l := s.lookups[l].(at := Starting)])
    else
      s.(slots := s.slots[i := Slot(s.slots[i].name, Commit(e, s.now, at.answer),
                                    if at.answer.Settles() then at.from else s.slots[i].from)],
         lookups := s.lookups[l := s.lookups[l].(at := Ended(at.dropped))],
         closed := if e.inFlight.Some? then s.closed[e.inFlight.value := s.now] else s.closed,
         panicked := s.panicked || e.inFlight.None? || e.inFlight.value in s.closed)
  }

  ghost function DropSlot(s: System, i: nat, names: seq<Name>): Slot
    requires i < |s.slots|
  {
    if Held(s, i) then s.slots[i].(e := Dropped(s.slots[i].e, Count(s.slots[i].name, names))) else s.slots[i]
  }

  ghost function Apply(s: System, l: Label): System
    requires Enabled(s, l)
  {
    match l
    case Arrive(name, settings) =>
      var t := Ensure(s, name);
      if t.names[name] < |t.slots| then ArriveAt(t, t.names[name], settings) else t
    case GiveUp(r) => s.(requests := s.requests[r := AfterGiveUp(s, r)])
    case Wake(r) => s.(requests := s.requests[r := AfterWake(s, r)])
    case Cancel(r) =>
      var q := s.requests[r];
      s.(requests := s.requests[r := q.(stage := Done(q.stage.slot, Cancelled, None, Origin(0, 0), s.now, |s.log|, 0))])
    case Sample(l) =>
      s.(lookups := s.lookups[l := s.lookups[l].(at := Sampled(s.slots[s.lookups[l].slot].e.dropped))])
    case Ask(l) =>
      s.(lookups := s.lookups[l := s.lookups[l].(asks := s.lookups[l].asks + 1,
                                                 at := Asking(s.lookups[l].at.dropped, |s.log|))])
    case Answered(l, a) =>
      var at := s.lookups[l].at;
      s.(lookups := s.lookups[l := s.lookups[l].(at := Replied(at.dropped, Origin(at.began, |s.log|), a))])
    case Finish(l) => AfterFinish(s, l)
    case Drop(names) => s.(slots := seq(|s.slots|, i requires 0 <= i < |s.slots| => DropSlot(s, i, names)))
    case Pass(time) => s.(now := s.now + time)
  }

  ghost function Step(s: System, l: Label): System
    requires Enabled(s, l)
  {
    Apply(s, l).(log := s.log + [l])
  }

  ghost predicate Next(s: System, t: System) {
    exists l :: Enabled(s, l) && t == Step(s, l)
  }

  ghost predicate Follows(b: seq<System>, k: nat)
    requires 0 < k < |b|
  {
    Next(b[k - 1], b[k])
  }

  ghost predicate Behaviour(b: seq<System>) {
    b != [] && Init(b[0]) && forall k: nat :: 0 < k < |b| ==> Follows(b, k)
  }

  // The systems some run leads to.
  ghost predicate Run(s: System) {
    exists b: seq<System> :: Behaviour(b) && b[|b| - 1] == s
  }
}
