/**
Where the promises of the table of names (caddy/table.go) end: what holds
unless the resolver gives an empty answer without an error, and runs
that show the remaining conditions are needed.
*/
module NameTableLimits {
  import opened Options
  import opened NameTable
  import opened NameTableRun
  import opened NameTableInvariant
  import opened NameTableSteps
  import opened NameTableArrive
  import opened NameTableTheorems

  // The resolver's answer about a name was no addresses and no error.
  ghost predicate EmptyAnswer(s: System, name: Name, k: nat) {
    && k < |s.log| && s.log[k].Answered? && s.log[k].answer == Answer([], NoError)
    && s.log[k].lookup < |s.lookups| && s.lookups[s.log[k].lookup].slot < |s.slots|
    && s.slots[s.lookups[s.log[k].lookup].slot].name == name
  }

  ghost predicate SaidNothing(s: System, name: Name) {
    exists k: nat :: EmptyAnswer(s, name, k)
  }

  lemma StillNothing(s: System, t: System, name: Name)
    requires Grows(s, t)
    ensures SaidNothing(s, name) ==> SaidNothing(t, name)
  {
    if k: nat :| EmptyAnswer(s, name, k) {
      assert t.log[k] == s.log[k] && EmptyAnswer(t, name, k);
    }
  }

  ghost predicate SlotTells(s: System, i: nat)
    requires i < |s.slots|
  {
    var e := s.slots[i].e;
    e.answered.Some? && !e.failing && e.addrs == [] ==>
      e.err == NoReplicas || (e.err == NoError && SaidNothing(s, s.slots[i].name))
  }

  ghost predicate RequestTells(s: System, q: Request) {
    q.stage.Waiting? && q.stage.slot < |s.slots| && q.stage.done in s.closed ==>
      var e := s.slots[q.stage.slot].e;
      !e.failing && e.addrs == [] && e.err == NoError ==>
        q.stage.dropped < e.dropped || SaidNothing(s, s.slots[q.stage.slot].name)
  }

  ghost predicate Tells(s: System) {
    && (forall i :: 0 <= i < |s.slots| ==> SlotTells(s, i))
    && (forall r :: 0 <= r < |s.requests| ==> RequestTells(s, s.requests[r]))
  }

  // What a step that answers nothing makes of an entry.
  ghost predicate Quiet(e: Entry, f: Entry) {
    || (f.answered.None? && e.dropped < f.dropped)
    || (f.answered == e.answered && f.addrs == e.addrs && f.failing == e.failing && f.err == e.err
        && f.dropped == e.dropped)
  }

  lemma SlotStillTells(s: System, t: System, i: nat)
    requires Grows(s, t) && i < |s.slots| && SlotTells(s, i) && Quiet(s.slots[i].e, t.slots[i].e)
    ensures SlotTells(t, i)
  {
    StillNothing(s, t, s.slots[i].name);
  }

  // A request that waits for the same as before, if it still does.
  ghost predicate SameWait(q: Request, p: Request) {
    p.stage.Waiting? ==>
      q.stage.Waiting? && p.stage.slot == q.stage.slot && p.stage.done == q.stage.done
      && p.stage.dropped == q.stage.dropped
  }

  lemma RequestStillTells(s: System, t: System, q: Request, p: Request)
    requires Grows(s, t) && RequestTells(s, q) && SameWait(q, p)
    requires q.stage.Waiting? ==>
      && q.stage.slot < |s.slots| && q.stage.dropped <= s.slots[q.stage.slot].e.dropped
      && (q.stage.done in t.closed ==> q.stage.done in s.closed)
      && Quiet(s.slots[q.stage.slot].e, t.slots[q.stage.slot].e)
    ensures RequestTells(t, p)
  {
    if p.stage.Waiting? {
      StillNothing(s, t, s.slots[q.stage.slot].name);
    }
  }

  // A step that answers nothing and ends no lookup.
  ghost predicate Silent(s: System, t: System) {
    && Grows(s, t) && t.closed == s.closed && |s.requests| <= |t.requests|
    && (forall j :: 0 <= j < |s.slots| ==> Quiet(s.slots[j].e, t.slots[j].e))
    && (forall j :: |s.slots| <= j < |t.slots| ==> t.slots[j].e == NewEntry)
    && (forall r :: 0 <= r < |s.requests| ==> SameWait(s.requests[r], t.requests[r]))
  }

  lemma SilentTells(s: System, t: System)
    requires Inv(s) && Tells(s) && Silent(s, t)
    requires forall r :: |s.requests| <= r < |t.requests| ==> RequestTells(t, t.requests[r])
    ensures Tells(t)
  {
    forall j | 0 <= j < |t.slots| ensures SlotTells(t, j) {
      if j < |s.slots| {
        assert SlotTells(s, j);
        SlotStillTells(s, t, j);
      }
    }
    forall r | 0 <= r < |t.requests| ensures RequestTells(t, t.requests[r]) {
      if r < |s.requests| {
        assert RequestTells(s, s.requests[r]) && RequestOk(s, r);
        RequestStillTells(s, t, s.requests[r], t.requests[r]);
      }
    }
  }

  // The entry as the end of its lookup leaves it.
  lemma CommitTells(s: System, l: nat)
    requires Inv(s) && Enabled(s, Finish(l)) && s.slots[s.lookups[l].slot].e.dropped == s.lookups[l].at.dropped
    ensures var t := Step(s, Finish(l)); var i := s.lookups[l].slot; var e := t.slots[i].e;
      && SlotTells(t, i)
      && (!e.failing && e.addrs == [] && e.err == NoError ==> SaidNothing(t, t.slots[i].name))
  {
    var t := Step(s, Finish(l));
    var Lookup(i, _, _, at) := s.lookups[l];
    CommitShape(s, l);
    assert LookupOk(s, l);
    StillNothing(s, t, s.slots[i].name);
    if at.answer == Answer([], NoError) {
      assert EmptyAnswer(s, s.slots[i].name, at.from.replied);
    }
  }

  lemma FinishTells(s: System, l: nat)
    requires Inv(s) && Tells(s) && Enabled(s, Finish(l))
    requires s.slots[s.lookups[l].slot].e.dropped == s.lookups[l].at.dropped
    ensures Tells(Step(s, Finish(l)))
  {
    var t := Step(s, Finish(l));
    var i := s.lookups[l].slot;
    CommitShape(s, l);
    CommitTells(s, l);
    forall j | 0 <= j < |t.slots| ensures SlotTells(t, j) {
      if j != i {
        assert SlotTells(s, j);
        SlotStillTells(s, t, j);
      }
    }
    forall r | 0 <= r < |t.requests| ensures RequestTells(t, t.requests[r]) {
      var q := s.requests[r];
      assert RequestTells(s, q) && RequestOk(s, r);
      if q.stage.Waiting? && q.stage.slot != i {
        assert SlotOk(s, i) && SlotOk(s, q.stage.slot);
        assert s.slots[i].e.inFlight != s.slots[q.stage.slot].e.inFlight;
        RequestStillTells(s, t, q, q);
      }
    }
  }

  lemma EnsureTells(s: System, name: Name)
    requires Inv(s) && Tells(s)
    ensures Tells(Ensure(s, name))
  {
    EnsureShape(s, name);
    SilentTells(s, Ensure(s, name));
  }

  lemma DropTells(s: System, names: seq<Name>)
    requires Inv(s) && Tells(s)
    ensures Tells(Step(s, Drop(names)))
  {
    DropIs(s, names);
    SilentTells(s, Step(s, Drop(names)));
  }

  lemma ArriveTells(s: System, i: nat, settings: Settings)
    requires Inv(s) && Tells(s) && Held(s, i)
    ensures Tells(Arrived(s, i, settings))
  {
    var t := Arrived(s, i, settings);
    ArriveShape(s, i, settings);
    ArriveSlot(s, i, settings, i);
    assert SlotOk(t, i);
    forall r | 0 <= r < |s.requests| ensures SameWait(s.requests[r], t.requests[r]) {
      assert t.requests[r] == t.requests[..|s.requests|][r];
    }
    SilentTells(s, t);
  }

  lemma StepTells(s: System, x: Label)
    requires Inv(s) && Tells(s) && Enabled(s, x)
    ensures Tells(Step(s, x))
  {
    match x
    case Arrive(name, settings) =>
      EnsureTells(s, name);
      EnsureKeeps(s, name);
      ArriveTells(Ensure(s, name), Ensure(s, name).names[name], settings);
    case Finish(l) =>
      if s.slots[s.lookups[l].slot].e.dropped == s.lookups[l].at.dropped {
        FinishTells(s, l);
      } else {
        RetryShape(s, l);
        SilentTells(s, Step(s, x));
      }
    case Drop(names) => DropTells(s, names);
    case _ =>
      OtherIsSilent(s, x);
      SilentTells(s, Step(s, x));
  }

  lemma OtherIsSilent(s: System, x: Label)
    requires Enabled(s, x) && !x.Arrive? && !x.Finish? && !x.Drop?
    ensures Silent(s, Step(s, x)) && |Step(s, x).requests| == |s.requests|
  {
  }

  lemma {:induction false} BehaviourTells(b: seq<System>, k: nat)
    requires Behaviour(b) && k < |b|
    ensures Tells(b[k])
  {
    if k > 0 {
      assert Follows(b, k);
      var x :| Enabled(b[k - 1], x) && b[k] == Step(b[k - 1], x);
      BehaviourTells(b, k - 1);
      BehaviourKeeps(b, k - 1);
      StepTells(b[k - 1], x);
    }
  }

  lemma RunTells(s: System)
    requires Run(s)
    ensures Tells(s)
  {
    var b: seq<System> :| Behaviour(b) && b[|b| - 1] == s;
    BehaviourTells(b, |b| - 1);
  }

  /**
   A request that waited is refused with no reason exactly when its entry holds no addresses, no
   failure and no error. It was then dropped while the request waited, or the resolver has once
   answered nothing, not even with an error; where it never did, that is an entry without an answer.
   */
  lemma NilErrorOnlyAfterADrop(s: System, r: nat)
    requires Run(s) && Enabled(s, Wake(r))
    ensures var slot := s.slots[s.requests[r].stage.slot]; var e := slot.e;
      var refused := AfterWake(s, r).stage.reply == Refused(NoError);
      && (refused <==> !e.failing && e.addrs == [] && e.err == NoError)
      && (refused ==> s.requests[r].stage.dropped < e.dropped || SaidNothing(s, slot.name))
      && (!SaidNothing(s, slot.name) ==> (refused <==> !e.failing && e.answered.None? && e.err == NoError))
  {
    RunKeeps(s);
    RunTells(s);
    var i := s.requests[r].stage.slot;
    assert RequestOk(s, r) && RequestTells(s, s.requests[r]);
    assert SlotOk(s, i) && SlotTells(s, i);
  }

  /**
   What a woken request is told: addresses of the resolver's, not older than keep if the lookup
   failed; that nobody carries the name; why the lookup failed, where there are no such addresses; or
   nothing, after a drop or where the resolver has once answered nothing.
   */
  lemma WokenAreTold(s: System, r: nat)
    requires Run(s) && Enabled(s, Wake(r))
    ensures var i := s.requests[r].stage.slot; var e := s.slots[i].e;
      match AfterWake(s, r).stage.reply
      case Served(addrs) =>
        FromTheResolver(s, i, addrs) && e.answered.Some?
        && (e.failing ==> s.now - e.answered.value < s.requests[r].settings.keep)
      case Refused(NoReplicas) => !e.failing
      case Refused(ResolveFailed(_)) =>
        && (e.failing || e.answered.None?)
        && (e.addrs == [] || (e.answered.Some? && s.now - e.answered.value >= s.requests[r].settings.keep))
      case Refused(NoError) => s.requests[r].stage.dropped < e.dropped || SaidNothing(s, s.slots[i].name)
      case Cancelled => false
  {
    RunKeeps(s);
    RunTells(s);
    var i := s.requests[r].stage.slot;
    assert RequestOk(s, r) && RequestTells(s, s.requests[r]);
    assert SlotOk(s, i) && SlotTells(s, i);
  }

  /** A request that is answered where it stands is told why, unless the resolver has once answered nothing. */
  lemma ArrivalsAreToldWhy(s: System, i: nat, settings: Settings)
    requires Run(s) && i < |s.slots|
    ensures Enter(Touch(s.slots[i].e, s.now, settings, s.channels), s.now, settings) == Now(Refused(NoError)) ==>
      SaidNothing(s, s.slots[i].name)
  {
    RunKeeps(s);
    RunTells(s);
    assert SlotOk(s, i) && SlotTells(s, i);
  }

  // One request for a name nobody knows yet, and the first steps of its lookup.
  ghost function Opening(now: Time, g: Settings, name: Name, at: Progress, asks: nat, log: seq<Label>): System {
    System(
      now,
      [Slot(name, Entry([], None, Some(now), false, NoError, Some(0), now, 0), Origin(0, 0))],
      map[name := 0], 1, map[],
      [Lookup(0, 0, asks, at)],
      [Request(name, g, now, Waiting(0, 0, 0, None, None, Origin(0, 0), None))],
      false, log)
  }

  // The same, answered addrs at once, and not woken yet.
  ghost function FirstAnswer(now: Time, g: Settings, name: Name, addrs: seq<string>): System {
    System(
      now,
      [Slot(name, Entry(addrs, Some(now), Some(now), false, NoError, None, now, 0), Origin(2, 3))],
      map[name := 0], 1, map[0 := now],
      [Lookup(0, 0, 1, Ended(0))],
      [Request(name, g, now, Waiting(0, 0, 0, None, None, Origin(0, 0), None))],
      false,
      [Arrive(name, g), Sample(0), Ask(0), Answered(0, Answer(addrs, NoError)), Finish(0)])
  }

  lemma OpeningArrives(now: Time, g: Settings, name: Name)
    ensures Step(System(now, [], map[], 0, map[], [], [], false, []), Arrive(name, g))
            == Opening(now, g, name, Starting, 0, [Arrive(name, g)])
  {
    var s := System(now, [], map[], 0, map[], [], [], false, []);
    var u := Ensure(s, name);
    assert u == s.(slots := [Slot(name, NewEntry, Origin(0, 0))], names := map[name := 0]);
    var t := Arrived(u, 0, g);
    assert t.slots == Opening(now, g, name, Starting, 0, [Arrive(name, g)]).slots;
  }

  lemma OpeningEnds(now: Time, g: Settings, name: Name, addrs: seq<string>, log: seq<Label>)
    ensures Step(Opening(now, g, name, Replied(0, Origin(2, 3), Answer(addrs, NoError)), 1, log), Finish(0))
            == FirstAnswer(now, g, name, addrs).(log := log + [Finish(0)])
  {
  }

  lemma FirstAnswerRuns(now: Time, g: Settings, name: Name, addrs: seq<string>)
    requires now >= 0
    ensures Run(FirstAnswer(now, g, name, addrs))
  {
    var s0 := System(now, [], map[], 0, map[], [], [], false, []);
    assert Behaviour([s0]) && [s0][|[s0]| - 1] == s0;
    OpeningArrives(now, g, name);
    NextRuns(s0, Arrive(name, g));
    MiddleRuns(now, g, name, addrs);
    var log := [Arrive(name, g), Sample(0), Ask(0), Answered(0, Answer(addrs, NoError))];
    OpeningEnds(now, g, name, addrs, log);
    NextRuns(Opening(now, g, name, Replied(0, Origin(2, 3), Answer(addrs, NoError)), 1, log), Finish(0));
  }

  lemma MiddleRuns(now: Time, g: Settings, name: Name, addrs: seq<string>)
    requires Run(Opening(now, g, name, Starting, 0, [Arrive(name, g)]))
    ensures var a := Answer(addrs, NoError);
      Run(Opening(now, g, name, Replied(0, Origin(2, 3), a), 1, [Arrive(name, g), Sample(0), Ask(0), Answered(0, a)]))
  {
    var a := Answer(addrs, NoError);
    var s1 := Opening(now, g, name, Starting, 0, [Arrive(name, g)]);
    var s2 := Opening(now, g, name, Sampled(0), 0, [Arrive(name, g), Sample(0)]);
    var s3 := Opening(now, g, name, Asking(0, 2), 1, [Arrive(name, g), Sample(0), Ask(0)]);
    NextRuns(s1, Sample(0));
    assert Step(s1, Sample(0)) == s2;
    NextRuns(s2, Ask(0));
    assert Step(s2, Ask(0)) == s3;
    NextRuns(s3, Answered(0, a));
    assert Step(s3, Answered(0, a)) == Opening(now, g, name, Replied(0, Origin(2, 3), a), 1, s3.log + [Answered(0, a)]);
  }

  /** The nil error does happen: a drop between the answer and the request that waited for it. */
  lemma NilErrorHappens(g: Settings)
    ensures exists s: System ::
              && Run(s) && 0 < |s.requests| && s.requests[0].stage.Done?
              && s.requests[0].stage.reply == Refused(NoError) && !SaidNothing(s, s.requests[0].name)
  {
    var s := FirstAnswer(0, g, "api", ["172.18.0.5"]);
    FirstAnswerRuns(0, g, "api", ["172.18.0.5"]);
    NextRuns(s, Drop(["api"]));
    var t := Step(s, Drop(["api"]));
    DroppedFirst(s, "api");
    NextRuns(t, Wake(0));
    AnsweredSomething(Step(t, Wake(0)), "api");
  }

  lemma AnsweredSomething(s: System, name: Name)
    requires forall k :: 0 <= k < |s.log| && s.log[k].Answered? ==> s.log[k].answer.addrs != []
    ensures !SaidNothing(s, name)
  {
  }

  /** So it does without a drop, where the resolver's answer is empty. */
  lemma EmptyAnswerIsNoReason(g: Settings)
    ensures exists s: System ::
              && Run(s) && 0 < |s.requests| && s.requests[0].stage.Done?
              && s.requests[0].stage.reply == Refused(NoError) && forall k :: 0 <= k < |s.log| ==> !s.log[k].Drop?
  {
    var s := FirstAnswer(0, g, "api", []);
    FirstAnswerRuns(0, g, "api", []);
    NextRuns(s, Wake(0));
    var t := Step(s, Wake(0));
    assert t.log == s.log + [Wake(0)];
  }

  lemma DroppedFirst(s: System, name: Name)
    requires |s.slots| == 1 && s.slots[0].name == name && name in s.names && s.names[name] == 0
    ensures Step(s, Drop([name])) ==
        s.(slots := [s.slots[0].(e := Dropped(s.slots[0].e, 1))], log := s.log + [Drop([name])])
  {
    assert Count(name, [name]) == 1;
  }

  /**
   The wait term of the bound is real: whatever the settings, as long as an
   answer outlives its refresh, one that is keep + wait - 1 old is served.
   */
  lemma WaitTermIsReal(g: Settings)
    requires 0 < g.refresh < g.keep <= MAX_DURATION && g.wait > 0
    ensures exists s: System ::
              Run(s) && 1 < |s.requests| && s.requests[1].settings == g && s.requests[1].stage.Done?
              && s.requests[1].stage.reply.Served? && s.requests[1].stage.late == 0
              && s.requests[1].stage.confirmed == Some(s.requests[1].stage.moment - (g.keep + g.wait - 1))
  {
    var s := FirstAnswer(0, g, "api", ["172.18.0.5"]);
    FirstAnswerRuns(0, g, "api", ["172.18.0.5"]);
    var t := PassRuns(s, g.keep - 1);
    var u := SecondRuns(g, t);
    var v := PassRuns(u, g.wait);
    var w := GiveUpRuns(v, 1);
  }

  lemma PassRuns(s: System, time: nat) returns (t: System)
    requires Run(s)
    ensures Run(t) && t == s.(now := s.now + time, log := s.log + [Pass(time)])
  {
    NextRuns(s, Pass(time));
    t := Step(s, Pass(time));
  }

  lemma GiveUpRuns(s: System, r: nat) returns (t: System)
    requires Run(s) && Enabled(s, GiveUp(r))
    requires s.slots[s.requests[r].stage.slot].e.dropped == s.requests[r].stage.dropped
    ensures Run(t) && |t.requests| == |s.requests|
    ensures var q := s.requests[r];
      t.requests[r] == q.(stage := Done(q.stage.slot, Served(q.stage.kept.value), q.stage.confirmed, q.stage.from,
                                        s.now, |s.log|, s.now - q.stage.giveUpAt.value))
  {
    NextRuns(s, GiveUp(r));
    t := Step(s, GiveUp(r));
  }

  lemma SecondRuns(g: Settings, t: System) returns (u: System)
    requires Run(t)
    requires 0 < g.refresh < g.keep <= MAX_DURATION && g.wait > 0
    requires t == FirstAnswer(0, g, "api", ["172.18.0.5"]).(now := g.keep - 1, log := t.log)
    ensures Run(u)
      && |u.requests| == 2 && u.now == t.now && |u.slots| == 1 && u.slots[0].e.dropped == 0
      && u.requests[1] == Request("api", g, t.now,
           Waiting(0, 1, 0, Some(["172.18.0.5"]), Some(0), Origin(2, 3), Some(t.now + g.wait)))
  {
    NextRuns(t, Arrive("api", g));
    SecondWaits(g, t);
    u := Step(t, Arrive("api", g));
  }

  lemma SecondWaits(g: Settings, t: System)
    requires 0 < g.refresh < g.keep <= MAX_DURATION && g.wait > 0
    requires t == FirstAnswer(0, g, "api", ["172.18.0.5"]).(now := g.keep - 1, log := t.log)
    ensures var u := Step(t, Arrive("api", g));
      && |u.requests| == 2 && u.now == t.now && |u.slots| == 1 && u.slots[0].e.dropped == 0
      && u.requests[1] == Request("api", g, t.now,
           Waiting(0, 1, 0, Some(["172.18.0.5"]), Some(0), Origin(2, 3), Some(t.now + g.wait)))
  {
    assert Ensure(t, "api") == t;
    assert t.slots[0].e.Due(t.now, g.refresh);
  }

  // Names nobody else uses: "b", "bb", "bbb", ...
  function Filler(k: nat): Name {
    seq(k, _ => 'b')
  }

  // s as it was, with k more names that have no 'a' in them.
  ghost predicate Filled(s: System, t: System, k: nat) {
    && t.now == s.now && t.closed == s.closed && s.log <= t.log
    && |t.names| == |s.names| + k && s.names.Keys <= t.names.Keys
    && (forall n :: n in s.names ==> t.names[n] == s.names[n])
    && (forall n :: n in t.names && n !in s.names ==> 'a' !in n && |n| <= k)
    && s.slots <= t.slots && s.requests <= t.requests
  }

  lemma FillOne(s: System, name: Name, g: Settings)
    requires |s.names| < CROWDED && name !in s.names
    ensures var t := Step(s, Arrive(name, g));
      && t.now == s.now && t.closed == s.closed && t.names == s.names[name := |s.slots|]
      && s.slots <= t.slots && s.requests <= t.requests
      && t.log == s.log + [Arrive(name, g)]
  {
    var u := Ensure(s, name);
    assert u.slots == s.slots + [Slot(name, NewEntry, Origin(0, 0))];
  }

  lemma FilledMore(s: System, t: System, u: System, k: nat, name: Name)
    requires Filled(s, t, k) && name !in t.names && 'a' !in name && |name| == k + 1 && name !in s.names
    requires u.now == t.now && u.closed == t.closed && t.log <= u.log && t.slots <= u.slots && t.requests <= u.requests
    requires u.names == t.names[name := |t.slots|]
    ensures Filled(s, u, k + 1)
  {
    assert |u.names| == |t.names| + 1;
  }

  lemma FilledOnce(s: System, t: System, k: nat, g: Settings)
    requires Filled(s, t, k) && |s.names| + k < CROWDED
    requires forall n :: n in s.names ==> 'a' in n
    ensures Filled(s, Step(t, Arrive(Filler(k + 1), g)), k + 1)
  {
    var name := Filler(k + 1);
    assert 'a' !in name && |name| == k + 1 && name !in t.names;
    FillOne(t, name, g);
    FilledMore(s, t, Step(t, Arrive(name, g)), k, name);
  }

  lemma OneMoreFills(s: System, u: System, k: nat, g: Settings) returns (t: System)
    requires Run(u) && Filled(s, u, k) && |s.names| + k < CROWDED
    requires forall n :: n in s.names ==> 'a' in n
    ensures Run(t) && Filled(s, t, k + 1)
  {
    FilledOnce(s, u, k, g);
    NextRuns(u, Arrive(Filler(k + 1), g));
    t := Step(u, Arrive(Filler(k + 1), g));
  }

  lemma {:induction false} FillRuns(s: System, k: nat, g: Settings) returns (t: System)
    requires Run(s) && |s.names| + k <= CROWDED
    requires forall n :: n in s.names ==> 'a' in n
    ensures Run(t) && Filled(s, t, k)
  {
    if k == 0 {
      t := s;
    } else {
      var u := FillRuns(s, k - 1, g);
      t := OneMoreFills(s, u, k - 1, g);
    }
  }

  // What a newcomer does to a crowded table that has not been asked for "a" in ten minutes.
  lemma CrowdedForgets(s: System, g: Settings) returns (t: System)
    requires Run(s)
    requires |s.names| == CROWDED && Filler(CROWDED) !in s.names && 0 < |s.slots| && 0 < |s.requests|
    requires "a" in s.names && s.names["a"] == 0 && s.slots[0].name == "a" && s.slots[0].e.Forgettable(s.now)
    ensures Run(t) && t.now == s.now && t.closed == s.closed && "a" !in t.names && |t.log| > |s.log|
    ensures 0 < |t.slots| && t.slots[0] == s.slots[0] && 0 < |t.requests| && t.requests[0] == s.requests[0]
  {
    var name := Filler(CROWDED);
    assert 'a' in "a" && 'a' !in name;
    var u := Ensure(s, name);
    assert u.slots == s.slots + [Slot(name, NewEntry, Origin(0, 0))];
    assert "a" !in u.names;
    NextRuns(s, Arrive(name, g));
    t := Step(s, Arrive(name, g));
  }

  // The request that slept: its entry was forgotten, then its name is dropped, then it wakes.
  lemma SleeperIsServed(v: System, a: seq<string>) returns (x: System)
    requires Run(v) && 0 < |v.slots| && 0 < |v.requests| && 0 in v.closed && "a" !in v.names && a != []
    requires v.slots[0].name == "a" && !v.slots[0].e.failing && v.slots[0].e.addrs == a &&
        v.slots[0].from == Origin(2, 3)
    requires v.requests[0].name == "a" && v.requests[0].stage.Waiting?
    requires v.requests[0].stage.slot == 0 && v.requests[0].stage.done == 0
    ensures Run(x) && x.log == v.log + [Drop(["a"]), Wake(0)] && 0 < |x.requests|
    ensures x.requests[0].name == "a" && x.requests[0].entered == v.requests[0].entered
      && x.requests[0].stage.Done? && x.requests[0].stage.reply == Served(a)
      && x.requests[0].stage.from == Origin(2, 3)
      && x.requests[0].stage.moment == v.now && x.requests[0].stage.step == |v.log| + 1
  {
    var w := Step(v, Drop(["a"]));
    NextRuns(v, Drop(["a"]));
    assert w.slots[0] == v.slots[0];
    NextRuns(w, Wake(0));
    x := Step(w, Wake(0));
  }

  // A table that forgot its first name, whose request has been asleep for more than ten minutes.
  lemma LongAsleep(g: Settings, a: seq<string>) returns (v: System)
    requires a != []
    ensures Run(v) && 0 < |v.slots| && 0 < |v.requests| && 0 in v.closed && "a" !in v.names
    ensures v.slots[0] == FirstAnswer(0, g, "a", a).slots[0] && v.requests[0] == FirstAnswer(0, g, "a", a).requests[0]
    ensures v.now == IDLE + 1 && |v.log| > 5
  {
    var s := FirstAnswer(0, g, "a", a);
    FirstAnswerRuns(0, g, "a", a);
    var t := PassRuns(s, IDLE + 1);
    assert t.names.Keys == {"a"};
    var u := FillRuns(t, CROWDED - 1, g);
    v := CrowdedForgets(u, g);
  }

  /**
   The ten minutes are needed: a request that slept for longer, in a table that
   became crowded, is served what was asked before its name was dropped.
   */
  lemma StaleAfterTenMinutes(g: Settings)
    ensures exists s: System, d: nat ::
              && Run(s) && 0 < |s.requests| && s.requests[0].stage.Done? && s.requests[0].stage.reply.Served?
              && d < s.requests[0].stage.step && d < |s.log| && s.log[d].Drop? && s.requests[0].name in s.log[d].names
              && s.requests[0].stage.from.began < d
              && s.requests[0].stage.moment - s.requests[0].entered == IDLE + 1
  {
    var a := ["172.18.0.5"];
    var v := LongAsleep(g, a);
    var x := SleeperIsServed(v, a);
    assert x.log[|v.log|] == Drop(["a"]);
  }
}
