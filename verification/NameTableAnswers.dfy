/**
What a request is told by the table of names (caddy/table.go), said of the
fields of its entry, and over whole runs of what the resolver answered before.
*/
module NameTableAnswers {
  import opened Options
  import opened NameTable
  import opened NameTableRun
  import opened NameTableInvariant
  import opened NameTableSteps
  import opened NameTableArrive

  // Addresses that may be served while questions go unanswered.
  ghost predicate Young(e: Entry, now: Time, keep: int) {
    e.addrs != [] && e.answered.Some? && now - e.answered.value < keep
  }

  // An answer that needs no question.
  ghost predicate UpToDate(e: Entry, now: Time, refresh: int) {
    !e.failing && e.answered.Some? && now - e.answered.value < refresh
  }

  // No lookup is out, and the last one began long ago, or never.
  ghost predicate AskAgain(e: Entry, now: Time, refresh: int) {
    e.inFlight.None? && (e.asked.None? || now - e.asked.value >= refresh)
  }

  // What a request does that finds an entry so, or starts a lookup for it.
  ghost predicate Told(e: Entry, now: Time, g: Settings, starts: bool, stage: Stage) {
    var young := Young(e, now, g.keep);
    var out := starts || e.inFlight.Some?;
    var since := if starts then Some(now) else e.asked;
    var spent := since.Some? && now >= since.value + g.wait;
    if UpToDate(e, now, g.refresh) then
      stage.Done? && stage.reply == if e.addrs == [] then Refused(e.err) else Served(e.addrs)
    else if young && (!out || e.failing || spent) then stage.Done? && stage.reply == Served(e.addrs)
    else if !young && !out then stage.Done? && stage.reply == Refused(e.err)
    else
      && stage.Waiting? && stage.kept == (if young then Some(e.addrs) else None)
      && (young ==> since.Some?) && stage.giveUpAt == (if young then Some(since.value + g.wait) else None)
  }

  ghost predicate Starts(e: Entry, now: Time, refresh: int) {
    !UpToDate(e, now, refresh) && AskAgain(e, now, refresh)
  }

  // The entry after the request.
  ghost predicate Stamped(e: Entry, f: Entry, now: Time, channel: nat, starts: bool) {
    f == e.(used := now, asked := if starts then Some(now) else e.asked,
            inFlight := if starts then Some(channel) else e.inFlight)
  }

  lemma TouchStamps(s: System, i: nat, g: Settings)
    requires Inv(s) && i < |s.slots|
    ensures var e := s.slots[i].e;
      Stamped(e, Touch(e, s.now, g, s.channels), s.now, s.channels, Starts(e, s.now, g.refresh))
  {
  }

  lemma EnterTells(s: System, i: nat, g: Settings)
    requires Inv(s) && i < |s.slots|
    ensures var e := s.slots[i].e; var t := ArriveAt(s, i, g);
      Told(e, s.now, g, Starts(e, s.now, g.refresh), t.requests[|s.requests|].stage)
  {
    assert SlotOk(s, i);
  }

  // The entry that a request for a name finds.
  ghost function Found(s: System, name: Name): Entry {
    if name in s.names && s.names[name] < |s.slots| then s.slots[s.names[name]].e else NewEntry
  }

  /**
   What a request is told where it stands, or what it waits for: it is refused only if no lookup is
   out and there are no addresses, or they were confirmed `keep` ago; with younger ones it waits for
   a lookup until `wait` after that was asked for, and no longer, nor at all while lookups fail. A lookup
   is started exactly when none is out and the last began `refresh` ago, or never.
   */
  lemma ArrivalIsTold(s: System, name: Name, g: Settings)
    requires Run(s)
    ensures var t := Step(s, Arrive(name, g)); var e := Found(s, name); var starts := Starts(e, s.now, g.refresh);
      && name in t.names && t.names[name] < |t.slots|
      && |t.requests| == |s.requests| + 1 && t.requests[|s.requests|].name == name
      && Told(e, s.now, g, starts, t.requests[|s.requests|].stage)
      && Stamped(e, t.slots[t.names[name]].e, s.now, s.channels, starts)
      && t.lookups == s.lookups + if starts then [Lookup(t.names[name], e.dropped, 0, Starting)] else []
  {
    RunKeeps(s);
    EnsureKeeps(s, name);
    EnsureShape(s, name);
    EnsureFinds(s, name);
    var u := Ensure(s, name);
    var i := u.names[name];
    TouchStamps(u, i, g);
    EnterTells(u, i, g);
  }

  lemma EnsureFinds(s: System, name: Name)
    requires Inv(s)
    ensures var u := Ensure(s, name);
      && u.now == s.now && u.channels == s.channels && u.lookups == s.lookups && u.requests == s.requests
      && name in u.names && u.names[name] < |u.slots| && u.slots[u.names[name]].e == Found(s, name)
      && u.slots[u.names[name]].name == name
  {
    EnsureKeeps(s, name);
  }

  /**
   What a woken request is told: the addresses of its entry, unless it is failing and they were
   confirmed `keep` ago or longer.
   */
  lemma WokenIsTold(s: System, r: nat)
    requires Run(s) && Enabled(s, Wake(r))
    ensures var e := s.slots[s.requests[r].stage.slot].e; var stage := Step(s, Wake(r)).requests[r].stage;
      && stage.Done? && (e.addrs != [] ==> e.answered.Some?)
      && stage.reply == if e.addrs != [] && (!e.failing || s.now - e.answered.value < s.requests[r].settings.keep)
                        then Served(e.addrs) else Refused(e.err)
  {
    RunKeeps(s);
    assert RequestOk(s, r) && SlotOk(s, s.requests[r].stage.slot);
  }

  /** A request with a fallback may give up from its time on: it is served that, unless it was dropped meanwhile. */
  lemma GivesUpInTime(s: System, r: nat)
    requires Run(s) && r < |s.requests| && s.requests[r].stage.Waiting?
    ensures var q := s.requests[r];
      && (Enabled(s, GiveUp(r)) <==> q.stage.giveUpAt.Some? && s.now >= q.stage.giveUpAt.value)
      && (Enabled(s, GiveUp(r)) ==>
            && q.stage.kept.Some?
            && var stage := Step(s, GiveUp(r)).requests[r].stage;
            if s.slots[q.stage.slot].e.dropped == q.stage.dropped
            then stage.Done? && stage.reply == Served(q.stage.kept.value)
            else stage == q.stage.(giveUpAt := None))
  {
    RunKeeps(s);
    assert RequestOk(s, r);
  }

  // What a request waits for, and until when, is settled when it arrives.
  lemma WaitsOn(s: System, x: Label, r: nat)
    requires Enabled(s, x) && r < |s.requests| && s.requests[r].stage.Waiting?
    ensures var t := Step(s, x);
      && r < |t.requests|
      && (t.requests[r] == s.requests[r] || t.requests[r].stage.Done?
          || (x == GiveUp(r) && t.requests[r].stage == s.requests[r].stage.(giveUpAt := None)))
  {
  }

  // The end of a lookup, in the fields of its entry.
  lemma FinishMeans(s: System, l: nat)
    requires Run(s) && Enabled(s, Finish(l))
    ensures var t := Step(s, Finish(l)); var i := s.lookups[l].slot; var Replied(d, _, a) := s.lookups[l].at;
      var e, f := s.slots[i].e, t.slots[i].e;
      && f.used == e.used && f.dropped == e.dropped && e.inFlight.Some?
      && if e.dropped != d then f == e.(asked := Some(s.now)) && t.lookups[l].at == Starting && t.closed == s.closed
         else
           && f.inFlight.None? && f.asked == e.asked && t.closed == s.closed[e.inFlight.value := s.now]
           && t.lookups[l].at.Ended? && f.err == a.err && f.failing == a.err.ResolveFailed?
           && f.addrs == (if a.err.ResolveFailed? then e.addrs else a.addrs)
           && f.answered == if a.err.ResolveFailed? then e.answered else Some(s.now)
  {
    RunKeeps(s);
    assert LookupOk(s, l) && SlotOk(s, s.lookups[l].slot);
  }

  // A drop, in the fields of an entry.
  lemma DropMeans(s: System, names: seq<Name>, i: nat)
    requires i < |s.slots|
    ensures var e, f := s.slots[i].e, Step(s, Drop(names)).slots[i].e;
      && f == e.(addrs := f.addrs, answered := f.answered, asked := f.asked, dropped := f.dropped)
      && if Held(s, i) && s.slots[i].name in names
         then f.addrs == [] && f.answered.None? && f.asked.None? && f.dropped > e.dropped
         else f == e
  {
    CountPositive(s.slots[i].name, names);
  }

  // Of a crowded table, a new name leaves those asked for in the last ten minutes, or that a lookup is out for.
  lemma NewNameForgets(s: System, name: Name, g: Settings, other: Name)
    requires Run(s) && name !in s.names && other in s.names
    ensures var t := Step(s, Arrive(name, g)); var e := Found(s, other);
      && (other in t.names <==> |s.names| < 256 || e.inFlight.Some? || s.now - e.used <= 600_000_000_000)
      && (other in t.names ==> Found(t, other) == e)
  {
    RunKeeps(s);
    EnsureKeeps(s, name);
    EnsureShape(s, name);
    assert NamesOk(s);
  }

  // Nothing was dropped from slot i by a step, and no answer stored.
  ghost predicate LeavesAlone(s: System, t: System, i: nat) {
    exists x :: Enabled(s, x) && t == Step(s, x) && !Changes(s, x, i)
  }

  ghost predicate Changes(s: System, x: Label, i: nat)
    requires Enabled(s, x)
  {
    i < |s.slots| &&
    match x
    case Drop(names) => s.slots[i].name in names
    case Finish(l) => s.lookups[l].slot == i && !s.lookups[l].at.answer.err.ResolveFailed?
    case _ => false
  }

  lemma StepLeavesAnswer(s: System, x: Label, i: nat)
    requires Inv(s) && Enabled(s, x) && i < |s.slots| && !Changes(s, x, i)
    ensures var t := Step(s, x);
      i < |t.slots| && t.slots[i].e.addrs == s.slots[i].e.addrs && t.slots[i].e.answered == s.slots[i].e.answered
  {
    match x {
      case Arrive(name, g) =>
        EnsureKeeps(s, name);
        EnsureShape(s, name);
      case Drop(names) => CountPositive(s.slots[i].name, names);
      case _ =>
    }
  }

  // The addresses of a slot and the time they are from stay what they are while nothing changes them.
  lemma {:induction false} AnswerStands(b: seq<System>, j: nat, k: nat, i: nat)
    requires Behaviour(b) && j <= k < |b| && i < |b[j].slots|
    requires forall n: nat, m :: j <= n && m == n + 1 && m <= k ==> LeavesAlone(b[n], b[m], i)
    ensures i < |b[k].slots|
    ensures b[k].slots[i].e.addrs == b[j].slots[i].e.addrs && b[k].slots[i].e.answered == b[j].slots[i].e.answered
  {
    if j < k {
      AnswerStands(b, j, k - 1, i);
      BehaviourKeeps(b, k - 1);
      assert LeavesAlone(b[k - 1], b[k], i);
      var x :| Enabled(b[k - 1], x) && b[k] == Step(b[k - 1], x) && !Changes(b[k - 1], x, i);
      StepLeavesAnswer(b[k - 1], x, i);
    }
  }

  // At step j of a run, a lookup has stored addresses in slot i.
  ghost predicate Stores(b: seq<System>, j: nat, i: nat, addrs: seq<string>) {
    && 0 < j < |b|
    && exists l: nat ::
         && Enabled(b[j - 1], Finish(l)) && b[j] == Step(b[j - 1], Finish(l)) && b[j - 1].lookups[l].slot == i
         && b[j - 1].slots[i].e.dropped == b[j - 1].lookups[l].at.dropped
         && b[j - 1].lookups[l].at.answer == Answer(addrs, NoError)
  }

  lemma StoredAddresses(b: seq<System>, j: nat, i: nat, addrs: seq<string>)
    requires Behaviour(b) && Stores(b, j, i, addrs)
    ensures i < |b[j].slots| && b[j].slots[i].e.addrs == addrs && b[j].slots[i].e.answered == Some(b[j].now)
  {
    BehaviourKeeps(b, j - 1);
  }

  lemma PrefixRuns(b: seq<System>, k: nat)
    requires Behaviour(b) && k < |b|
    ensures Run(b[k])
  {
    var c := b[..k + 1];
    forall n: nat | 0 < n < |c| ensures Follows(c, n) {
      assert Follows(b, n);
    }
    assert Behaviour(c) && c[|c| - 1] == b[k];
  }

  // What a request that arrives is told, or falls back on.
  ghost predicate ServedOrBacked(s: System, i: nat, g: Settings, addrs: seq<string>)
    requires i < |s.slots|
  {
    var t := Step(s, Arrive(s.slots[i].name, g));
    && |t.requests| == |s.requests| + 1
    && var stage := t.requests[|s.requests|].stage;
    || (stage.Done? && stage.reply == Served(addrs))
    || (stage.Waiting? && stage.kept == Some(addrs) && stage.giveUpAt.Some?
        && stage.giveUpAt.value <= s.now + g.wait)
  }

  lemma YoungIsServed(s: System, i: nat, g: Settings)
    requires Run(s) && Held(s, i) && Young(s.slots[i].e, s.now, g.keep)
    ensures ServedOrBacked(s, i, g, s.slots[i].e.addrs)
  {
    ArrivalIsTold(s, s.slots[i].name, g);
    RunKeeps(s);
    assert SlotOk(s, i);
  }

  /**
   The promise of the table: an answer the resolver once gave, and that was not dropped or replaced
   since, is what every request for the name is told, or falls back on, for as long as `keep` allows, whatever
   lookups fail or never end meanwhile.
   */
  lemma FallsBack(b: seq<System>, j: nat, k: nat, i: nat, addrs: seq<string>)
    requires Behaviour(b) && Stores(b, j, i, addrs) && addrs != [] && j <= k < |b|
    requires forall n: nat, m :: j <= n && m == n + 1 && m <= k ==> LeavesAlone(b[n], b[m], i)
    ensures i < |b[k].slots|
    ensures forall g: Settings | b[k].now - b[j].now < g.keep && Held(b[k], i) :: ServedOrBacked(b[k], i, g, addrs)
    ensures forall r: nat | Enabled(b[k], Wake(r)) && b[k].requests[r].stage.slot == i
      && b[k].now - b[j].now < b[k].requests[r].settings.keep ::
      Step(b[k], Wake(r)).requests[r].stage.reply == Served(addrs)
  {
    StoredAddresses(b, j, i, addrs);
    AnswerStands(b, j, k, i);
    PrefixRuns(b, k);
    forall g: Settings | b[k].now - b[j].now < g.keep && Held(b[k], i) ensures ServedOrBacked(b[k], i, g, addrs) {
      YoungIsServed(b[k], i, g);
    }
    forall r: nat | Enabled(b[k], Wake(r)) && b[k].requests[r].stage.slot == i
      && b[k].now - b[j].now < b[k].requests[r].settings.keep
      ensures Step(b[k], Wake(r)).requests[r].stage.reply == Served(addrs)
    {
      WokenIsTold(b[k], r);
    }
  }
}
