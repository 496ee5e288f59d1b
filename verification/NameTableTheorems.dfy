/** What the table of names (caddy/table.go) promises, over every run. */
module NameTableTheorems {
  import opened Options
  import opened NameTable
  import opened NameTableRun
  import opened NameTableInvariant
  import opened NameTableArrive

  /**
   The promise of drop: whoever was decided after a drop of the name, and
   within ten minutes of arriving, was served what the resolver answered to a
   question about that name put to it after the drop.
   */
  lemma NoAddressesFromBeforeADrop(s: System, r: nat, d: nat)
    requires Run(s) && r < |s.requests|
    requires s.requests[r].stage.Done? && s.requests[r].stage.reply.Served?
    requires s.requests[r].stage.moment - s.requests[r].entered <= IDLE
    requires d < s.requests[r].stage.step && d < |s.log| && s.log[d].Drop? && s.requests[r].name in s.log[d].names
    ensures var from := s.requests[r].stage.from;
      && d < from.began < from.replied < s.requests[r].stage.step < |s.log|
      && s.log[from.began].Ask?
      && var l := s.log[from.began].lookup;
      && l < |s.lookups| && s.lookups[l].slot < |s.slots| && s.slots[s.lookups[l].slot].name == s.requests[r].name
      && s.log[from.replied].Answered? && s.log[from.replied].lookup == l
      && s.log[from.replied].answer.addrs == s.requests[r].stage.reply.addrs
  {
    RunKeeps(s);
    assert RequestOk(s, r);
  }

  /**
   How old a served answer can be, however late a woken or timed out request
   gets to run: late is by how much it missed its channel or its timer.
   */
  lemma AnswersAreYoung(s: System, r: nat)
    requires Run(s) && r < |s.requests|
    requires s.requests[r].stage.Done? && s.requests[r].stage.reply.Served?
    ensures var Request(_, g, _, Done(_, _, confirmed, _, moment, _, late)) := s.requests[r];
      && confirmed.Some?
      && var age := moment - confirmed.value;
      age <= late || age < Max(g.refresh, Max(g.keep, g.keep + g.wait + late))
  {
    RunKeeps(s);
    assert RequestOk(s, r);
  }

  // With timers on time, and the settings every caller provisions.
  lemma PunctualAnswersAreYoung(s: System, r: nat)
    requires Run(s) && r < |s.requests|
    requires s.requests[r].stage.Done? && s.requests[r].stage.reply.Served? && s.requests[r].stage.late <= 0
    requires var g := s.requests[r].settings; g.refresh > 0 && g.wait > 0 && g.keep > 0
    ensures var Request(_, g, _, Done(_, _, confirmed, _, moment, _, _)) := s.requests[r];
      confirmed.Some? && moment - confirmed.value < Max(g.refresh, g.keep + g.wait)
  {
    AnswersAreYoung(s, r);
  }

  /** Exactly one lookup owns an entry while its channel is open, and no channel is closed twice. */
  lemma OneLookupPerEntry(s: System, i: nat)
    requires Run(s) && i < |s.slots|
    ensures !s.panicked
    ensures s.slots[i].e.inFlight.Some? ==> s.slots[i].e.inFlight.value !in s.closed
    ensures s.slots[i].e.inFlight.Some? <==>
        exists l :: 0 <= l < |s.lookups| && s.lookups[l].slot == i && Active(s.lookups[l])
    ensures forall l, m ::
              0 <= l < m < |s.lookups| && s.lookups[l].slot == i && Active(s.lookups[l]) && Active(s.lookups[m])
              ==> s.lookups[m].slot != i
  {
    RunKeeps(s);
    assert SlotOk(s, i);
    if l :| 0 <= l < |s.lookups| && s.lookups[l].slot == i && Active(s.lookups[l]) {
      assert LookupOk(s, l);
    }
  }

  ghost function AsksOf(s: System, l: nat): nat {
    if l < |s.lookups| then s.lookups[l].asks else 0
  }

  function Asked(log: seq<Label>, l: nat): nat {
    if log == [] then 0
    else Asked(log[..|log| - 1], l) + if log[|log| - 1] == Ask(l) then 1 else 0
  }

  lemma ArriveAsks(s: System, name: Name, settings: Settings, l: nat)
    ensures AsksOf(Apply(s, Arrive(name, settings)), l) == AsksOf(s, l)
  {
  }

  lemma FinishAsks(s: System, m: nat, l: nat)
    requires Enabled(s, Finish(m))
    ensures AsksOf(AfterFinish(s, m), l) == AsksOf(s, l)
  {
  }

  lemma StepAsks(s: System, x: Label, l: nat)
    requires Enabled(s, x)
    ensures Step(s, x).log == s.log + [x]
    ensures AsksOf(Step(s, x), l) == AsksOf(s, l) + if x == Ask(l) then 1 else 0
  {
    match x {
      case Arrive(name, settings) => ArriveAsks(s, name, settings, l);
      case Finish(m) => FinishAsks(s, m, l);
      case _ =>
    }
  }

  lemma NextAsks(s: System, t: System, l: nat)
    requires Next(s, t)
    ensures |t.log| == |s.log| + 1 && t.log[..|s.log|] == s.log
    ensures AsksOf(t, l) == AsksOf(s, l) + if t.log[|s.log|] == Ask(l) then 1 else 0
  {
    var x :| Enabled(s, x) && t == Step(s, x);
    StepAsks(s, x, l);
  }

  lemma {:induction false} AsksAreCounted(b: seq<System>, k: nat, l: nat)
    requires Behaviour(b) && k < |b|
    ensures Asked(b[k].log, l) == AsksOf(b[k], l)
  {
    if k > 0 {
      AsksAreCounted(b, k - 1, l);
      assert Follows(b, k);
      NextAsks(b[k - 1], b[k], l);
    } else {
      assert b[0].log == [];
    }
  }

  /** A lookup asks at most once more than its entry was dropped since it started. */
  lemma LookupsEnd(s: System, l: nat)
    requires Run(s) && l < |s.lookups|
    ensures s.lookups[l].slot < |s.slots|
    ensures Asked(s.log, l) <= 1 + s.slots[s.lookups[l].slot].e.dropped - s.lookups[l].since
    ensures s.lookups[l].at.Ended? ==> Asked(s.log, l) <= 1 + s.lookups[l].at.dropped - s.lookups[l].since
  {
    RunKeeps(s);
    assert LookupOk(s, l);
    var b: seq<System> :| Behaviour(b) && b[|b| - 1] == s;
    AsksAreCounted(b, |b| - 1, l);
  }

  /**
   A request that finds no lookup out and may not start one is told why: the
   last lookup failed. It never wraps the nil error.
   */
  lemma RefusedWithAReason(s: System, i: nat, settings: Settings)
    requires Run(s) && i < |s.slots|
    ensures var e := Touch(s.slots[i].e, s.now, settings, s.channels);
      e.inFlight.None? && !e.Fresh(s.now, settings.refresh) ==> e.failing && e.err.ResolveFailed?
  {
    RunKeeps(s);
    assert SlotOk(s, i);
  }

  // The addresses of an entry are the resolver's, put to it after every drop that found the entry.
  ghost predicate FromTheResolver(s: System, i: nat, addrs: seq<string>)
    requires i < |s.slots|
  {
    && addrs != [] && Came(s, s.slots[i].name, addrs, s.slots[i].from)
    && (Held(s, i) ==> AfterDrops(s.log, |s.log|, s.slots[i].name, s.slots[i].from.began))
  }

  /** The last answer of an entry: what the resolver said about its name, or nothing to serve. */
  lemma ResultIsTheResolvers(s: System, i: nat)
    requires Run(s) && i < |s.slots|
    ensures match s.slots[i].e.Result()
      case Served(addrs) => FromTheResolver(s, i, addrs) && s.slots[i].e.answered.Some?
      case Refused(err) => forall keep :: s.slots[i].e.Kept(s.now, keep).None?
      case Cancelled => false
  {
    RunKeeps(s);
    assert SlotOk(s, i);
  }

  /**
   What may be served while questions go unanswered: the addresses, whenever there are any and they were
   confirmed less than keep ago; they are the resolver's.
   */
  lemma KeptIsYoung(s: System, i: nat, keep: int)
    requires Run(s) && i < |s.slots|
    ensures var e := s.slots[i].e;
      && (e.addrs != [] ==> e.answered.Some? && e.answered.value <= s.now && FromTheResolver(s, i, e.addrs))
      && e.Kept(s.now, keep) == if e.addrs != [] && s.now - e.answered.value < keep then Some(e.addrs) else None
  {
    RunKeeps(s);
    assert SlotOk(s, i);
  }

  lemma NextRuns(s: System, x: Label)
    requires Run(s) && Enabled(s, x)
    ensures Run(Step(s, x))
  {
    var b: seq<System> :| Behaviour(b) && b[|b| - 1] == s;
    var longer := b + [Step(s, x)];
    assert Next(s, Step(s, x));
    forall k: nat | 0 < k < |longer| ensures Follows(longer, k) {
      if k < |b| {
        assert Follows(b, k);
      }
    }
    assert Behaviour(longer);
    assert longer[|longer| - 1] == Step(s, x);
  }
}
