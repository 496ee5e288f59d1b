/**
Exactly when the promise of drop (caddy/table.go) is kept: when the table holds
the entry that serves a request at the time its name is dropped.
*/
module NameTableExactly {
  import opened NameTable
  import opened NameTableRun
  import opened NameTableInvariant
  import opened NameTableSteps
  import opened NameTableArrive

  // The table has made entry i, and no longer holds it.
  ghost predicate Detached(s: System, i: nat) {
    i < |s.slots| && !Held(s, i)
  }

  ghost predicate DropsAt(log: seq<Label>, d: nat, name: Name) {
    d < |log| && log[d].Drop? && name in log[d].names
  }

  lemma NextLabel(s: System, t: System) returns (x: Label)
    requires Next(s, t)
    ensures Enabled(s, x) && t == Step(s, x) && t.log == s.log + [x]
  {
    x :| Enabled(s, x) && t == Step(s, x);
  }

  // The k-th system of a run has made k steps, and later ones remember them.
  lemma {:induction false} Logs(b: seq<System>, k: nat, n: nat)
    requires Behaviour(b) && k <= n < |b|
    ensures |b[k].log| == k && |b[n].log| == n && b[k].log <= b[n].log
    decreases n
  {
    if n > 0 {
      assert Follows(b, n);
      var x := NextLabel(b[n - 1], b[n]);
      Logs(b, if k < n then k else n - 1, n - 1);
    }
  }

  lemma NextInv(b: seq<System>, n: nat)
    requires Behaviour(b) && 0 < n < |b|
    ensures Inv(b[n - 1]) && Inv(b[n]) && Next(b[n - 1], b[n])
  {
    BehaviourKeeps(b, n - 1);
    BehaviourKeeps(b, n);
    assert Follows(b, n);
  }

  // An entry that is not held before or after a step of the table is left alone by it.
  lemma ArriveLeaves(s: System, name: Name, settings: Settings, i: nat)
    requires Inv(s) && i < |s.slots|
    ensures var t := Step(s, Arrive(name, settings));
      i < |t.slots| && (!Held(s, i) ==> !Held(t, i)) && (!Held(t, i) ==> t.slots[i] == s.slots[i])
  {
    EnsureKeeps(s, name);
    EnsureShape(s, name);
    var u := Ensure(s, name);
    ArriveShape(u, u.names[name], settings);
  }

  lemma FinishLeaves(s: System, l: nat, i: nat)
    requires Inv(s) && Enabled(s, Finish(l)) && i < |s.slots| && !Held(s, i)
    ensures var t := Step(s, Finish(l)); i < |t.slots| && !Held(t, i) && t.slots[i] == s.slots[i]
  {
    assert LookupOk(s, l) && SlotOk(s, s.lookups[l].slot);
  }

  lemma StepLeaves(s: System, x: Label, i: nat)
    requires Inv(s) && Enabled(s, x) && i < |s.slots|
    ensures var t := Step(s, x);
      i < |t.slots| && (!Held(s, i) ==> !Held(t, i)) && (!Held(t, i) ==> t.slots[i] == s.slots[i])
      && (x.Drop? ==> Held(t, i) == Held(s, i))
  {
    match x {
      case Arrive(name, settings) => ArriveLeaves(s, name, settings, i);
      case Finish(l) => if !Held(s, i) { FinishLeaves(s, l, i); }
      case _ =>
    }
  }

  // An entry that a step makes is held.
  lemma NewIsHeld(s: System, x: Label, i: nat)
    requires Inv(s) && Enabled(s, x) && |s.slots| <= i < |Step(s, x).slots|
    ensures Held(Step(s, x), i)
  {
    if x.Arrive? {
      EnsureKeeps(s, x.name);
      EnsureShape(s, x.name);
    }
  }

  lemma StepForth(b: seq<System>, i: nat, n: nat)
    requires Behaviour(b) && 0 < n < |b| && i < |b[n - 1].slots|
    ensures i < |b[n].slots| && (!Held(b[n - 1], i) ==> !Held(b[n], i) && b[n].slots[i] == b[n - 1].slots[i])
  {
    NextInv(b, n);
    var x := NextLabel(b[n - 1], b[n]);
    StepLeaves(b[n - 1], x, i);
  }

  lemma {:induction false} StaysDetached(b: seq<System>, i: nat, d: nat, n: nat)
    requires Behaviour(b) && d <= n < |b| && i < |b[d].slots|
    ensures i < |b[n].slots| && (Detached(b[d], i) ==> Detached(b[n], i) && b[n].slots[i] == b[d].slots[i])
    decreases n
  {
    if d < n {
      StaysDetached(b, i, d, n - 1);
      StepForth(b, i, n);
    }
  }

  // What a held entry has was asked for after every drop.
  lemma HeldIsAfter(b: seq<System>, i: nat, d: nat, n: nat)
    requires Behaviour(b) && d < n < |b| && i < |b[n].slots| && b[n].slots[i].e.addrs != [] && Held(b[n], i)
    requires DropsAt(b[n].log, d, b[n].slots[i].name)
    ensures d < b[n].slots[i].from.began && !Detached(b[d], i)
  {
    BehaviourKeeps(b, n);
    Logs(b, n, n);
    assert SlotOk(b[n], i);
    if i < |b[d].slots| {
      StaysDetached(b, i, d, n);
    }
  }

  lemma DetachedIsBefore(b: seq<System>, i: nat, d: nat, n: nat)
    requires Behaviour(b) && d < n < |b| && Detached(b[d], i) && i < |b[n].slots| && b[n].slots[i].e.addrs != []
    ensures b[n].slots[i].from.began < d
  {
    StaysDetached(b, i, d, n);
    BehaviourKeeps(b, d);
    Logs(b, d, d);
    assert SlotOk(b[d], i);
  }

  // The step that is not the drop leaves an entry alone that is not held after it.
  lemma StepBack(b: seq<System>, i: nat, n: nat)
    requires Behaviour(b) && 0 < n < |b| && Detached(b[n], i)
    ensures i < |b[n - 1].slots| && b[n - 1].slots[i] == b[n].slots[i]
    ensures |b[n - 1].log| == n - 1 && b[n - 1].log <= b[n].log && |b[n].log| == n
    ensures b[n].log[n - 1].Drop? ==> Detached(b[n - 1], i)
  {
    NextInv(b, n);
    Logs(b, n - 1, n);
    var x := NextLabel(b[n - 1], b[n]);
    if i >= |b[n - 1].slots| { NewIsHeld(b[n - 1], x, i); }
    StepLeaves(b[n - 1], x, i);
  }

  lemma LetGoSince(b: seq<System>, i: nat, d: nat, n: nat)
    requires Behaviour(b) && d < n < |b| && Detached(b[n], i) && !Detached(b[d], i)
    requires DropsAt(b[n].log, d, b[n].slots[i].name)
    ensures d < n - 1 && i < |b[n - 1].slots| && b[n - 1].slots[i] == b[n].slots[i]
    ensures DropsAt(b[n - 1].log, d, b[n].slots[i].name)
  {
    StepBack(b, i, n);
  }

  /**
   The answer of an entry was asked for before a drop of its name exactly when
   the table had let go of the entry by then.
   */
  lemma {:induction false} EntryExactly(b: seq<System>, i: nat, d: nat, n: nat)
    requires Behaviour(b) && d < n < |b| && i < |b[n].slots| && b[n].slots[i].e.addrs != []
    requires DropsAt(b[n].log, d, b[n].slots[i].name)
    ensures b[n].slots[i].from.began < d <==> Detached(b[d], i)
    decreases n
  {
    if Held(b[n], i) {
      HeldIsAfter(b, i, d, n);
    } else if Detached(b[d], i) {
      DetachedIsBefore(b, i, d, n);
    } else {
      LetGoSince(b, i, d, n);
      EntryExactly(b, i, d, n - 1);
    }
  }

  // What a step makes of a request: nothing, when it is done; otherwise it may
  // be done now, or wait on for the same entry with the same fallback.
  lemma RequestSteps(s: System, x: Label, r: nat)
    requires Inv(s) && Enabled(s, x) && r < |s.requests|
    ensures var t := Step(s, x);
      && r < |t.requests| && t.requests[r].name == s.requests[r].name
      && (s.requests[r].stage.Done? ==> t.requests[r] == s.requests[r])
      && (s.requests[r].stage.Waiting? && t.requests[r].stage.Done? ==>
            t.requests[r].stage.step == |s.log| && (x == GiveUp(r) || x == Wake(r) || x == Cancel(r)))
      && (t.requests[r].stage.Waiting? ==>
            s.requests[r].stage.Waiting?
            && t.requests[r].stage == s.requests[r].stage.(giveUpAt := t.requests[r].stage.giveUpAt))
  {
    if x.Arrive? {
      EnsureKeeps(s, x.name);
      EnsureShape(s, x.name);
      var u := Ensure(s, x.name);
      ArriveShape(u, u.names[x.name], x.settings);
      assert Step(s, x).requests[r] == Step(s, x).requests[..|s.requests|][r];
    }
  }

  // The request of an arrival at an entry that the table holds.
  lemma ArrivedRequest(u: System, i: nat, settings: Settings)
    requires Inv(u) && Held(u, i)
    ensures var t := Arrived(u, i, settings); var q := t.requests[|t.requests| - 1];
      && |t.requests| == |u.requests| + 1 && Held(t, i) && q.stage.slot == i && t.slots[i].name == q.name
      && (q.stage.Done? ==> q.stage.step == |u.log|)
      && (q.stage.Done? && q.stage.reply.Served? ==> t.slots[i].e.addrs != [] && q.stage.from == t.slots[i].from)
  {
    ArriveShape(u, i, settings);
  }

  // A request that a step adds is one for the entry that the table holds.
  lemma RequestArrives(s: System, x: Label, r: nat)
    requires Inv(s) && Enabled(s, x) && |s.requests| <= r < |Step(s, x).requests|
    ensures var t := Step(s, x); var q := t.requests[r];
      && x.Arrive? && r == |s.requests| && Held(t, q.stage.slot) && t.slots[q.stage.slot].name == q.name
      && (q.stage.Done? ==> q.stage.step == |s.log|)
      && (q.stage.Done? && q.stage.reply.Served? ==>
            t.slots[q.stage.slot].e.addrs != [] && q.stage.from == t.slots[q.stage.slot].from)
  {
    if x.Arrive? {
      EnsureKeeps(s, x.name);
      EnsureShape(s, x.name);
      EnsureShapeLog(s, x.name);
      var u := Ensure(s, x.name);
      ArrivedRequest(u, u.names[x.name], x.settings);
    }
  }

  // The fallback of a waiting request may still be served.
  ghost predicate Current(s: System, r: nat) {
    && r < |s.requests| && s.requests[r].stage.Waiting? && s.requests[r].stage.kept.Some?
    && s.requests[r].stage.slot < |s.slots|
    && s.requests[r].stage.dropped == s.slots[s.requests[r].stage.slot].e.dropped
  }

  lemma HeldWaiterIsAfter(b: seq<System>, r: nat, d: nat, n: nat)
    requires Behaviour(b) && d < n < |b| && Current(b[n], r) && Held(b[n], b[n].requests[r].stage.slot)
    requires DropsAt(b[n].log, d, b[n].requests[r].name)
    ensures d < b[n].requests[r].stage.from.began && !Detached(b[d], b[n].requests[r].stage.slot)
  {
    BehaviourKeeps(b, n);
    Logs(b, n, n);
    assert RequestOk(b[n], r);
    var i := b[n].requests[r].stage.slot;
    if i < |b[d].slots| {
      StaysDetached(b, i, d, n);
    }
  }

  lemma {:induction false} WaiterIsBefore(b: seq<System>, r: nat, d: nat)
    requires Behaviour(b) && d < |b| && r < |b[d].requests| && b[d].requests[r].stage.Waiting?
    requires b[d].requests[r].stage.kept.Some?
    ensures b[d].requests[r].stage.from.began < d
  {
    BehaviourKeeps(b, d);
    Logs(b, d, d);
    assert RequestOk(b[d], r);
  }

  lemma {:induction false} WaiterExactly(b: seq<System>, r: nat, d: nat, n: nat)
    requires Behaviour(b) && d < n < |b| && Current(b[n], r)
    requires DropsAt(b[n].log, d, b[n].requests[r].name)
    ensures b[n].requests[r].stage.from.began < d <==> Detached(b[d], b[n].requests[r].stage.slot)
    decreases n
  {
    var i := b[n].requests[r].stage.slot;
    if Held(b[n], i) {
      HeldWaiterIsAfter(b, r, d, n);
    } else {
      WaiterBack(b, r, n);
      if d == n - 1 {
        StepBack(b, i, n);
        WaiterIsBefore(b, r, d);
      } else {
        WaiterExactly(b, r, d, n - 1);
      }
    }
  }

  lemma WaiterBack(b: seq<System>, r: nat, n: nat)
    requires Behaviour(b) && 0 < n < |b| && Current(b[n], r) && !Held(b[n], b[n].requests[r].stage.slot)
    ensures Current(b[n - 1], r) && b[n - 1].requests[r].name == b[n].requests[r].name
    ensures b[n - 1].requests[r].stage.slot == b[n].requests[r].stage.slot
    ensures b[n - 1].requests[r].stage.from == b[n].requests[r].stage.from
    ensures |b[n - 1].log| == n - 1 && b[n - 1].log <= b[n].log && |b[n].log| == n
  {
    NextInv(b, n);
    StepBack(b, b[n].requests[r].stage.slot, n);
    var x := NextLabel(b[n - 1], b[n]);
    if r >= |b[n - 1].requests| { RequestArrives(b[n - 1], x, r); }
    RequestSteps(b[n - 1], x, r);
  }

  // A request that is done was done by the step it remembers.
  ghost predicate DoneIn(b: seq<System>, r: nat, n: nat, t: nat) {
    && t < n < |b| && r < |b[n].requests| && r < |b[t + 1].requests| && b[t + 1].requests[r] == b[n].requests[r]
    && (r < |b[t].requests| ==> b[t].requests[r].stage.Waiting?)
  }

  lemma DoneBack(b: seq<System>, r: nat, n: nat)
    requires Behaviour(b) && 0 < n < |b| && r < |b[n].requests| && b[n].requests[r].stage.Done?
    ensures (b[n].requests[r].stage.step == n - 1 && DoneIn(b, r, n, n - 1))
         || (r < |b[n - 1].requests| && b[n - 1].requests[r] == b[n].requests[r])
  {
    NextInv(b, n);
    Logs(b, n - 1, n);
    var x := NextLabel(b[n - 1], b[n]);
    if r >= |b[n - 1].requests| {
      RequestArrives(b[n - 1], x, r);
    } else {
      RequestSteps(b[n - 1], x, r);
    }
  }

  lemma {:induction false} DoneBy(b: seq<System>, r: nat, n: nat)
    requires Behaviour(b) && n < |b| && r < |b[n].requests| && b[n].requests[r].stage.Done?
    ensures DoneIn(b, r, n, b[n].requests[r].stage.step)
    decreases n
  {
    if n > 0 {
      DoneBack(b, r, n);
      if r < |b[n - 1].requests| && b[n - 1].requests[r] == b[n].requests[r] {
        DoneBy(b, r, n - 1);
      }
    }
  }

  // A waiting request is served its fallback, or what its entry has.
  lemma WaiterServed(s: System, x: Label, r: nat)
    requires Inv(s) && Enabled(s, x) && r < |s.requests| && s.requests[r].stage.Waiting?
    requires Step(s, x).requests[r].stage.Done? && Step(s, x).requests[r].stage.reply.Served?
    ensures var q := Step(s, x).requests[r]; var i := q.stage.slot;
      && q.name == s.requests[r].name && i == s.requests[r].stage.slot && i < |s.slots| && s.slots[i].name == q.name
      && (if x == GiveUp(r) then Current(s, r) && q.stage.from == s.requests[r].stage.from
          else s.slots[i].e.addrs != [] && q.stage.from == s.slots[i].from)
  {
    RequestSteps(s, x, r);
    assert RequestOk(s, r);
  }

  // The request is served in the step after b[t]: on arrival, or after it has waited.
  lemma ArrivedServed(b: seq<System>, r: nat, t: nat)
    requires Behaviour(b) && t + 1 < |b| && |b[t].requests| <= r < |b[t + 1].requests|
    requires b[t + 1].requests[r].stage.Done? && b[t + 1].requests[r].stage.reply.Served?
    ensures var u := b[t + 1]; var q := u.requests[r]; var i := q.stage.slot;
      i < |u.slots| && u.slots[i].name == q.name && u.slots[i].e.addrs != [] && q.stage.from == u.slots[i].from
  {
    NextInv(b, t + 1);
    var x := NextLabel(b[t], b[t + 1]);
    RequestArrives(b[t], x, r);
  }

  lemma WaitedServed(b: seq<System>, r: nat, t: nat) returns (gaveUp: bool)
    requires Behaviour(b) && t + 1 < |b| && r < |b[t].requests| && b[t].requests[r].stage.Waiting?
    requires r < |b[t + 1].requests| && b[t + 1].requests[r].stage.Done? && b[t + 1].requests[r].stage.reply.Served?
    ensures var s := b[t]; var q := b[t + 1].requests[r]; var i := q.stage.slot;
      && q.name == s.requests[r].name && i == s.requests[r].stage.slot && i < |s.slots| && s.slots[i].name == q.name
      && (if gaveUp then Current(s, r) && q.stage.from == s.requests[r].stage.from
          else s.slots[i].e.addrs != [] && q.stage.from == s.slots[i].from)
  {
    NextInv(b, t + 1);
    var x := NextLabel(b[t], b[t + 1]);
    WaiterServed(b[t], x, r);
    gaveUp := x == GiveUp(r);
  }

  lemma ServedExactly(b: seq<System>, r: nat, d: nat, t: nat)
    requires Behaviour(b) && d < t && t + 1 < |b|
    requires r < |b[t + 1].requests| && b[t + 1].requests[r].stage.Done? && b[t + 1].requests[r].stage.reply.Served?
    requires r < |b[t].requests| ==> b[t].requests[r].stage.Waiting?
    requires DropsAt(b[t].log, d, b[t + 1].requests[r].name)
    ensures b[t + 1].requests[r].stage.from.began < d <==> Detached(b[d], b[t + 1].requests[r].stage.slot)
  {
    var i := b[t + 1].requests[r].stage.slot;
    if r >= |b[t].requests| {
      Logs(b, t, t + 1);
      ArrivedServed(b, r, t);
      EntryExactly(b, i, d, t + 1);
    } else {
      var gaveUp := WaitedServed(b, r, t);
      if gaveUp {
        WaiterExactly(b, r, d, t);
      } else {
        EntryExactly(b, i, d, t);
      }
    }
  }

  /**
   A request decided after a drop of its name is served what was asked for
   before the drop exactly when the table had let go of the request's entry by
   then: when the drop found no entry under the name, or another one.
   */
  lemma StaleExactly(b: seq<System>, n: nat, r: nat, d: nat)
    requires Behaviour(b) && d < n < |b| && r < |b[n].requests|
    requires b[n].requests[r].stage.Done? && b[n].requests[r].stage.reply.Served?
    requires d < b[n].requests[r].stage.step && DropsAt(b[n].log, d, b[n].requests[r].name)
    ensures b[n].requests[r].stage.from.began < d <==> Detached(b[d], b[n].requests[r].stage.slot)
  {
    DoneBy(b, r, n);
    var t := b[n].requests[r].stage.step;
    Logs(b, t, n);
    Logs(b, t + 1, n);
    Logs(b, d, n);
    ServedExactly(b, r, d, t);
  }

  /** Within ten minutes of a request's arrival the table lets go of its entry for no drop. */
  lemma HeldForTenMinutes(b: seq<System>, n: nat, r: nat, d: nat)
    requires Behaviour(b) && d < n < |b| && r < |b[n].requests|
    requires b[n].requests[r].stage.Done? && b[n].requests[r].stage.reply.Served?
    requires d < b[n].requests[r].stage.step && DropsAt(b[n].log, d, b[n].requests[r].name)
    requires b[n].requests[r].stage.moment - b[n].requests[r].entered <= IDLE
    ensures !Detached(b[d], b[n].requests[r].stage.slot)
  {
    BehaviourKeeps(b, n);
    assert RequestOk(b[n], r);
    StaleExactly(b, n, r, d);
  }
}
