/**
The critical sections of caddy/table.go as methods that update the table and
its entries in place, each tied to the function of `NameTable` that the runs
of `NameTableRun` are made of.
*/
module NameTableCode {
  import opened Options
  import N = NameTable

  class Entry {
    var addrs: seq<string>
    var answered: Option<N.Time>
    var asked: Option<N.Time>
    var failing: bool
    var err: N.Error
    var inFlight: Option<nat>
    var used: N.Time
    var dropped: nat

    function Value(): N.Entry
      reads this
    {
      N.Entry(addrs, answered, asked, failing, err, inFlight, used, dropped)
    }

    constructor ()
      ensures Value() == N.NewEntry
    {
      addrs, answered, asked, failing, err := [], None, None, false, N.NoError;
      inFlight, used, dropped := None, 0, 0;
    }

    // What a drop of its name does to an entry.
    method Drop()
      modifies this
      ensures Value() == N.Dropped(old(Value()), 1)
    {
      dropped := dropped + 1;
      addrs, answered, asked := [], None, None;
    }

    method Result() returns (reply: N.Reply)
      ensures reply == Value().Result()
    {
      if |addrs| == 0 {
        return N.Refused(err);
      }
      return N.Served(addrs);
    }

    method Kept(now: N.Time, keep: int) returns (kept: Option<seq<string>>)
      ensures kept == Value().Kept(now, keep)
    {
      if |addrs| == 0 || N.Elapsed(answered, now) >= keep {
        return None;
      }
      return Some(addrs);
    }

    // The end of addresses: a request whose lookup has ended.
    method Conclude(now: N.Time, keep: int) returns (reply: N.Reply)
      ensures reply == N.Conclude(Value(), now, keep)
    {
      if !failing {
        reply := Result();
        return;
      }
      var kept := Kept(now, keep);
      if kept.Some? {
        return N.Served(kept.value);
      }
      return N.Refused(err);
    }

    // The locked part of lookup after the resolver has answered: either the
    // question is put again, or the answer is stored and the channel closed.
    method Finish(now: N.Time, sampled: nat, answer: N.Answer) returns (again: bool, closes: Option<nat>)
      modifies this
      ensures again == (old(dropped) != sampled)
      ensures again ==> Value() == old(Value()).(asked := Some(now)) && closes.None?
      ensures !again ==> Value() == N.Commit(old(Value()), now, answer) && closes == old(inFlight)
    {
      again := dropped != sampled;
      closes := None;
      if again {
        asked := Some(now);
        return;
      }
      if answer.err == N.NoError || answer.err == N.NoReplicas {
        addrs, answered, failing, err := answer.addrs, Some(now), false, answer.err;
      } else {
        failing, err := true, answer.err;
      }
      closes := inFlight;
      inFlight := None;
    }
  }

  class Table {
    var entries: map<N.Name, Entry>
    var channels: nat

    constructor ()
      ensures entries == map[] && channels == 0
    {
      entries, channels := map[], 0;
    }

    // Each name has an entry of its own.
    ghost predicate Valid()
      reads this
    {
      forall m, n :: m in entries && n in entries && m != n ==> entries[m] != entries[n]
    }

    // What the table keeps when a name it does not hold is asked for.
    ghost function Remembered(now: N.Time): map<N.Name, Entry>
      reads this, entries.Values
    {
      map n | n in entries && N.Stays(entries[n].Value(), now, |entries|) :: entries[n]
    }

    method Forget(now: N.Time)
      requires Valid()
      modifies this`entries
      ensures Valid()
      ensures entries == old(Remembered(now))
    {
      if |entries| < N.CROWDED {
        return;
      }
      var left := entries.Keys;
      while left != {}
        invariant left <= old(entries).Keys
        invariant entries.Keys <= old(entries).Keys && left <= entries.Keys
        invariant forall n :: n in entries ==> entries[n] == old(entries)[n]
        invariant forall n :: n in old(entries) && n !in left
                              ==> (n in entries <==> !old(entries)[n].Value().Forgettable(now))
        decreases |left|
      {
        var name :| name in left;
        left := left - {name};
        var e := entries[name];
        if e.inFlight.None? && now - e.used > N.IDLE {
          entries := entries - {name};
        }
      }
    }

    // The entry of a name, made if there is none.
    method Obtain(name: N.Name, now: N.Time) returns (e: Entry)
      requires Valid()
      modifies this`entries
      ensures Valid() && name in entries && e == entries[name]
      ensures name in old(entries) ==> entries == old(entries) && e == old(entries)[name]
      ensures name !in old(entries) ==>
          entries == old(Remembered(now))[name := e] && fresh(e) && e.Value() == N.NewEntry
    {
      if name in entries {
        return entries[name];
      }
      Forget(now);
      e := new Entry();
      entries := entries[name := e];
    }

    // What addresses does with the entry before it lets go of the lock.
    method Enter(e: Entry, now: N.Time, s: N.Settings) returns (entered: N.Entered, starts: bool)
      modifies this`channels, e
      ensures e.Value() == N.Touch(old(e.Value()), now, s, old(channels))
      ensures entered == N.Enter(e.Value(), now, s)
      ensures starts == (e.inFlight != old(e.inFlight))
      ensures channels == old(channels) + if starts then 1 else 0
    {
      starts := false;
      e.used := now;
      if !e.failing && e.answered.Some? && N.Elapsed(e.answered, now) < s.refresh {
        var reply := e.Result();
        entered := N.Now(reply);
        return;
      }
      if e.inFlight.None? && (e.asked.None? || N.Elapsed(e.asked, now) >= s.refresh) {
        e.asked := Some(now);
        e.inFlight := Some(channels);
        channels := channels + 1;
        starts := true;
      }
      var kept := e.Kept(now, s.keep);
      var patience := s.wait - N.Elapsed(e.asked, now);
      if e.inFlight.None? || (kept.Some? && (e.failing || patience <= 0)) {
        entered := N.Now(if kept.Some? then N.Served(kept.value) else N.Refused(e.err));
      } else {
        entered := N.Later(e.inFlight.value, e.dropped, kept, patience);
      }
    }

    // The first part of addresses, up to where the request waits or is answered.
    method Arrive(name: N.Name, now: N.Time, s: N.Settings) returns (e: Entry, entered: N.Entered, starts: bool)
      requires Valid()
      modifies this, entries.Values
      ensures Valid() && name in entries && e == entries[name]
      ensures name in old(entries) ==> entries == old(entries) && e == old(entries)[name]
      ensures name !in old(entries) ==> entries == old(Remembered(now))[name := e] && fresh(e)
      ensures e.Value() == N.Touch(if name in old(entries) then old(entries[name].Value()) else N.NewEntry,
                                   now, s, old(channels))
      ensures entered == N.Enter(e.Value(), now, s)
      ensures starts == (e.inFlight != if name in old(entries) then old(entries[name].inFlight) else None)
      ensures channels == old(channels) + if starts then 1 else 0
      ensures forall n :: n in old(entries) && n != name ==> unchanged(old(entries)[n])
    {
      e := Obtain(name, now);
      entered, starts := Enter(e, now, s);
    }

    method Drop(names: seq<N.Name>)
      requires Valid()
      modifies entries.Values
      ensures forall n :: n in entries ==> entries[n].Value() == N.Dropped(old(entries[n].Value()), N.Count(n, names))
    {
      for i := 0 to |names|
        invariant forall n :: n in entries
                              ==> entries[n].Value() == N.Dropped(old(entries[n].Value()), N.Count(n, names[..i]))
      {
        N.CountNext(names, i);
        if names[i] in entries {
          N.DroppedOnce(old(entries[names[i]].Value()), N.Count(names[i], names[..i]));
          entries[names[i]].Drop();
        }
      }
      assert names[..|names|] == names;
    }
  }
}
