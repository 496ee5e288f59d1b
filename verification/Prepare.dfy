/** Which run ids are taken, and whose bucket it is (Prepare in agent/internal/backup/storage.go). */
module Prepare {
  import opened Options
  import opened Text
  import opened BackupWorld
  import opened Leftovers

  datatype Prepared = Upto(highest: int) | Foreign | Failed

  // The run ids there are in an owner's directory, in all of them, and in the keys of objects.
  ghost predicate OfOwner(s: State, others: map<string, seq<Entry>>, owner: string, id: int) {
    exists run :: IsRunName(s, others, owner, run) && Atoi(run) == Some(id)
  }

  ghost predicate InDirectory(s: State, others: map<string, seq<Entry>>, id: int) {
    exists owner :: IsOwnerDir(s, others, owner) && OfOwner(s, others, owner, id)
  }

  ghost predicate InBucket(s: State, id: int) {
    exists key :: key in s.objects && IdOf(key) == Some(id)
  }

  ghost predicate InUse(s: State, others: map<string, seq<Entry>>, remote: bool, id: int) {
    InDirectory(s, others, id) || (remote && InBucket(s, id))
  }

  // The id in the key of an object, if it is one of a run's.
  function IdOf(key: string): Option<int> {
    var parts := Split(key, '/');
    if |parts| == 3 then Atoi(parts[1]) else None
  }

  function Max(a: int, b: int): int {
    if a > b then a else b
  }

  method HighestOfOwner(w: World, owner: string, from: int) returns (highest: Option<int>)
    ensures highest.None? ==> owner in w.unreadable
    ensures highest.Some? ==> from <= highest.value
    ensures highest.Some? ==> highest.value == from || OfOwner(w.now, w.others, owner, highest.value)
    ensures highest.Some? ==> forall id :: OfOwner(w.now, w.others, owner, id) ==> id <= highest.value
  {
    var runs := ReadOwner(w, owner);
    if runs.None? {
      return None;
    }
    var h := from;
    for i := 0 to |runs.value|
      invariant from <= h && (h == from || OfOwner(w.now, w.others, owner, h))
      invariant forall k :: 0 <= k < i && Atoi(runs.value[k].name).Some? ==> Atoi(runs.value[k].name).value <= h
    {
      var id := Atoi(runs.value[i].name);
      if id.Some? {
        assert IsRunName(w.now, w.others, owner, runs.value[i].name);
        h := Max(h, id.value);
      }
    }
    forall id | OfOwner(w.now, w.others, owner, id) ensures id <= h {
      var k := ListedId(w.now, w.others, owner, id, runs.value);
    }
    highest := Some(h);
  }

  lemma ListedId(s: State, others: map<string, seq<Entry>>, owner: string, id: int, entries: seq<Entry>)
    returns (k: nat)
    requires OfOwner(s, others, owner, id)
    requires forall run, file :: Lies(s, owner, run, file) ==> Entry(run, true) in entries
    requires forall dir, run :: Beside(others, owner, Entry(run, dir)) ==> Entry(run, dir) in entries
    ensures k < |entries| && Atoi(entries[k].name) == Some(id)
  {
    var run :| IsRunName(s, others, owner, run) && Atoi(run) == Some(id);
    var dir :| Entry(run, dir) in entries;
    k :| k < |entries| && entries[k] == Entry(run, dir);
  }

  // A directory of an owner, or the one of them all, cannot be read.
  ghost predicate Unreadable(s: State, others: map<string, seq<Entry>>, unreadable: set<string>) {
    "" in unreadable || exists owner :: IsOwnerDir(s, others, owner) && owner in unreadable
  }

  /** The highest run id in the directory, or an error where it cannot be read. */
  method HighestInDirectory(w: World) returns (highest: Option<int>)
    ensures highest.None? ==> Unreadable(w.now, w.others, w.unreadable)
    ensures highest.Some? ==> 0 <= highest.value && (highest.value == 0 || InDirectory(w.now, w.others, highest.value))
    ensures highest.Some? ==> forall id :: InDirectory(w.now, w.others, id) ==> id <= highest.value
  {
    var owners := ReadAll(w);
    if owners.None? {
      return None;
    }
    var h := 0;
    for i := 0 to |owners.value|
      invariant 0 <= h && (h == 0 || InDirectory(w.now, w.others, h))
      invariant forall k, id ::
        0 <= k < i && owners.value[k].dir && OfOwner(w.now, w.others, owners.value[k].name, id) ==> id <= h
    {
      if owners.value[i].dir {
        assert IsOwnerDir(w.now, w.others, owners.value[i].name);
        var more := HighestOfOwner(w, owners.value[i].name, h);
        if more.None? {
          return None;
        }
        h := more.value;
      }
    }
    forall id | InDirectory(w.now, w.others, id) ensures id <= h {
      var owner :| IsOwnerDir(w.now, w.others, owner) && OfOwner(w.now, w.others, owner, id);
      var k :| 0 <= k < |owners.value| && owners.value[k] == Entry(owner, true);
    }
    highest := Some(h);
  }

  /** The highest of an id and those in the keys of objects. */
  method HighestInBucket(w: World, from: int) returns (highest: Option<int>)
    modifies w`failed
    ensures w.failed == old(w.failed) + if highest.Some? then 0 else 1
    ensures highest.Some? ==> from <= highest.value && (highest.value == from || InBucket(w.now, highest.value))
    ensures highest.Some? ==> forall id :: InBucket(w.now, id) ==> id <= highest.value
  {
    var keys := w.List();
    if keys.None? {
      return None;
    }
    var h := from;
    for i := 0 to |keys.value|
      invariant from <= h && (h == from || InBucket(w.now, h)) && w.failed == old(w.failed)
      invariant forall k :: 0 <= k < i ==> AtMost(keys.value[k], h)
    {
      h := Higher(w, h, keys.value[i]);
    }
    forall id | InBucket(w.now, id) ensures id <= h {
      var k := ListedKey(w.now, id, keys.value);
      assert AtMost(keys.value[k], h);
    }
    highest := Some(h);
  }

  ghost predicate AtMost(key: string, h: int) {
    IdOf(key).Some? ==> IdOf(key).value <= h
  }

  method Higher(w: World, h: int, key: string) returns (higher: int)
    requires key in w.now.objects
    ensures h <= higher && (higher == h || InBucket(w.now, higher)) && AtMost(key, higher)
  {
    var id := IdOf(key);
    higher := if id.Some? then Max(h, id.value) else h;
  }

  lemma ListedKey(s: State, id: int, keys: seq<string>) returns (k: nat)
    requires InBucket(s, id) && forall key :: key in s.objects <==> key in keys
    ensures k < |keys| && IdOf(keys[k]) == Some(id)
  {
    var key :| key in s.objects && IdOf(key) == Some(id);
    k :| k < |keys| && keys[k] == key;
  }

  // The bucket says that it is this installation's.
  ghost predicate Owned(s: State, installation: string) {
    && MARKER in s.objects
    && (s.objects[MARKER] == installation || TrimSpace(Start(s.objects[MARKER], 1024)) == installation)
  }

  // Nothing has changed, or a bucket that said nothing says that it is this installation's.
  ghost predicate Marked(before: State, after: State, installation: string) {
    after == before
    || (MARKER !in before.objects && after == before.(objects := before.objects[MARKER := installation]))
  }

  // Whether the bucket is this installation's, which it is from now on when it was nobody's.
  method Claim(w: World, installation: string) returns (claimed: bool, foreign: bool)
    requires w.Valid()
    modifies w`now, w`past, w`failed
    ensures w.Valid() && old(w.past) <= w.past
    ensures Marked(old(w.now), w.now, installation)
    ensures claimed ==> Owned(w.now, installation)
    ensures foreign ==> !claimed && MARKER in w.now.objects
    ensures foreign ==> TrimSpace(Start(w.now.objects[MARKER], 1024)) != installation
    ensures old(w.failed) <= w.failed && (w.failed == old(w.failed) ==> claimed || foreign)
  {
    var found, absent := w.Get(MARKER);
    if absent {
      claimed := w.Put(MARKER, installation);
      return claimed, false;
    }
    if found.None? {
      return false, false;
    }
    foreign := TrimSpace(Start(found.value, 1024)) != installation;
    claimed := !foreign;
  }

  // The highest id in use, or 0.
  ghost predicate Highest(s: State, others: map<string, seq<Entry>>, remote: bool, h: int) {
    0 <= h && (h == 0 || InUse(s, others, remote, h)) && forall id :: InUse(s, others, remote, id) ==> id <= h
  }

  lemma SameDirectory(s: State, t: State, others: map<string, seq<Entry>>, id: int)
    requires s.files == t.files
    ensures InDirectory(s, others, id) <==> InDirectory(t, others, id)
  {
    forall owner, run, file ensures Lies(s, owner, run, file) <==> Lies(t, owner, run, file) {}
    forall owner, run ensures IsRunName(s, others, owner, run) <==> IsRunName(t, others, owner, run) {}
    forall owner ensures OfOwner(s, others, owner, id) <==> OfOwner(t, others, owner, id) {}
  }

  lemma HighestOfBoth(s: State, t: State, others: map<string, seq<Entry>>, here: int, h: int)
    requires s.files == t.files && 0 <= here && (here == 0 || InDirectory(s, others, here))
    requires forall id :: InDirectory(s, others, id) ==> id <= here
    requires here <= h && (h == here || InBucket(t, h)) && forall id :: InBucket(t, id) ==> id <= h
    ensures Highest(t, others, true, h)
  {
    forall id ensures InDirectory(s, others, id) <==> InDirectory(t, others, id) {
      SameDirectory(s, t, others, id);
    }
  }

  /**
   The highest run id that anything is kept under, here or in the bucket, for the installation
   whose bucket it is; nothing but the marker is written, and never over another's.
   */
  method Prepare(w: World, installation: string) returns (r: Prepared)
    requires w.Valid()
    modifies w`now, w`past, w`failed
    ensures w.Valid() && old(w.past) <= w.past
    ensures Marked(old(w.now), w.now, installation)
    ensures r.Upto? ==> Highest(w.now, w.others, w.remote, r.highest)
    ensures r.Upto? && w.remote ==> Owned(w.now, installation)
    ensures r.Foreign? ==> MARKER in w.now.objects && TrimSpace(Start(w.now.objects[MARKER], 1024)) != installation
    ensures old(w.failed) <= w.failed
    ensures w.failed == old(w.failed) && !Unreadable(old(w.now), w.others, w.unreadable) ==> !r.Failed?
  {
    var h := HighestInDirectory(w);
    if h.None? {
      return Failed;
    }
    if !w.remote {
      return Upto(h.value);
    }
    r := PrepareBucket(w, installation, h.value);
  }

  // The part of it that asks the bucket.
  method PrepareBucket(w: World, installation: string, here: int) returns (r: Prepared)
    requires w.Valid() && w.remote && 0 <= here && (here == 0 || InDirectory(w.now, w.others, here))
    requires forall id :: InDirectory(w.now, w.others, id) ==> id <= here
    modifies w`now, w`past, w`failed
    ensures w.Valid() && old(w.past) <= w.past && Marked(old(w.now), w.now, installation)
    ensures r.Upto? ==> Highest(w.now, w.others, true, r.highest) && Owned(w.now, installation)
    ensures r.Foreign? ==> MARKER in w.now.objects && TrimSpace(Start(w.now.objects[MARKER], 1024)) != installation
    ensures old(w.failed) <= w.failed && (w.failed == old(w.failed) ==> !r.Failed?)
  {
    var claimed, foreign := Claim(w, installation);
    if !claimed {
      return if foreign then Foreign else Failed;
    }
    var more := HighestInBucket(w, here);
    if more.None? {
      return Failed;
    }
    HighestOfBoth(old(w.now), w.now, w.others, here, more.value);
    r := Upto(more.value);
  }

  /**
   A run counted on from there meets nothing that is kept: no file and no object of its keys, and no
   note, which is what Write asks of a new file.
   */
  lemma CountingOnIsSafe(s: State, others: map<string, seq<Entry>>, remote: bool, highest: int,
                         owner: string, run: int, file: string)
    requires Highest(s, others, remote, highest) && highest < run <= MAX_INT && '/' !in owner && '/' !in file
    ensures var key := Key(owner, Itoa(run), file);
      key !in s.files && key + NOTE !in s.files && key + PARTIAL !in s.files && (remote ==> key !in s.objects)
  {
    var key := Key(owner, Itoa(run), file);
    NoFile(s, others, remote, highest, owner, run, file);
    NoFile(s, others, remote, highest, owner, run, file + NOTE);
    NoFile(s, others, remote, highest, owner, run, file + PARTIAL);
    assert key + NOTE == Key(owner, Itoa(run), file + NOTE);
    assert key + PARTIAL == Key(owner, Itoa(run), file + PARTIAL);
  }

  lemma NoFile(s: State, others: map<string, seq<Entry>>, remote: bool, highest: int, owner: string, run: int,
               file: string)
    requires Highest(s, others, remote, highest) && highest < run <= MAX_INT && '/' !in owner && '/' !in file
    ensures Key(owner, Itoa(run), file) !in s.files && (remote ==> Key(owner, Itoa(run), file) !in s.objects)
  {
    ItoaHasNo(run, '/');
    AtoiItoa(run);
    KeySplits(owner, Itoa(run), file);
    WhatLiesIsInUse(s, others, remote, owner, run, file);
    assert IdOf(Key(owner, Itoa(run), file)) == Some(run);
  }

  lemma WhatLiesIsInUse(s: State, others: map<string, seq<Entry>>, remote: bool, owner: string, run: int, file: string)
    requires 1 <= run <= MAX_INT
    ensures Lies(s, owner, Itoa(run), file) ==> InUse(s, others, remote, run)
  {
    AtoiItoa(run);
    if Lies(s, owner, Itoa(run), file) {
      assert IsRunName(s, others, owner, Itoa(run)) && IsOwnerDir(s, others, owner);
      assert OfOwner(s, others, owner, run);
    }
  }
}
