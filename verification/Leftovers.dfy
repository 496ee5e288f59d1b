/**
What an agent that died left in the bucket (AbortLeftovers, abortNoted and
splitRunKey in agent/internal/backup/multipart.go).
*/
module Leftovers {
  import opened Options
  import opened Text
  import opened BackupWorld

  function Key(owner: string, run: string, file: string): string {
    owner + "/" + (run + "/" + file)
  }

  // plainName in agent/internal/backup/found.go
  predicate Plain(name: string) {
    name != "" && name[0] != '.' && '/' !in name && '\\' !in name && ':' !in name && '\0' !in name
  }

  function SplitRunKey(key: string): Option<(string, int, string)> {
    var parts := Split(key, '/');
    if |parts| != 3 || parts[0] == "" || parts[2] == "" then None
    else if Atoi(parts[1]).None? || Atoi(parts[1]).value < 1 then None
    else Some((parts[0], Atoi(parts[1]).value, parts[2]))
  }

  predicate RunShaped(key: string) {
    SplitRunKey(key).Some?
  }

  lemma KeySplits(owner: string, run: string, file: string)
    requires '/' !in owner && '/' !in run && '/' !in file
    ensures Split(Key(owner, run, file), '/') == [owner, run, file]
  {
    var parts := [owner, run, file];
    assert parts[1..] == [run, file] && parts[1..][1..] == [file];
    assert Join([run, file], '/') == run + "/" + Join([file], '/');
    SplitJoin(parts, '/');
  }

  /** A run's key comes apart into what it was made of, and nothing else is taken for one. */
  lemma RunKeyRoundTrip(owner: string, run: int, file: string)
    requires Plain(owner) && 1 <= run <= MAX_INT && Plain(file)
    ensures SplitRunKey(Key(owner, Itoa(run), file)) == Some((owner, run, file))
  {
    ItoaHasNo(run, '/');
    KeySplits(owner, Itoa(run), file);
    AtoiItoa(run);
  }

  lemma RunKeysOnly(key: string)
    requires RunShaped(key)
    ensures var (owner, run, file) := SplitRunKey(key).value;
      owner != "" && file != "" && 1 <= run <= MAX_INT
      && exists text :: Atoi(text) == Some(run) && key == Key(owner, text, file)
  {
    var parts := Split(key, '/');
    JoinSplit(key, '/');
    assert parts[1..][1..] == [parts[2]];
    assert Join(parts[1..], '/') == parts[1] + "/" + Join(parts[1..][1..], '/');
    assert key == Key(parts[0], parts[1], parts[2]);
  }

  // The upload that a note names, if it names one.
  ghost predicate Ended(note: string, content: string, s: State) {
    TrimSpace(content) == "" || Upload(TrimSuffix(note, NOTE), TrimSpace(content)) !in s.uploads
  }

  // What the aborting of leftovers can have done by a later state: uploads of
  // runs are gone, and the notes of those that are.
  ghost predicate Shrunk(before: State, after: State) {
    && after.objects == before.objects
    && (forall u :: u in after.uploads ==> u in before.uploads && after.uploads[u] == before.uploads[u])
    && (forall u :: u in before.uploads && u !in after.uploads ==> RunShaped(u.key))
    && (forall n :: n in after.files ==> n in before.files && after.files[n] == before.files[n])
    && (forall n :: n in before.files && n !in after.files ==> HasSuffix(n, NOTE) && Ended(n, before.files[n], after))
  }

  lemma ShrunkTwice(a: State, b: State, c: State)
    requires Shrunk(a, b) && Shrunk(b, c)
    ensures Shrunk(a, c)
  {
    forall n | n in a.files && n !in c.files ensures HasSuffix(n, NOTE) && Ended(n, a.files[n], c) {
      if n in b.files {
        assert a.files[n] == b.files[n];
      } else {
        assert Ended(n, a.files[n], b);
      }
    }
  }

  // The note of a file names no upload that is still there.
  ghost predicate Over(before: State, after: State, note: string) {
    note in before.files ==> Ended(note, before.files[note], after)
  }

  lemma OverStays(before: State, later: State, after: State, note: string)
    requires Shrunk(before, later) && Shrunk(later, after)
    requires Over(before, later, note) || Over(later, after, note)
    ensures Over(before, after, note)
  {
  }

  function NoteOf(owner: string, run: int, file: string): string
    requires run >= 1
  {
    Key(owner, Itoa(run), file) + NOTE
  }

  ghost predicate Lies(s: State, owner: string, run: string, file: string) {
    exists n :: n in s.files && Split(n, '/') == [owner, run, file]
  }

  // Where every file lies.
  method Places(w: World) returns (places: seq<(string, string, string)>)
    ensures forall p <- places :: Lies(w.now, p.0, p.1, p.2)
    ensures forall owner, run, file :: Lies(w.now, owner, run, file) ==> (owner, run, file) in places
  {
    places := [];
    var rest := w.now.files.Keys;
    while |rest| > 0
      invariant rest <= w.now.files.Keys && forall p <- places :: Lies(w.now, p.0, p.1, p.2)
      invariant forall n, owner, run, file ::
        n in w.now.files && n !in rest && Split(n, '/') == [owner, run, file] ==> (owner, run, file) in places
      decreases |rest|
    {
      var n :| n in rest;
      rest := rest - {n};
      var parts := Split(n, '/');
      if |parts| == 3 {
        assert parts == [parts[0], parts[1], parts[2]];
        places := places + [(parts[0], parts[1], parts[2])];
      }
    }
  }

  // A run's name in an owner's directory, and an owner's in the uppermost.
  ghost predicate IsRunName(s: State, others: map<string, seq<Entry>>, owner: string, run: string) {
    (exists file :: Lies(s, owner, run, file)) || (exists dir :: Beside(others, owner, Entry(run, dir)))
  }

  ghost predicate IsOwnerDir(s: State, others: map<string, seq<Entry>>, owner: string) {
    (exists run, file :: Lies(s, owner, run, file)) || Beside(others, "", Entry(owner, true))
  }

  ghost predicate Beside(others: map<string, seq<Entry>>, dir: string, e: Entry) {
    dir in others && e in others[dir]
  }

  // os.ReadDir of a run's directory, of an owner's, and of them all.
  method ReadRun(w: World, owner: string, run: string) returns (names: Option<seq<string>>)
    ensures names.None? <==> owner + "/" + run in w.unreadable
    ensures names.Some? ==> forall file :: Lies(w.now, owner, run, file) ==> file in names.value
  {
    var found: seq<string> := *;
    if owner + "/" + run in w.unreadable {
      return None;
    }
    var places := Places(w);
    for i := 0 to |places|
      invariant forall k :: 0 <= k < i && places[k].0 == owner && places[k].1 == run ==> places[k].2 in found
    {
      if places[i].0 == owner && places[i].1 == run {
        found := found + [places[i].2];
      }
    }
    names := Some(found);
  }

  method ReadOwner(w: World, owner: string) returns (entries: Option<seq<Entry>>)
    ensures entries.None? <==> owner in w.unreadable
    ensures entries.Some? ==> forall run, file :: Lies(w.now, owner, run, file) ==> Entry(run, true) in entries.value
    ensures entries.Some? ==> forall dir, run :: Beside(w.others, owner, Entry(run, dir)) ==>
        Entry(run, dir) in entries.value
    ensures entries.Some? ==> forall e <- entries.value :: IsRunName(w.now, w.others, owner, e.name)
  {
    if owner in w.unreadable {
      return None;
    }
    var found := if owner in w.others then w.others[owner] else [];
    assert forall e <- found :: Beside(w.others, owner, Entry(e.name, e.dir));
    var places := Places(w);
    for i := 0 to |places|
      invariant forall e <- found :: IsRunName(w.now, w.others, owner, e.name)
      invariant forall dir, run :: Beside(w.others, owner, Entry(run, dir)) ==> Entry(run, dir) in found
      invariant forall k :: 0 <= k < i && places[k].0 == owner ==> Entry(places[k].1, true) in found
    {
      if places[i].0 == owner {
        assert Lies(w.now, owner, places[i].1, places[i].2);
        found := found + [Entry(places[i].1, true)];
      }
    }
    entries := Some(found);
  }

  method ReadAll(w: World) returns (entries: Option<seq<Entry>>)
    ensures entries.None? <==> "" in w.unreadable
    ensures entries.Some? ==> forall owner, run, file :: Lies(w.now, owner, run, file) ==>
        Entry(owner, true) in entries.value
    ensures entries.Some? ==> forall owner :: Beside(w.others, "", Entry(owner, true)) ==>
        Entry(owner, true) in entries.value
    ensures entries.Some? ==> forall e <- entries.value :: e.dir ==> IsOwnerDir(w.now, w.others, e.name)
  {
    if "" in w.unreadable {
      return None;
    }
    var found := if "" in w.others then w.others[""] else [];
    assert forall e <- found :: e.dir ==> Beside(w.others, "", Entry(e.name, true));
    var places := Places(w);
    for i := 0 to |places|
      invariant forall e <- found :: e.dir ==> IsOwnerDir(w.now, w.others, e.name)
      invariant forall owner :: Beside(w.others, "", Entry(owner, true)) ==> Entry(owner, true) in found
      invariant forall k :: 0 <= k < i ==> Entry(places[k].0, true) in found
    {
      assert Lies(w.now, places[i].0, places[i].1, places[i].2);
      found := found + [Entry(places[i].0, true)];
    }
    entries := Some(found);
  }

  lemma AbortShrinks(before: State, u: Upload, after: State)
    requires RunShaped(u.key) && (after == before || after == before.(uploads := before.uploads - {u}))
    ensures Shrunk(before, after) && |before.uploads| <= |after.uploads| + 1
  {
    assert (before.uploads - {u}).Keys == before.uploads.Keys - {u};
  }

  lemma RemovalShrinks(before: State, note: string, after: State)
    requires HasSuffix(note, NOTE) && Over(before, before, note)
    requires after == before || after == before.(files := before.files - {note})
    ensures Shrunk(before, after)
  {
  }

  // An upload of a run is aborted.
  method EndUpload(w: World, u: Upload) returns (ok: bool)
    requires w.Valid() && RunShaped(u.key)
    modifies w`now, w`past, w`stuck, w`failed
    ensures w.Valid() && old(w.past) <= w.past && Shrunk(old(w.now), w.now) && w.now.files == old(w.now).files
    ensures |old(w.now).uploads| <= |w.now.uploads| + 1
    ensures ok ==> u !in w.now.uploads
    ensures w.now.uploads == old(w.now).uploads || w.now.uploads == old(w.now).uploads - {u}
    ensures old(w.failed) <= w.failed && (w.failed == old(w.failed) ==> ok)
  {
    ok := w.AbortUpload(u);
    AbortShrinks(old(w.now), u, w.now);
  }

  // A note whose upload is over is removed.
  method EndNote(w: World, key: string)
    requires w.Valid() && Over(w.now, w.now, key + NOTE)
    modifies w`now, w`past, w`stuck, w`failed
    ensures w.Valid() && old(w.past) <= w.past && Shrunk(old(w.now), w.now) && w.now.uploads == old(w.now).uploads
    ensures key + NOTE !in w.now.files || key + NOTE in w.stuck
    ensures w.failed == old(w.failed)
  {
    SuffixOn(key, NOTE);
    forall u | u in w.now.uploads && u.key + NOTE == key + NOTE ensures !Noted(w.now, u) {
      SuffixOff(u.key, NOTE);
    }
    var _ := w.RemoveNote(key + NOTE);
    RemovalShrinks(old(w.now), key + NOTE, w.now);
  }

  // The key of a file of a run whose directory can be read.
  ghost predicate RunKey(key: string, unreadable: set<string>) {
    exists owner, run, file ::
      FileOf(key, owner, run, file) && owner !in unreadable && owner + "/" + Itoa(run) !in unreadable
  }

  ghost predicate FileOf(key: string, owner: string, run: int, file: string) {
    Plain(owner) && 1 <= run <= MAX_INT && Plain(file) && key == Key(owner, Itoa(run), file)
  }

  // Only uploads are gone that were noted where it can be read.
  ghost predicate ByNote(before: State, after: State, unreadable: set<string>) {
    forall u :: u in before.uploads && u !in after.uploads ==> Noted(before, u) && RunKey(u.key, unreadable)
  }

  lemma ByNoteTwice(a: State, b: State, c: State, unreadable: set<string>)
    requires Shrunk(a, b) && ByNote(a, b, unreadable) && ByNote(b, c, unreadable)
    ensures ByNote(a, c, unreadable)
  {
    forall u | u in a.uploads && u !in c.uploads ensures Noted(a, u) && RunKey(u.key, unreadable) {
      if u in b.uploads {
        assert Noted(b, u);
      }
    }
  }

  // A note that was listed and is not there any more is a failure, too.
  method ReadNote(w: World, name: string) returns (content: Option<string>)
    modifies w`failed
    ensures content.Some? ==> name in w.now.files && content.value == w.now.files[name]
    ensures old(w.failed) <= w.failed && (w.failed == old(w.failed) ==> content.Some?)
  {
    content := w.ReadFile(name);
    if name !in w.now.files {
      w.failed := w.failed + 1;
    }
  }

  // One note: the upload it names is aborted before it goes.
  method AbortNote(w: World, key: string) returns (aborted: bool, ok: bool)
    requires w.Valid() && RunShaped(key)
    modifies w`now, w`past, w`stuck, w`failed
    ensures w.Valid() && old(w.past) <= w.past && Shrunk(old(w.now), w.now)
    ensures ok ==> Over(old(w.now), w.now, key + NOTE) && (key + NOTE !in w.now.files || key + NOTE in w.stuck)
    ensures ok ==> |old(w.now).uploads| <= |w.now.uploads| + if aborted then 1 else 0
    ensures forall u :: u in old(w.now).uploads && u !in w.now.uploads ==> Noted(old(w.now), u) && u.key == key
    ensures old(w.failed) <= w.failed && (w.failed == old(w.failed) ==> ok)
  {
    SuffixOff(key, NOTE);
    aborted := false;
    var content := ReadNote(w, key + NOTE);
    if content.None? {
      return false, false;
    }
    var id := TrimSpace(content.value);
    if id != "" {
      aborted := EndUpload(w, Upload(key, id));
      if !aborted {
        return false, false;
      }
    }
    ghost var before := w.now;
    EndNote(w, key);
    ShrunkTwice(old(w.now), before, w.now);
    ok := true;
  }

  // What has been done so far: without an error, every upload that is gone was counted.
  ghost predicate Aborted(before: State, after: State, n: nat, ok: bool) {
    Shrunk(before, after) && (ok ==> |before.uploads| <= |after.uploads| + n)
  }

  lemma AbortedTwice(a: State, b: State, c: State, n: nat, ok: bool, more: nat, done: bool)
    requires Aborted(a, b, n, ok) && Aborted(b, c, more, done)
    ensures Aborted(a, c, n + more, ok && done)
  {
    ShrunkTwice(a, b, c);
  }

  // The entry of a run's directory is no note, or one that is over.
  ghost predicate EntryOver(before: State, after: State, owner: string, run: int, name: string)
    requires run >= 1
  {
    HasSuffix(name, NOTE) && Plain(TrimSuffix(name, NOTE)) ==>
        Over(before, after, NoteOf(owner, run, TrimSuffix(name, NOTE)))
  }

  method AbortEntry(w: World, owner: string, run: int, name: string) returns (aborted: bool, ok: bool)
    requires w.Valid() && Plain(owner) && 1 <= run <= MAX_INT
    modifies w`now, w`past, w`stuck, w`failed
    ensures w.Valid() && old(w.past) <= w.past && Aborted(old(w.now), w.now, if aborted then 1 else 0, ok)
    ensures ok ==> EntryOver(old(w.now), w.now, owner, run, name)
    ensures owner !in w.unreadable && owner + "/" + Itoa(run) !in w.unreadable ==>
      ByNote(old(w.now), w.now, w.unreadable)
    ensures old(w.failed) <= w.failed && (w.failed == old(w.failed) ==> ok)
  {
    var file := TrimSuffix(name, NOTE);
    if !HasSuffix(name, NOTE) || !Plain(file) {
      return false, true;
    }
    RunKeyRoundTrip(owner, run, file);
    var key := Key(owner, Itoa(run), file);
    assert FileOf(key, owner, run, file);
    aborted, ok := AbortNote(w, key);
  }

  ghost predicate EntriesOver(before: State, after: State, owner: string, run: int, names: seq<string>, i: nat)
    requires run >= 1 && i <= |names|
  {
    forall k :: 0 <= k < i ==> EntryOver(before, after, owner, run, names[k])
  }

  lemma EntryStaysOver(first: State, before: State, after: State, owner: string, run: int, name: string)
    requires run >= 1 && Shrunk(first, before) && Shrunk(before, after)
    requires EntryOver(first, before, owner, run, name) || EntryOver(before, after, owner, run, name)
    ensures EntryOver(first, after, owner, run, name)
  {
    if HasSuffix(name, NOTE) && Plain(TrimSuffix(name, NOTE)) {
      OverStays(first, before, after, NoteOf(owner, run, TrimSuffix(name, NOTE)));
    }
  }

  lemma NextEntry(first: State, before: State, after: State, owner: string, run: int, names: seq<string>, i: nat)
    requires run >= 1 && i < |names| && Shrunk(first, before) && Shrunk(before, after)
    requires EntriesOver(first, before, owner, run, names, i) && EntryOver(before, after, owner, run, names[i])
    ensures EntriesOver(first, after, owner, run, names, i + 1)
  {
    forall k | 0 <= k < i ensures EntryOver(first, after, owner, run, names[k]) {
      EntryStaysOver(first, before, after, owner, run, names[k]);
    }
    EntryStaysOver(first, before, after, owner, run, names[i]);
  }

  // No note that lies in a run's directory names an upload that is still there.
  ghost predicate RunOver(before: State, after: State, owner: string, run: int)
    requires run >= 1
  {
    forall file :: Plain(file) ==> Over(before, after, NoteOf(owner, run, file))
  }

  lemma EntriesAreAll(before: State, after: State, owner: string, run: int, names: seq<string>)
    requires run >= 1 && '/' !in owner
    requires forall file :: Lies(before, owner, Itoa(run), file) ==> file in names
    requires EntriesOver(before, after, owner, run, names, |names|)
    ensures RunOver(before, after, owner, run)
  {
    forall file | Plain(file) ensures Over(before, after, NoteOf(owner, run, file)) {
      if NoteOf(owner, run, file) in before.files {
        NoteLies(before, owner, run, file);
        SuffixOn(file, NOTE);
        SuffixOff(file, NOTE);
        var k :| 0 <= k < |names| && names[k] == file + NOTE;
        assert EntryOver(before, after, owner, run, names[k]);
      }
    }
  }

  lemma NoteLies(s: State, owner: string, run: int, file: string)
    requires run >= 1 && '/' !in owner && '/' !in file && NoteOf(owner, run, file) in s.files
    ensures Lies(s, owner, Itoa(run), file + NOTE)
  {
    ItoaHasNo(run, '/');
    assert NoteOf(owner, run, file) == Key(owner, Itoa(run), file + NOTE);
    KeySplits(owner, Itoa(run), file + NOTE);
  }

  // The uploads noted in a run's directory, which are aborted.
  method AbortNoted(w: World, owner: string, run: int) returns (n: nat, ok: bool)
    requires w.Valid() && Plain(owner) && 1 <= run <= MAX_INT
    modifies w`now, w`past, w`stuck, w`failed
    ensures w.Valid() && old(w.past) <= w.past && Aborted(old(w.now), w.now, n, ok)
    ensures ok && w.remote && owner + "/" + Itoa(run) !in w.unreadable ==> RunOver(old(w.now), w.now, owner, run)
    ensures owner !in w.unreadable ==> ByNote(old(w.now), w.now, w.unreadable)
    ensures old(w.failed) <= w.failed && (w.failed == old(w.failed) ==> ok)
  {
    n, ok := 0, true;
    var names := ReadRun(w, owner, Itoa(run));
    if names.None? || !w.remote {
      return;
    }
    for i := 0 to |names.value|
      invariant old(w.failed) <= w.failed && (w.failed == old(w.failed) ==> ok)
      invariant w.Valid() && old(w.past) <= w.past && Aborted(old(w.now), w.now, n, ok)
      invariant ok ==> EntriesOver(old(w.now), w.now, owner, run, names.value, i)
      invariant owner !in w.unreadable ==> ByNote(old(w.now), w.now, w.unreadable)
    {
      ghost var before := w.now;
      var aborted, done := AbortEntry(w, owner, run, names.value[i]);
      var more := if aborted then 1 else 0;
      if ok && done {
        NextEntry(old(w.now), before, w.now, owner, run, names.value, i);
      }
      if owner !in w.unreadable {
        ByNoteTwice(old(w.now), before, w.now, w.unreadable);
      }
      AbortedTwice(old(w.now), before, w.now, n, ok, more, done);
      n, ok := n + more, ok && done;
    }
    if ok {
      EntriesAreAll(old(w.now), w.now, owner, run, names.value);
    }
  }

  // The runs of an owner that a directory's name stands for, and that can be read.
  predicate IsRun(e: Entry) {
    e.dir && Atoi(e.name).Some? && Atoi(e.name).value >= 1
  }

  // The entry of an owner's directory is no run, or one that is over.
  ghost predicate RunEntryOver(before: State, after: State, owner: string, unreadable: set<string>, e: Entry) {
    IsRun(e) && owner + "/" + Itoa(Atoi(e.name).value) !in unreadable ==>
        RunOver(before, after, owner, Atoi(e.name).value)
  }

  lemma RunStaysOver(first: State, before: State, after: State, owner: string, run: int)
    requires run >= 1 && Shrunk(first, before) && Shrunk(before, after)
    requires RunOver(first, before, owner, run) || RunOver(before, after, owner, run)
    ensures RunOver(first, after, owner, run)
  {
    forall file | Plain(file) ensures Over(first, after, NoteOf(owner, run, file)) {
      OverStays(first, before, after, NoteOf(owner, run, file));
    }
  }

  ghost predicate RunEntriesOver(before: State, after: State, owner: string, unreadable: set<string>,
                                 entries: seq<Entry>, i: nat)
    requires i <= |entries|
  {
    forall k :: 0 <= k < i ==> RunEntryOver(before, after, owner, unreadable, entries[k])
  }

  lemma RunEntryStaysOver(first: State, before: State, after: State, owner: string, unreadable: set<string>, e: Entry)
    requires Shrunk(first, before) && Shrunk(before, after)
    requires RunEntryOver(first, before, owner, unreadable, e) || RunEntryOver(before, after, owner, unreadable, e)
    ensures RunEntryOver(first, after, owner, unreadable, e)
  {
    if IsRun(e) && owner + "/" + Itoa(Atoi(e.name).value) !in unreadable {
      RunStaysOver(first, before, after, owner, Atoi(e.name).value);
    }
  }

  lemma NextRun(first: State, before: State, after: State, owner: string, unreadable: set<string>,
                entries: seq<Entry>, i: nat)
    requires i < |entries| && Shrunk(first, before) && Shrunk(before, after)
    requires RunEntriesOver(first, before, owner, unreadable, entries, i) &&
        RunEntryOver(before, after, owner, unreadable, entries[i])
    ensures RunEntriesOver(first, after, owner, unreadable, entries, i + 1)
  {
    forall k | 0 <= k < i ensures RunEntryOver(first, after, owner, unreadable, entries[k]) {
      RunEntryStaysOver(first, before, after, owner, unreadable, entries[k]);
    }
    RunEntryStaysOver(first, before, after, owner, unreadable, entries[i]);
  }

  // No note of an owner names an upload that is still there, where it can be read.
  ghost predicate OwnerOver(before: State, after: State, owner: string, unreadable: set<string>) {
    owner !in unreadable ==>
      forall run :: 1 <= run <= MAX_INT && owner + "/" + Itoa(run) !in unreadable ==> RunOver(before, after, owner, run)
  }

  lemma RunsAreAll(before: State, after: State, owner: string, unreadable: set<string>, entries: seq<Entry>)
    requires Plain(owner)
    requires forall run, file :: Lies(before, owner, run, file) ==> Entry(run, true) in entries
    requires RunEntriesOver(before, after, owner, unreadable, entries, |entries|)
    ensures OwnerOver(before, after, owner, unreadable)
  {
    forall run | 1 <= run <= MAX_INT && owner + "/" + Itoa(run) !in unreadable
      ensures RunOver(before, after, owner, run) {
      forall file | Plain(file) ensures Over(before, after, NoteOf(owner, run, file)) {
        if NoteOf(owner, run, file) in before.files {
          NoteLies(before, owner, run, file);
          var k :| 0 <= k < |entries| && entries[k] == Entry(Itoa(run), true);
          AtoiItoa(run);
          assert RunEntryOver(before, after, owner, unreadable, entries[k]);
        }
      }
    }
  }

  method AbortRun(w: World, owner: string, e: Entry) returns (n: nat, ok: bool)
    requires w.Valid() && Plain(owner) && w.remote && owner !in w.unreadable
    modifies w`now, w`past, w`stuck, w`failed
    ensures w.Valid() && old(w.past) <= w.past && Aborted(old(w.now), w.now, n, ok)
    ensures ByNote(old(w.now), w.now, w.unreadable)
    ensures ok ==> RunEntryOver(old(w.now), w.now, owner, w.unreadable, e)
    ensures old(w.failed) <= w.failed && (w.failed == old(w.failed) ==> ok)
  {
    var run := Atoi(e.name);
    if run.None? || run.value < 1 || !e.dir {
      return 0, true;
    }
    n, ok := AbortNoted(w, owner, run.value);
  }

  // The runs of one owner.
  method AbortOwner(w: World, owner: string) returns (n: nat, ok: bool)
    requires w.Valid() && Plain(owner) && w.remote
    modifies w`now, w`past, w`stuck, w`failed
    ensures w.Valid() && old(w.past) <= w.past && Aborted(old(w.now), w.now, n, ok)
    ensures ok ==> OwnerOver(old(w.now), w.now, owner, w.unreadable)
    ensures owner in w.unreadable ==> n == 0 && ok && w.now == old(w.now)
    ensures ByNote(old(w.now), w.now, w.unreadable)
    ensures old(w.failed) <= w.failed && (w.failed == old(w.failed) ==> ok)
  {
    n, ok := 0, true;
    var runs := ReadOwner(w, owner);
    if runs.None? {
      return;
    }
    for i := 0 to |runs.value|
      invariant old(w.failed) <= w.failed && (w.failed == old(w.failed) ==> ok)
      invariant w.Valid() && old(w.past) <= w.past && Aborted(old(w.now), w.now, n, ok)
      invariant ok ==> RunEntriesOver(old(w.now), w.now, owner, w.unreadable, runs.value, i)
      invariant ByNote(old(w.now), w.now, w.unreadable)
    {
      ghost var before := w.now;
      var more, done := AbortRun(w, owner, runs.value[i]);
      if ok && done {
        NextRun(old(w.now), before, w.now, owner, w.unreadable, runs.value, i);
      }
      ByNoteTwice(old(w.now), before, w.now, w.unreadable);
      AbortedTwice(old(w.now), before, w.now, n, ok, more, done);
      n, ok := n + more, ok && done;
    }
    if ok {
      RunsAreAll(old(w.now), w.now, owner, w.unreadable, runs.value);
    }
  }

  ghost predicate OwnerEntryOver(before: State, after: State, unreadable: set<string>, e: Entry) {
    e.dir && Plain(e.name) ==> OwnerOver(before, after, e.name, unreadable)
  }

  ghost predicate OwnerEntriesOver(before: State, after: State, unreadable: set<string>, entries: seq<Entry>, i: nat)
    requires i <= |entries|
  {
    forall k :: 0 <= k < i ==> OwnerEntryOver(before, after, unreadable, entries[k])
  }

  lemma OwnerStaysOver(first: State, before: State, after: State, owner: string, unreadable: set<string>)
    requires Shrunk(first, before) && Shrunk(before, after)
    requires OwnerOver(first, before, owner, unreadable) || OwnerOver(before, after, owner, unreadable)
    ensures OwnerOver(first, after, owner, unreadable)
  {
    if owner !in unreadable {
      forall run | 1 <= run <= MAX_INT && owner + "/" + Itoa(run) !in unreadable
        ensures RunOver(first, after, owner, run) {
        RunStaysOver(first, before, after, owner, run);
      }
    }
  }

  lemma OwnerEntryStaysOver(first: State, before: State, after: State, unreadable: set<string>, e: Entry)
    requires Shrunk(first, before) && Shrunk(before, after)
    requires OwnerEntryOver(first, before, unreadable, e) || OwnerEntryOver(before, after, unreadable, e)
    ensures OwnerEntryOver(first, after, unreadable, e)
  {
    if e.dir && Plain(e.name) {
      OwnerStaysOver(first, before, after, e.name, unreadable);
    }
  }

  lemma NextOwner(first: State, before: State, after: State, unreadable: set<string>, entries: seq<Entry>, i: nat)
    requires i < |entries| && Shrunk(first, before) && Shrunk(before, after)
    requires OwnerEntriesOver(first, before, unreadable, entries, i) &&
        OwnerEntryOver(before, after, unreadable, entries[i])
    ensures OwnerEntriesOver(first, after, unreadable, entries, i + 1)
  {
    forall k | 0 <= k < i ensures OwnerEntryOver(first, after, unreadable, entries[k]) {
      OwnerEntryStaysOver(first, before, after, unreadable, entries[k]);
    }
    OwnerEntryStaysOver(first, before, after, unreadable, entries[i]);
  }

  lemma OwnersAreAll(before: State, after: State, unreadable: set<string>, entries: seq<Entry>)
    requires forall owner, run, file :: Lies(before, owner, run, file) ==> Entry(owner, true) in entries
    requires OwnerEntriesOver(before, after, unreadable, entries, |entries|)
    ensures forall owner :: Plain(owner) ==> OwnerOver(before, after, owner, unreadable)
  {
    forall owner, run | Plain(owner) && owner !in unreadable && 1 <= run <= MAX_INT &&
        owner + "/" + Itoa(run) !in unreadable
      ensures RunOver(before, after, owner, run)
    {
      forall file | Plain(file) ensures Over(before, after, NoteOf(owner, run, file)) {
        if NoteOf(owner, run, file) in before.files {
          NoteLies(before, owner, run, file);
          var k :| 0 <= k < |entries| && entries[k] == Entry(owner, true);
          assert OwnerEntryOver(before, after, unreadable, entries[k]);
        }
      }
    }
  }

  method AbortOwnerEntry(w: World, e: Entry) returns (n: nat, ok: bool)
    requires w.Valid() && w.remote
    modifies w`now, w`past, w`stuck, w`failed
    ensures w.Valid() && old(w.past) <= w.past && Aborted(old(w.now), w.now, n, ok)
    ensures ok ==> OwnerEntryOver(old(w.now), w.now, w.unreadable, e)
    ensures !e.dir || e.name in w.unreadable ==> n == 0 && ok && w.now == old(w.now)
    ensures ByNote(old(w.now), w.now, w.unreadable)
    ensures old(w.failed) <= w.failed && (w.failed == old(w.failed) ==> ok)
  {
    if !e.dir || !Plain(e.name) {
      return 0, true;
    }
    n, ok := AbortOwner(w, e.name);
  }

  // No note names an upload that is still there, where it can be read.
  ghost predicate AllOver(before: State, after: State, unreadable: set<string>) {
    forall owner :: Plain(owner) ==> OwnerOver(before, after, owner, unreadable)
  }

  // The uppermost directory can be read, and none in it.
  ghost predicate NothingReadable(s: State, others: map<string, seq<Entry>>, unreadable: set<string>) {
    "" !in unreadable && forall owner :: IsOwnerDir(s, others, owner) ==> owner in unreadable
  }

  // The uploads that the notes in the directory name.
  method AbortAllNoted(w: World) returns (n: nat, ok: bool)
    requires w.Valid() && w.remote
    modifies w`now, w`past, w`stuck, w`failed
    ensures w.Valid() && old(w.past) <= w.past && Aborted(old(w.now), w.now, n, ok)
    ensures ok ==> AllOver(old(w.now), w.now, w.unreadable)
    ensures NothingReadable(old(w.now), w.others, w.unreadable) ==> n == 0 && ok && w.now == old(w.now)
    ensures ByNote(old(w.now), w.now, w.unreadable)
    ensures old(w.failed) <= w.failed && (w.failed == old(w.failed) && "" !in w.unreadable ==> ok)
  {
    n, ok := 0, true;
    var owners := ReadAll(w);
    if owners.None? {
      return 0, false;
    }
    for i := 0 to |owners.value|
      invariant old(w.failed) <= w.failed && (w.failed == old(w.failed) ==> ok)
      invariant w.Valid() && old(w.past) <= w.past && Aborted(old(w.now), w.now, n, ok)
      invariant ok ==> OwnerEntriesOver(old(w.now), w.now, w.unreadable, owners.value, i)
      invariant NothingReadable(old(w.now), w.others, w.unreadable) ==> n == 0 && ok && w.now == old(w.now)
      invariant ByNote(old(w.now), w.now, w.unreadable)
    {
      ghost var before := w.now;
      var more, done := AbortOwnerEntry(w, owners.value[i]);
      if ok && done {
        NextOwner(old(w.now), before, w.now, w.unreadable, owners.value, i);
      }
      ByNoteTwice(old(w.now), before, w.now, w.unreadable);
      AbortedTwice(old(w.now), before, w.now, n, ok, more, done);
      n, ok := n + more, ok && done;
    }
    if ok {
      OwnersAreAll(old(w.now), w.now, w.unreadable, owners.value);
    }
  }

  // No upload of a run that was listed is still there.
  ghost predicate ListedOver(after: State, listed: seq<Upload>, i: nat)
    requires i <= |listed|
  {
    forall k :: 0 <= k < i ==> (RunShaped(listed[k].key) ==> listed[k] !in after.uploads)
  }

  method AbortOneListed(w: World, u: Upload) returns (n: nat, ok: bool)
    requires w.Valid()
    modifies w`now, w`past, w`stuck, w`failed
    ensures w.Valid() && old(w.past) <= w.past && Aborted(old(w.now), w.now, n, ok)
    ensures ok && RunShaped(u.key) ==> u !in w.now.uploads
    ensures w.now.uploads == old(w.now).uploads || w.now.uploads == old(w.now).uploads - {u}
    ensures old(w.failed) <= w.failed && (w.failed == old(w.failed) ==> ok)
  {
    n, ok := 0, true;
    if RunShaped(u.key) {
      ok := EndUpload(w, u);
      n := if ok then 1 else 0;
    }
  }

  lemma NextListed(before: State, after: State, listed: seq<Upload>, i: nat)
    requires i < |listed| && Shrunk(before, after) && ListedOver(before, listed, i)
    requires RunShaped(listed[i].key) ==> listed[i] !in after.uploads
    ensures ListedOver(after, listed, i + 1)
  {
  }

  // The uploads the bucket lists under the keys of runs.
  method AbortListed(w: World, listed: seq<Upload>) returns (n: nat, ok: bool)
    requires w.Valid()
    modifies w`now, w`past, w`stuck, w`failed
    ensures w.Valid() && old(w.past) <= w.past && Aborted(old(w.now), w.now, n, ok)
    ensures ok ==> ListedOver(w.now, listed, |listed|)
    ensures listed == [] ==> n == 0 && ok && w.now == old(w.now)
    ensures forall u :: u in old(w.now).uploads && u !in w.now.uploads ==> u in listed
    ensures old(w.failed) <= w.failed && (w.failed == old(w.failed) ==> ok)
  {
    n, ok := 0, true;
    for i := 0 to |listed|
      invariant old(w.failed) <= w.failed && (w.failed == old(w.failed) ==> ok)
      invariant w.Valid() && old(w.past) <= w.past && Aborted(old(w.now), w.now, n, ok)
      invariant ok ==> ListedOver(w.now, listed, i)
      invariant i == 0 ==> n == 0 && ok && w.now == old(w.now)
      invariant forall u :: u in old(w.now).uploads && u !in w.now.uploads ==> u in listed
    {
      ghost var before := w.now;
      var more, done := AbortOneListed(w, listed[i]);
      if ok && done {
        NextListed(before, w.now, listed, i);
      }
      AbortedTwice(old(w.now), before, w.now, n, ok, more, done);
      n, ok := n + more, ok && done;
    }
  }

  /**
   What an agent that died left unfinished is aborted, and nothing else is: no object is touched,
   no file but the notes of what is gone, no upload but those of runs that were noted where the
   directory can be read, or are listed. Without an error none of these is left. What the bucket
   lists is an input: not every service lists alike.
   */
  method AbortLeftovers(w: World, listing: Option<seq<Upload>>) returns (n: nat, ok: bool)
    requires w.Valid()
    modifies w`now, w`past, w`stuck, w`failed
    ensures w.Valid() && old(w.past) <= w.past && Aborted(old(w.now), w.now, n, ok)
    ensures !w.remote ==> n == 0 && ok && w.now == old(w.now)
    ensures ok && w.remote ==> AllOver(old(w.now), w.now, w.unreadable)
    ensures ok && w.remote ==> listing.Some? && ListedOver(w.now, listing.value, |listing.value|)
    ensures NothingReadable(old(w.now), w.others, w.unreadable) && listing == Some([]) ==>
      n == 0 && ok && w.now == old(w.now)
    ensures forall u :: u in old(w.now).uploads && u !in w.now.uploads ==>
      (listing.Some? && u in listing.value) || (Noted(old(w.now), u) && RunKey(u.key, w.unreadable))
    ensures old(w.failed) <= w.failed
    ensures w.failed == old(w.failed) && (w.remote ==> listing.Some? && "" !in w.unreadable) ==> ok
  {
    if !w.remote {
      return 0, true;
    }
    n, ok := AbortAllNoted(w);
    if listing.None? {
      return n, false;
    }
    ghost var before := w.now;
    var more, done := AbortListed(w, listing.value);
    if ok {
      StillOver(old(w.now), before, w.now, w.unreadable);
    }
    AbortedTwice(old(w.now), before, w.now, n, ok, more, done);
    n, ok := n + more, ok && done;
  }

  lemma StillOver(first: State, before: State, after: State, unreadable: set<string>)
    requires Shrunk(first, before) && Shrunk(before, after) && AllOver(first, before, unreadable)
    ensures AllOver(first, after, unreadable)
  {
    forall owner | Plain(owner) ensures OwnerOver(first, after, owner, unreadable) {
      OwnerStaysOver(first, before, after, owner, unreadable);
    }
  }
}
