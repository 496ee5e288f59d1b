/** What becomes of a backup when the agent dies in the middle of it, and of the runs after it. */
module Recovery {
  import opened Options
  import opened Text
  import opened BackupWorld
  import opened Leftovers

  lemma NotedIsOver(before: State, after: State, unreadable: set<string>, u: Upload)
    requires Noted(before, u) && RunKey(u.key, unreadable) && AllOver(before, after, unreadable)
    ensures u !in after.uploads
  {
    var owner, run, file :| FileOf(u.key, owner, run, file) && owner !in unreadable &&
        owner + "/" + Itoa(run) !in unreadable;
    SuffixOff(u.key, NOTE);
    assert OwnerOver(before, after, owner, unreadable);
    assert RunOver(before, after, owner, run);
    assert Over(before, after, NoteOf(owner, run, file));
  }

  // A run's file, wherever its directory.
  ghost predicate OfARun(key: string) {
    exists owner, run, file :: FileOf(key, owner, run, file)
  }

  /**
   Without an error, an upload that was noted for a run's file is left if and only if the run's
   directory cannot be read and the bucket does not list the upload.
   */
  method LeftBehind(w: World, listing: Option<seq<Upload>>, ghost u: Upload) returns (ok: bool)
    requires w.Valid() && w.remote && u in w.now.uploads && Noted(w.now, u) && OfARun(u.key)
    modifies w`now, w`past, w`stuck, w`failed
    ensures ok ==> listing.Some? && (u in w.now.uploads <==> !RunKey(u.key, w.unreadable) && u !in listing.value)
    ensures w.failed == old(w.failed) && listing.Some? && "" !in w.unreadable ==> ok
  {
    var n;
    n, ok := AbortLeftovers(w, listing);
    ghost var owner, run, file :| FileOf(u.key, owner, run, file);
    RunKeyRoundTrip(owner, run, file);
    if RunKey(u.key, w.unreadable) && ok {
      NotedIsOver(old(w.now), w.now, w.unreadable, u);
    }
    if ok && u in listing.value {
      var k :| 0 <= k < |listing.value| && listing.value[k] == u;
    }
  }

  /** A directory that cannot be read, and a bucket that lists nothing: no error, and the noted upload stays. */
  method PassedOver() returns (w: World, u: Upload, n: nat, ok: bool)
    ensures u == Upload("db/1/data.tar", "7")
    ensures ok && n == 0 && w.now == Interrupted(u) && Noted(w.now, u)
  {
    u := Upload("db/1/data.tar", "7");
    SevenIsAnId();
    InterruptedIsSound(u);
    assert u.key + NOTE == Key("db", "1", "data.tar.upload");
    OnlyOwner(Interrupted(u), "db", "1", "data.tar.upload");
    w := new World(Interrupted(u), true, {}, {}, {"db"}, map[]);
    n, ok := AbortLeftovers(w, Some([]));
  }

  lemma OnlyOwner(s: State, owner: string, run: string, file: string)
    requires s.files.Keys == {Key(owner, run, file)} && '/' !in owner && '/' !in run && '/' !in file && owner != ""
    ensures NothingReadable(s, map[], {owner})
  {
    KeySplits(owner, run, file);
    forall other | IsOwnerDir(s, map[], other) ensures other == owner {
      var r, f :| Lies(s, other, r, f);
      OnlyPlace(s, Key(owner, run, file), other, r, f);
      assert [owner, run, file][0] == other;
    }
  }

  lemma OnlyPlace(s: State, name: string, owner: string, run: string, file: string)
    requires s.files.Keys == {name} && Lies(s, owner, run, file)
    ensures Split(name, '/') == [owner, run, file]
  {
  }

  // No upload of a run that can be read has parts, save those that nothing is known of.
  ghost predicate NoParts(s: State, lost: set<Upload>, unreadable: set<string>) {
    forall u :: u in s.uploads && RunKey(u.key, unreadable) && u !in lost ==> s.uploads[u] == map[]
  }

  /**
   What the notes promise: when no abort failed, no upload of a run whose directory can be read
   is left with parts, wherever the agent died before.
   */
  lemma NothingIsCharged(before: State, after: State, archives: set<(string, string)>, remote: bool, lost: set<Upload>,
                         unreadable: set<string>)
    requires Sound(before, archives, remote, lost) && Shrunk(before, after) && AllOver(before, after, unreadable)
    ensures NoParts(after, lost, unreadable)
  {
    forall u | u in after.uploads && RunKey(u.key, unreadable) && u !in lost ensures after.uploads[u] == map[] {
      if Noted(before, u) {
        NotedIsOver(before, after, unreadable, u);
      }
    }
  }

  /**
   An agent dies in any state it was ever in, and the next one starts there: what is under a final
   name is still complete, and without an error no upload is left with parts whose run can be read.
   */
  method Restart(ghost w: World, at: State, remote: bool, unreadable: set<string>, others: map<string, seq<Entry>>,
                 listing: Option<seq<Upload>>)
    returns (next: World, n: nat, ok: bool)
    requires w.Valid() && at in w.past && remote == w.remote
    ensures next.Valid() && fresh(next) && next.archives == w.archives && next.remote == remote
    ensures next.now.objects == at.objects
    ensures forall name :: IsFinal(name) && name in at.files ==>
              && name in next.now.files && next.now.files[name] == at.files[name]
              && Complete(next.now, w.archives, remote, name)
    ensures ok && remote ==> NoParts(next.now, w.lost, unreadable)
    ensures next.failed == 0 && (remote ==> listing.Some? && "" !in unreadable) ==> ok
  {
    next := new World(at, remote, w.archives, w.lost, unreadable, others);
    n, ok := AbortLeftovers(next, listing);
    if ok && remote {
      NothingIsCharged(at, next.now, w.archives, remote, w.lost, unreadable);
    }
  }
}
