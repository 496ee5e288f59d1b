/** Where backups are kept (agent/internal/backup/storage.go): writing a file of a run. */
module Storage {
  import opened Text
  import opened BackupWorld
  import opened Multipart

  lemma SameEnd(a: string, b: string, end: string)
    requires a + end == b + end
    ensures a == b
  {
    assert a == (a + end)[..|a|] && b == (b + end)[..|b|];
  }

  lemma Suffixes(final: string)
    ensures HasSuffix(final + PARTIAL, PARTIAL) && !HasSuffix(final + PARTIAL, NOTE)
    ensures HasSuffix(final + NOTE, NOTE) && !HasSuffix(final + NOTE, PARTIAL)
    ensures final + PARTIAL != final + NOTE && final != final + PARTIAL && final != final + NOTE
  {
    SuffixOn(final, PARTIAL);
    SuffixOn(final, NOTE);
    PartialIsNoNote(final + PARTIAL);
    PartialIsNoNote(final + NOTE);
  }

  // Nothing but the partial file has changed, which holds this much.
  ghost predicate Copied(before: State, after: State, partial: string, content: string) {
    && after == before.(files := after.files) && FilesKept(before, after, {partial})
    && partial in after.files && after.files[partial] == content
  }

  // The copy to the partial file, until it is whole or something fails.
  method Copy(w: World, partial: string, archive: string) returns (ok: bool)
    requires w.Valid() && HasSuffix(partial, PARTIAL)
    modifies w`now, w`past, w`failed
    ensures w.Valid() && old(w.past) <= w.past
    ensures w.now == old(w.now).(files := w.now.files) && FilesKept(old(w.now), w.now, {partial})
    ensures ok ==> partial in w.now.files && w.now.files[partial] == archive
    ensures old(w.failed) <= w.failed && (w.failed == old(w.failed) ==> ok)
  {
    PartialIsNoNote(partial);
    ok := w.Create(partial);
    if !ok {
      return;
    }
    var pos := 0;
    while pos < |archive|
      invariant w.Valid() && old(w.past) <= w.past && pos <= |archive|
      invariant Copied(old(w.now), w.now, partial, archive[..pos]) && old(w.failed) <= w.failed
    {
      var size: int := *;
      var read := w.Works();
      if !read {
        return false;
      }
      var end := if 0 < size < |archive| - pos then pos + size else |archive|;
      ok := CopyPiece(w, partial, archive[..pos], archive[pos..end], old(w.now));
      if !ok {
        return;
      }
      assert archive[..pos] + archive[pos..end] == archive[..end];
      pos := end;
    }
    assert archive[..|archive|] == archive;
    ok := true;
  }

  method CopyPiece(w: World, partial: string, ghost content: string, piece: string, ghost before: State)
    returns (ok: bool)
    requires w.Valid() && HasSuffix(partial, PARTIAL) && Copied(before, w.now, partial, content)
    modifies w`now, w`past, w`failed
    ensures w.Valid() && old(w.past) <= w.past
    ensures partial in w.now.files && Copied(before, w.now, partial, w.now.files[partial])
    ensures ok ==> w.now.files[partial] == content + piece
    ensures w.failed == old(w.failed) + if ok then 0 else 1
  {
    PartialIsNoNote(partial);
    ok := w.Append(partial, piece);
  }

  // What sending has changed.
  ghost predicate Sent(before: State, after: State, final: string, archive: string, c: Creation, r: Outcome) {
    && FilesKept(before, after, {final + NOTE})
    && UploadsAfter(before, after, final, archive, c, r)
    && (r.PartsRemain? ==> c.Created? && NoteSays(before, after, final + NOTE, c.id))
    && (after.objects == before.objects || after.objects == before.objects[final := archive])
    && (r.Done? ==> after.objects == before.objects[final := archive])
  }

  // To the bucket, with a note beside the file for as long as it takes.
  method ToBucket(w: World, final: string, archive: string, c: Creation) returns (r: Outcome)
    requires w.Valid() && Dispensable(w.now, w.lost, final + NOTE) && (final, archive) in w.archives
    modifies w`now, w`past, w`stuck, w`sent, w`failed
    ensures w.Valid() && old(w.past) <= w.past
    ensures Sent(old(w.now), w.now, final, archive, c, r)
    ensures r != PartsRemain ==> final + NOTE !in w.now.files || final + NOTE in w.stuck
    ensures old(w.failed) <= w.failed
    ensures w.failed == old(w.failed) && Sendable(old(w.now), final, archive, c) ==> r.Done?
  {
    ghost var before := w.now;
    r := Send(w, final, archive, c);
    if r != PartsRemain {
      OnlyItsOwn(before, w.now, final, archive, c, r, w.lost);
      SuffixOn(final, NOTE);
      var _ := w.RemoveNote(final + NOTE);
    }
  }

  // What a file's note names has no parts once its upload is over.
  lemma OnlyItsOwn(before: State, now: State, final: string, archive: string, c: Creation, r: Outcome,
                   lost: set<Upload>)
    requires Dispensable(before, lost, final + NOTE) && UploadsAfter(before, now, final, archive, c, r) &&
        r != PartsRemain
    requires forall u :: u in before.uploads && before.uploads[u] != map[] ==> u in lost || Noted(before, u)
    ensures Dispensable(now, lost, final + NOTE)
  {
  }

  // The uploads after all: as sending left them, or untouched.
  ghost predicate UploadsWritten(before: State, after: State, final: string, archive: string, c: Creation, r: Outcome,
                                 remote: bool)
  {
    || (remote && UploadsAfter(before, after, final, archive, c, r))
    || (after.uploads == before.uploads && (if remote then r.Failed? else !r.PartsRemain?))
  }

  // The note is gone, unless parts remain, its removal failed, or nothing was sent.
  ghost predicate NoteOver(before: State, after: State, note: string, r: Outcome, remote: bool, stuck: set<string>) {
    note !in after.files || r.PartsRemain? || note in stuck
    || (note in before.files && after.files[note] == before.files[note] && (r.Failed? || !remote))
  }

  // What Write may have changed by the time it is over.
  ghost predicate Written(before: State, after: State, final: string, archive: string, c: Creation, r: Outcome,
                          remote: bool) {
    && FilesKept(before, after, {final + NOTE, final + PARTIAL} + if r.Done? then {final} else {})
    && UploadsWritten(before, after, final, archive, c, r, remote)
    && (after.objects == before.objects || after.objects == before.objects[final := archive])
    && (r.Done? ==> final in after.files && after.files[final] == archive)
    && (r.Done? && remote ==> after.objects == before.objects[final := archive])
  }

  // The archive has its copy, and its object, before it gets its name.
  ghost predicate Staged(before: State, after: State, final: string, archive: string, c: Creation, r: Outcome,
                         remote: bool) {
    && FilesKept(before, after, {final + NOTE, final + PARTIAL})
    && UploadsWritten(before, after, final, archive, c, r, remote)
    && (after.objects == before.objects || after.objects == before.objects[final := archive])
    && (r.Done? ==> final + PARTIAL in after.files && after.files[final + PARTIAL] == archive)
    && (r.Done? && remote ==> after.objects == before.objects[final := archive])
  }

  lemma CopiedThenSent(before: State, copied: State, after: State, final: string, archive: string, c: Creation,
                       r: Outcome)
    requires Copied(before, copied, final + PARTIAL, archive) && Sent(copied, after, final, archive, c, r)
    ensures Staged(before, after, final, archive, c, r, true)
  {
    Suffixes(final);
  }

  // The partial file is no note.
  lemma StillDispensable(before: State, copied: State, final: string, lost: set<Upload>)
    requires Dispensable(before, lost, final + NOTE)
    requires copied == before.(files := copied.files) && FilesKept(before, copied, {final + PARTIAL})
    ensures Dispensable(copied, lost, final + NOTE)
  {
    Suffixes(final);
  }

  method Stage(w: World, final: string, archive: string, c: Creation) returns (r: Outcome)
    requires w.Valid() && Dispensable(w.now, w.lost, final + NOTE) && (final, archive) in w.archives
    modifies w`now, w`past, w`stuck, w`sent, w`failed
    ensures w.Valid() && old(w.past) <= w.past
    ensures Staged(old(w.now), w.now, final, archive, c, r, w.remote)
    ensures NoteOver(old(w.now), w.now, final + NOTE, r, w.remote, w.stuck)
    ensures old(w.failed) <= w.failed
    ensures w.failed == old(w.failed) && (w.remote ==> Sendable(old(w.now), final, archive, c)) ==> r.Done?
  {
    Suffixes(final);
    var ok := Copy(w, final + PARTIAL, archive);
    if !ok {
      return Failed;
    }
    ghost var copied := w.now;
    StillDispensable(old(w.now), copied, final, w.lost);
    if !w.remote {
      return Done;
    }
    r := ToBucket(w, final, archive, c);
    CopiedThenSent(old(w.now), copied, w.now, final, archive, c, r);
  }

  // All of Write but for the removal of the partial file.
  method Attempt(w: World, final: string, archive: string, c: Creation) returns (r: Outcome)
    requires w.Valid() && IsFinal(final) && Dispensable(w.now, w.lost, final + NOTE) && (final, archive) in w.archives
    modifies w`now, w`past, w`stuck, w`sent, w`failed
    ensures w.Valid() && old(w.past) <= w.past
    ensures Written(old(w.now), w.now, final, archive, c, r, w.remote)
    ensures NoteOver(old(w.now), w.now, final + NOTE, r, w.remote, w.stuck)
    ensures old(w.failed) <= w.failed
    ensures w.failed == old(w.failed) && (w.remote ==> Sendable(old(w.now), final, archive, c)) ==> r.Done?
  {
    Suffixes(final);
    r := Stage(w, final, archive, c);
    if r != Done {
      return;
    }
    var closed := w.Works();
    if !closed {
      return Failed;
    }
    ghost var staged := w.now;
    var ok := w.Rename(final + PARTIAL, final);
    r := if ok then Done else Failed;
    NameGiven(old(w.now), staged, w.now, final, archive, c, ok, w.remote);
  }

  // A file that is staged, and gets its name or does not.
  lemma NameGiven(before: State, staged: State, after: State, final: string, archive: string, c: Creation, ok: bool,
                  remote: bool)
    requires Staged(before, staged, final, archive, c, Done, remote)
    requires after == if !ok then staged
      else staged.(files := staged.files[final := staged.files[final + PARTIAL]] - {final + PARTIAL})
    ensures Written(before, after, final, archive, c, if ok then Done else Failed, remote)
  {
    Suffixes(final);
  }

  lemma NamedByItsNote(s: State, lost: set<Upload>, final: string)
    requires NotedBy(s, final) <= lost
    ensures Dispensable(s, lost, final + NOTE)
  {
    forall u | u in s.uploads && u.key + NOTE == final + NOTE && Noted(s, u) ensures u in lost {
      SameEnd(u.key, final, NOTE);
      assert u in NotedBy(s, final);
    }
  }

  /**
   Stores an archive as a file of a run, in the directory and in the bucket.
   Whenever the agent dies in between, what is under a final name is complete
   in both, and every upload with parts is noted (World.Valid of all that was),
   save those that only an earlier note of this very file named.
   */
  method Write(w: World, final: string, archive: string, c: Creation) returns (r: Outcome)
    requires w.Valid() && IsFinal(final)
    modifies w
    ensures w.Valid() && old(w.past) <= w.past && w.archives == old(w.archives) + {(final, archive)}
    ensures w.lost == old(w.lost) + NotedBy(old(w.now), final)
    ensures Written(old(w.now), w.now, final, archive, c, r, w.remote)
    ensures NoteOver(old(w.now), w.now, final + NOTE, r, w.remote, w.stuck)
    ensures final + PARTIAL !in w.now.files || final + PARTIAL in w.stuck
    ensures old(w.failed) <= w.failed
    ensures w.failed == old(w.failed) && (w.remote ==> Sendable(old(w.now), final, archive, c)) ==> r.Done?
  {
    w.Expect(final, archive);
    w.LoseTrackOf(NotedBy(w.now, final));
    NamedByItsNote(w.now, w.lost, final);
    r := Attempt(w, final, archive, c);
    Suffixes(final);
    var _ := w.RemovePartial(final + PARTIAL);
  }

  /**
   What an earlier note of the file named, and nothing else, is lost track of when
   the file is written after all: it is still there, and no note names it.
   */
  lemma SuccessLosesTrack(before: State, after: State, final: string, archive: string, c: Creation, stuck: set<string>,
                          u: Upload)
    requires Written(before, after, final, archive, c, Done, true)
    requires NoteOver(before, after, final + NOTE, Done, true, stuck) && final + NOTE !in stuck
    requires IsFinal(final) && u in before.uploads && Noted(before, u)
    ensures u in after.uploads && (Noted(after, u) <==> u.key != final)
  {
    NoteIsNoPartial(u.key, final);
    if u.key == final {
      NoteIsGone(before, after, final, stuck);
    } else {
      OtherNote(u.key, final);
    }
  }

  /**
   What becomes of an upload that was noted when sending began, however that ends: it is still there with
   its parts. Of another file it is still noted; of this one it is not, unless parts of the new upload
   remain and the note could not be overwritten whole.
   */
  lemma SendingLosesTrack(before: State, after: State, final: string, archive: string, c: Creation, r: Outcome,
                          stuck: set<string>, u: Upload)
    requires Sent(before, after, final, archive, c, r) && final + NOTE !in stuck
    requires r != PartsRemain ==> final + NOTE !in after.files || final + NOTE in stuck
    requires u in before.uploads && Noted(before, u)
    ensures u in after.uploads && after.uploads[u] == before.uploads[u]
    ensures u.key != final ==> Noted(after, u)
    ensures u.key == final && Noted(after, u) ==>
      r == PartsRemain && (after.files[final + NOTE] == before.files[final + NOTE] || after.files[final + NOTE] < c.id)
  {
    if u.key != final { OtherNote(u.key, final); }
    StillThere(before, after, final, archive, c, r, u);
    if r == PartsRemain && u.key == final && Noted(after, u) {
      assert u.id != c.id;
      ProperPrefix(after.files[final + NOTE], c.id);
    }
  }

  lemma ProperPrefix(s: string, whole: string)
    ensures s <= whole && s != whole ==> s < whole
  {
    if s <= whole && |s| == |whole| {
      assert whole[..|s|] == whole;
    }
  }

  lemma StillThere(before: State, after: State, final: string, archive: string, c: Creation, r: Outcome, u: Upload)
    requires UploadsAfter(before, after, final, archive, c, r) && u in before.uploads
    ensures u in after.uploads && after.uploads[u] == before.uploads[u]
    ensures r == PartsRemain ==> TrimSpace(c.id) == c.id && u != Upload(final, c.id)
  {
    if r == PartsRemain {
      assert u in after.uploads - {Upload(final, c.id)};
    }
  }

  /** An upload with a part, of an earlier attempt at a file: once the file is written, no note names it. */
  method EarlierNote() returns (w: World, r: Outcome, u: Upload)
    ensures u == Upload("db/1/data.tar", "7")
    ensures r == Done && u.key + NOTE !in w.stuck ==>
      u in w.now.uploads && w.now.uploads[u] == map[1 := "x"] && !Noted(w.now, u)
  {
    u := Upload("db/1/data.tar", "7");
    SevenIsAnId();
    InterruptedIsSound(u);
    w := new World(Interrupted(u), true, {}, {}, {}, map[]);
    DataIsFinal();
    r := Write(w, u.key, "y", NotCreated);
    if r == Done && u.key + NOTE !in w.stuck {
      SuccessLosesTrack(Interrupted(u), w.now, u.key, "y", NotCreated, w.stuck, u);
    }
  }

  lemma DataIsFinal()
    ensures IsFinal("db/1/data.tar")
  {
    var s := "db/1/data.tar";
    if HasSuffix(s, PARTIAL) { LastOf(s, PARTIAL); }
    if HasSuffix(s, NOTE) { LastOf(s, NOTE); }
    assert s[0] == 'd' && MARKER[0] == '_' && s[|s| - 1] == 'r';
  }

  lemma NoteIsGone(before: State, after: State, final: string, stuck: set<string>)
    requires NoteOver(before, after, final + NOTE, Done, true, stuck) && final + NOTE !in stuck
    ensures final + NOTE !in after.files
  {
  }

  lemma OtherNote(key: string, final: string)
    requires key != final
    ensures key + NOTE != final + NOTE
  {
    if key + NOTE == final + NOTE { SameEnd(key, final, NOTE); }
  }

  lemma NoteIsNoPartial(key: string, final: string)
    requires IsFinal(final)
    ensures key + NOTE != final + PARTIAL && key + NOTE != final
  {
    Suffixes(key);
    Suffixes(final);
  }
}
