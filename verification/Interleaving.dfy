/**
Many files written at once (Write in agent/internal/backup/storage.go, which the
engine calls from one goroutine for each application it backs up): every
interleaving of the steps of any number of writes with different names.
*/
module Interleaving {
  import opened Text
  import opened BackupWorld
  import Storage

  // The archives that are expected, by the name they go under.
  type Archives = set<(string, string)>

  // How far a write is.
  datatype Stage =
    | Copying
    | Copied
    | Created(id: string) // an upload, whose note may be half written
    | Sending(id: string) // its id is noted
    | Stored              // the object is there
    | Ending              // its upload is over
    | Over

  datatype Writer = Writer(final: string, archive: string, stage: Stage) {
    function Partial(): string { final + PARTIAL }
    function Note(): string { final + NOTE }
  }

  // What a writer knows of the files and the bucket.
  ghost predicate Knows(s: State, w: Writer, remote: bool, lost: set<Upload>) {
    && (!w.stage.Copying? && !w.stage.Ending? && !w.stage.Over? ==>
          w.Partial() in s.files && s.files[w.Partial()] == w.archive)
    && (!w.stage.Sending? && !w.stage.Over? ==> Dispensable(s, lost, w.Note()))
    && match w.stage
       case Created(id) =>
         remote && id != "" && TrimSpace(id) == id
         && (Upload(w.final, id) in s.uploads ==> s.uploads[Upload(w.final, id)] == map[])
       case Sending(id) => remote && Noted(s, Upload(w.final, id))
       case Stored => remote && w.final in s.objects && s.objects[w.final] == w.archive
       case _ => true
  }

  // One step of a writer; a request that seems to have failed may have had its effect.
  ghost predicate Moves(s: State, t: State, w: Writer, v: Writer, remote: bool) {
    v.final == w.final && v.archive == w.archive
    && match w.stage
       case Copying =>
         || (v.stage.Copying? && exists k: nat :: CopiesTo(s, t, w, k))
         || (v.stage.Copied? && t == s && w.Partial() in s.files && s.files[w.Partial()] == w.archive)
         || Stops(s, t, w, v)
       case Copied => Hands(s, t, w, v, remote)
       case Created(id) =>
         || (v.stage == w.stage && exists k: nat :: NotesTo(s, t, w, id, k))
         || (v.stage == Sending(id) && t == s && w.Note() in s.files && s.files[w.Note()] == id)
         || Aborts(s, t, w, v, id)
       case Sending(id) =>
         || (v.stage == w.stage && exists n, data :: Puts(s, t, Upload(w.final, id), n, data))
         || ((v.stage.Stored? || v.stage == w.stage) && Completes(s, t, w, Upload(w.final, id), v.stage.Stored?))
         || Aborts(s, t, w, v, id)
       case Stored =>
         || (v.stage.Stored? && t == s.(files := s.files - {w.Note()}))
         || (v.stage.Over? && Renames(s, t, w))
         || Stops(s, t, w, v)
       case Ending =>
         || (v.stage.Ending? && t == s.(files := s.files - {w.Note()}))
         || Stops(s, t, w, v)
       case Over => v.stage.Over? && (t == s || t == s.(files := s.files - {w.Partial()}))
  }

  // The copied archive goes to the bucket, or under its name where there is none.
  ghost predicate Hands(s: State, t: State, w: Writer, v: Writer, remote: bool) {
    || (remote && (v.stage.Stored? || v.stage.Copied?) && t == s.(objects := s.objects[w.final := w.archive]))
    || (remote && v.stage.Created? && Opened(s, w.final, v.stage.id, t)
        && v.stage.id != "" && TrimSpace(v.stage.id) == v.stage.id)
    || (remote && v.stage.Ending? && (t == s || exists id :: Opened(s, w.final, id, t)))
    || (!remote && v.stage.Over? && Renames(s, t, w))
    || Stops(s, t, w, v)
  }

  ghost predicate CopiesTo(s: State, t: State, w: Writer, k: nat) {
    k <= |w.archive| && t == s.(files := s.files[w.Partial() := w.archive[..k]])
  }

  ghost predicate NotesTo(s: State, t: State, w: Writer, id: string, k: nat) {
    k <= |id| && t == s.(files := s.files[w.Note() := id[..k]])
  }

  ghost predicate Renames(s: State, t: State, w: Writer) {
    w.Partial() in s.files
    && t == s.(files := s.files[w.final := s.files[w.Partial()]] - {w.Partial()})
  }

  ghost predicate Puts(s: State, t: State, u: Upload, n: int, data: string) {
    u in s.uploads && t == s.(uploads := s.uploads[u := s.uploads[u][n := data]])
  }

  // The parts are put together, whether or not the answer says so.
  ghost predicate Completes(s: State, t: State, w: Writer, u: Upload, answered: bool) {
    || (u in s.uploads && t == s.(objects := s.objects[w.final := w.archive], uploads := s.uploads - {u}))
    || (!answered && t == s)
  }

  // An abort that is answered ends the upload; after one that is not, its note stays.
  ghost predicate Aborts(s: State, t: State, w: Writer, v: Writer, id: string) {
    var u := Upload(w.final, id);
    || (v.stage.Ending? && t == s.(uploads := s.uploads - {u}))
    || (v.stage.Over? && (t == s || t == s.(uploads := s.uploads - {u})))
  }

  // A write that fails removes its partial file, or fails at that.
  ghost predicate Stops(s: State, t: State, w: Writer, v: Writer) {
    v.stage.Over? && (t == s || t == s.(files := s.files - {w.Partial()}))
  }

  // Writers of different names, whose archives are the ones expected.
  ghost predicate Apart(writers: seq<Writer>, archives: Archives) {
    && (forall i :: 0 <= i < |writers| ==>
          IsFinal(writers[i].final) && (writers[i].final, writers[i].archive) in archives)
    && (forall i, j :: 0 <= i < j < |writers| ==> writers[i].final != writers[j].final)
  }

  ghost predicate Inv(s: State, writers: seq<Writer>, archives: Archives, remote: bool, lost: set<Upload>) {
    && Sound(s, archives, remote, lost) && Apart(writers, archives)
    && forall i :: 0 <= i < |writers| ==> Knows(s, writers[i], remote, lost)
  }

  // Nothing has changed but what is under a writer's names.
  ghost predicate Touches(s: State, t: State, final: string) {
    TouchesFiles(s, t, final) && TouchesObjects(s, t, final) && TouchesUploads(s, t, final)
  }

  ghost predicate TouchesFiles(s: State, t: State, final: string) {
    forall n :: n != final && n != final + PARTIAL && n != final + NOTE ==>
      (n in t.files <==> n in s.files) && (n in s.files ==> t.files[n] == s.files[n])
  }

  ghost predicate TouchesObjects(s: State, t: State, final: string) {
    forall k :: k != final ==> (k in t.objects <==> k in s.objects) && (k in s.objects ==> t.objects[k] == s.objects[k])
  }

  ghost predicate TouchesUploads(s: State, t: State, final: string) {
    forall u: Upload :: u.key != final ==>
      (u in t.uploads <==> u in s.uploads) && (u in s.uploads ==> t.uploads[u] == s.uploads[u])
  }

  lemma StepTouchesFiles(s: State, t: State, w: Writer, v: Writer, remote: bool)
    requires Moves(s, t, w, v, remote)
    ensures TouchesFiles(s, t, w.final)
  {
  }

  lemma StepTouchesObjects(s: State, t: State, w: Writer, v: Writer, remote: bool)
    requires Moves(s, t, w, v, remote)
    ensures TouchesObjects(s, t, w.final)
  {
  }

  lemma StepTouchesUploads(s: State, t: State, w: Writer, v: Writer, remote: bool)
    requires Moves(s, t, w, v, remote)
    ensures TouchesUploads(s, t, w.final)
  {
    match w.stage {
      case Copied => CopiedTouchesUploads(s, t, w, v, remote);
      case Sending(_) => SendingTouchesUploads(s, t, w, v, remote);
      case _ =>
    }
  }

  lemma CopiedTouchesUploads(s: State, t: State, w: Writer, v: Writer, remote: bool)
    requires Hands(s, t, w, v, remote)
    ensures TouchesUploads(s, t, w.final)
  {
    if v.stage.Created? && Opened(s, w.final, v.stage.id, t) {
      OpenedTouchesUploads(s, t, w.final, v.stage.id);
    } else if id :| Opened(s, w.final, id, t) {
      OpenedTouchesUploads(s, t, w.final, id);
    }
  }

  lemma OpenedTouchesUploads(s: State, t: State, final: string, id: string)
    requires Opened(s, final, id, t)
    ensures TouchesUploads(s, t, final)
  {
  }

  lemma SendingTouchesUploads(s: State, t: State, w: Writer, v: Writer, remote: bool)
    requires Moves(s, t, w, v, remote) && w.stage.Sending?
    ensures TouchesUploads(s, t, w.final)
  {
  }

  lemma StepTouches(s: State, t: State, w: Writer, v: Writer, remote: bool)
    requires Moves(s, t, w, v, remote)
    ensures Touches(s, t, w.final)
  {
    StepTouchesFiles(s, t, w, v, remote);
    StepTouchesObjects(s, t, w, v, remote);
    StepTouchesUploads(s, t, w, v, remote);
  }

  // The names of one writer are not those of another.
  lemma NamesApart(a: string, b: string)
    requires a != b && IsFinal(a) && IsFinal(b)
    ensures a + PARTIAL != b && a + PARTIAL != b + PARTIAL && a + PARTIAL != b + NOTE
    ensures a + NOTE != b && a + NOTE != b + PARTIAL && a + NOTE != b + NOTE
  {
    Storage.Suffixes(a);
    Storage.Suffixes(b);
    if a + PARTIAL == b + PARTIAL { Storage.SameEnd(a, b, PARTIAL); }
    if a + NOTE == b + NOTE { Storage.SameEnd(a, b, NOTE); }
  }

  // Each kind of change keeps what is sound. One that changes a single file does where that is not final.
  ghost predicate ButFor(s: State, t: State, name: string) {
    && t == s.(files := t.files)
    && forall n :: n != name ==> (n in t.files <==> n in s.files) && (n in s.files ==> t.files[n] == s.files[n])
  }

  lemma FileIsSound(s: State, t: State, name: string, archives: Archives, remote: bool, lost: set<Upload>)
    requires Sound(s, archives, remote, lost) && ButFor(s, t, name) && !IsFinal(name)
    requires Dispensable(s, lost, name)
    ensures Sound(t, archives, remote, lost)
  {
    forall n | n in t.files && IsFinal(n) ensures Complete(t, archives, remote, n) {
      assert n in s.files && Complete(s, archives, remote, n);
    }
    forall u: Upload | u in t.uploads && t.uploads[u] != map[] ensures u in lost || Noted(t, u) {
      assert u.key + NOTE != name ==> Noted(t, u) == Noted(s, u);
    }
  }

  lemma PartialIsSound(s: State, name: string, content: string, archives: Archives, remote: bool, lost: set<Upload>)
    requires Sound(s, archives, remote, lost)
    ensures Sound(s.(files := s.files[name + PARTIAL := content]), archives, remote, lost)
    ensures Sound(s.(files := s.files - {name + PARTIAL}), archives, remote, lost)
  {
    Storage.Suffixes(name);
    forall u: Upload ensures u.key + NOTE != name + PARTIAL { Storage.Suffixes(u.key); }
    FileIsSound(s, s.(files := s.files[name + PARTIAL := content]), name + PARTIAL, archives, remote, lost);
    FileIsSound(s, s.(files := s.files - {name + PARTIAL}), name + PARTIAL, archives, remote, lost);
  }

  lemma NoteIsSound(s: State, final: string, content: string, archives: Archives, remote: bool, lost: set<Upload>)
    requires Sound(s, archives, remote, lost) && Dispensable(s, lost, final + NOTE)
    ensures Sound(s.(files := s.files[final + NOTE := content]), archives, remote, lost)
    ensures Sound(s.(files := s.files - {final + NOTE}), archives, remote, lost)
  {
    Storage.Suffixes(final);
    FileIsSound(s, s.(files := s.files[final + NOTE := content]), final + NOTE, archives, remote, lost);
    FileIsSound(s, s.(files := s.files - {final + NOTE}), final + NOTE, archives, remote, lost);
  }

  lemma ObjectIsSound(s: State, key: string, archive: string, archives: Archives, remote: bool, lost: set<Upload>)
    requires Sound(s, archives, remote, lost) && (key, archive) in archives
    ensures Sound(s.(objects := s.objects[key := archive]), archives, remote, lost)
  {
  }

  lemma FewerIsSound(s: State, u: Upload, archives: Archives, remote: bool, lost: set<Upload>)
    requires Sound(s, archives, remote, lost)
    ensures Sound(s.(uploads := s.uploads - {u}), archives, remote, lost)
  {
  }

  lemma OpenedIsSound(s: State, t: State, key: string, id: string, archives: Archives, remote: bool, lost: set<Upload>)
    requires Sound(s, archives, remote, lost) && Opened(s, key, id, t)
    ensures Sound(t, archives, remote, lost)
  {
  }

  lemma RenameIsSound(s: State, t: State, w: Writer, archives: Archives, remote: bool, lost: set<Upload>)
    requires Sound(s, archives, remote, lost) && Renames(s, t, w)
    requires IsFinal(w.final) && (w.final, w.archive) in archives
    requires s.files[w.Partial()] == w.archive && (remote ==> w.final in s.objects && s.objects[w.final] == w.archive)
    ensures Sound(t, archives, remote, lost)
  {
    Storage.Suffixes(w.final);
    forall u | Noted(s, u) ensures Noted(t, u) {
      StillNoted(s, t, w, u);
    }
  }

  lemma StillNoted(s: State, t: State, w: Writer, u: Upload)
    requires Renames(s, t, w) && IsFinal(w.final) && Noted(s, u)
    ensures Noted(t, u)
  {
    Storage.Suffixes(w.final);
    Storage.Suffixes(u.key);
  }

  lemma CopyingIsSound(s: State, t: State, w: Writer, v: Writer, archives: Archives, remote: bool, lost: set<Upload>)
    requires Sound(s, archives, remote, lost) && Knows(s, w, remote, lost) && Moves(s, t, w, v, remote)
    requires w.stage.Copying? || w.stage.Over? || w.stage.Ending?
    ensures Sound(t, archives, remote, lost)
  {
    PartialIsSound(s, w.final, "", archives, remote, lost);
    if w.stage.Copying? && v.stage.Copying? {
      var k: nat :| CopiesTo(s, t, w, k);
      PartialIsSound(s, w.final, w.archive[..k], archives, remote, lost);
    }
    if w.stage.Ending? {
      NoteIsSound(s, w.final, "", archives, remote, lost);
    }
  }

  lemma CopiedIsSound(s: State, t: State, w: Writer, v: Writer, archives: Archives, remote: bool, lost: set<Upload>)
    requires Sound(s, archives, remote, lost) && Knows(s, w, remote, lost) && Moves(s, t, w, v, remote)
    requires w.stage.Copied?
    requires IsFinal(w.final) && (w.final, w.archive) in archives
    ensures Sound(t, archives, remote, lost)
  {
    PartialIsSound(s, w.final, "", archives, remote, lost);
    ObjectIsSound(s, w.final, w.archive, archives, remote, lost);
    if v.stage.Created? && Opened(s, w.final, v.stage.id, t) {
      OpenedIsSound(s, t, w.final, v.stage.id, archives, remote, lost);
    } else if id :| Opened(s, w.final, id, t) {
      OpenedIsSound(s, t, w.final, id, archives, remote, lost);
    }
    if !remote && Renames(s, t, w) {
      RenameIsSound(s, t, w, archives, remote, lost);
    }
  }

  lemma AbortedIsSound(s: State, t: State, w: Writer, v: Writer, id: string, archives: Archives, remote: bool,
                       lost: set<Upload>)
    requires Sound(s, archives, remote, lost) && Aborts(s, t, w, v, id)
    ensures Sound(t, archives, remote, lost)
  {
    FewerIsSound(s, Upload(w.final, id), archives, remote, lost);
  }

  lemma CreatedIsSound(s: State, t: State, w: Writer, v: Writer, archives: Archives, remote: bool, lost: set<Upload>)
    requires Sound(s, archives, remote, lost) && Knows(s, w, remote, lost) && Moves(s, t, w, v, remote)
    requires w.stage.Created?
    ensures Sound(t, archives, remote, lost)
  {
    var id := w.stage.id;
    if k: nat :| NotesTo(s, t, w, id, k) {
      NoteIsSound(s, w.final, id[..k], archives, remote, lost);
    } else if Aborts(s, t, w, v, id) {
      AbortedIsSound(s, t, w, v, id, archives, remote, lost);
    }
  }

  lemma SendingIsSound(s: State, t: State, w: Writer, v: Writer, archives: Archives, remote: bool, lost: set<Upload>)
    requires Sound(s, archives, remote, lost) && Knows(s, w, remote, lost) && Moves(s, t, w, v, remote)
    requires w.stage.Sending?
    requires (w.final, w.archive) in archives
    ensures Sound(t, archives, remote, lost)
  {
    var id := w.stage.id;
    var u := Upload(w.final, id);
    if n, data :| Puts(s, t, u, n, data) {
      PartIsSound(s, u, n, data, archives, remote, lost);
    } else if Aborts(s, t, w, v, id) {
      AbortedIsSound(s, t, w, v, id, archives, remote, lost);
    } else {
      FewerIsSound(s, u, archives, remote, lost);
      ObjectIsSound(s.(uploads := s.uploads - {u}), w.final, w.archive, archives, remote, lost);
    }
  }

  lemma StoredIsSound(s: State, t: State, w: Writer, v: Writer, archives: Archives, remote: bool, lost: set<Upload>)
    requires Sound(s, archives, remote, lost) && Knows(s, w, remote, lost) && Moves(s, t, w, v, remote)
    requires w.stage.Stored?
    requires IsFinal(w.final) && (w.final, w.archive) in archives
    ensures Sound(t, archives, remote, lost)
  {
    PartialIsSound(s, w.final, "", archives, remote, lost);
    NoteIsSound(s, w.final, "", archives, remote, lost);
    if Renames(s, t, w) {
      RenameIsSound(s, t, w, archives, remote, lost);
    }
  }

  lemma StepIsSound(s: State, t: State, w: Writer, v: Writer, archives: Archives, remote: bool, lost: set<Upload>)
    requires Sound(s, archives, remote, lost) && Knows(s, w, remote, lost) && Moves(s, t, w, v, remote)
    requires IsFinal(w.final) && (w.final, w.archive) in archives
    ensures Sound(t, archives, remote, lost)
  {
    match w.stage {
      case Copied => CopiedIsSound(s, t, w, v, archives, remote, lost);
      case Created(_) => CreatedIsSound(s, t, w, v, archives, remote, lost);
      case Sending(_) => SendingIsSound(s, t, w, v, archives, remote, lost);
      case Stored => StoredIsSound(s, t, w, v, archives, remote, lost);
      case _ => CopyingIsSound(s, t, w, v, archives, remote, lost);
    }
  }

  // What one writer knows, a step of another leaves true.
  lemma OthersKnow(s: State, t: State, w: Writer, final: string, remote: bool, lost: set<Upload>)
    requires Touches(s, t, final) && w.final != final && IsFinal(w.final) && IsFinal(final)
    requires Knows(s, w, remote, lost)
    ensures Knows(t, w, remote, lost)
  {
    NamesApart(w.final, final);
    OthersDispensable(s, t, w.final, final, lost);
  }

  lemma OthersDispensable(s: State, t: State, mine: string, final: string, lost: set<Upload>)
    requires Touches(s, t, final) && mine != final && IsFinal(mine) && IsFinal(final)
    ensures Dispensable(s, lost, mine + NOTE) ==> Dispensable(t, lost, mine + NOTE)
  {
    NamesApart(mine, final);
    forall u | u in t.uploads && u.key + NOTE == mine + NOTE
      ensures u in s.uploads && t.uploads[u] == s.uploads[u] && Noted(t, u) == Noted(s, u)
    {
      Storage.SameEnd(u.key, mine, NOTE);
    }
  }

  // Uploads of the file that have parts are lost already, but for the one being sent.
  lemma DispensableAfter(s: State, t: State, final: string, archives: Archives, remote: bool, lost: set<Upload>)
    requires Sound(s, archives, remote, lost)
    requires Dispensable(s, lost, final + NOTE)
    requires forall u :: u in t.uploads && t.uploads[u] != map[] ==> u in s.uploads && s.uploads[u] != map[]
    ensures Dispensable(t, lost, final + NOTE)
  {
    forall u | u in t.uploads && u.key + NOTE == final + NOTE && t.uploads[u] != map[] ensures u in lost {
      Storage.SameEnd(u.key, final, NOTE);
    }
  }

  lemma SentIsDispensable(s: State, t: State, final: string, id: string, lost: set<Upload>)
    requires Noted(s, Upload(final, id)) && t.files == s.files && t.uploads == s.uploads - {Upload(final, id)}
    ensures Dispensable(t, lost, final + NOTE)
  {
    forall u: Upload | u in t.uploads && u.key + NOTE == final + NOTE ensures !Noted(t, u) {
      Storage.SameEnd(u.key, final, NOTE);
    }
  }

  lemma CopyingKnows(s: State, t: State, w: Writer, v: Writer, archives: Archives, remote: bool, lost: set<Upload>)
    requires Sound(s, archives, remote, lost) && Knows(s, w, remote, lost) && Moves(s, t, w, v, remote)
    requires w.stage.Copying? || w.stage.Ending? || w.stage.Over?
    ensures Knows(t, v, remote, lost)
  {
    if !w.stage.Over? {
      DispensableAfter(s, t, w.final, archives, remote, lost);
    }
  }

  lemma CopiedKnows(s: State, t: State, w: Writer, v: Writer, archives: Archives, remote: bool, lost: set<Upload>)
    requires Sound(s, archives, remote, lost) && Knows(s, w, remote, lost) && Moves(s, t, w, v, remote)
    requires w.stage.Copied?
    ensures Knows(t, v, remote, lost)
  {
    DispensableAfter(s, t, w.final, archives, remote, lost);
  }

  lemma CreatedKnows(s: State, t: State, w: Writer, v: Writer, archives: Archives, remote: bool, lost: set<Upload>)
    requires Sound(s, archives, remote, lost) && Knows(s, w, remote, lost) && Moves(s, t, w, v, remote)
    requires w.stage.Created?
    ensures Knows(t, v, remote, lost)
  {
    DispensableAfter(s, t, w.final, archives, remote, lost);
    Storage.Suffixes(w.final);
  }

  lemma SendingKnows(s: State, t: State, w: Writer, v: Writer, archives: Archives, remote: bool, lost: set<Upload>)
    requires Sound(s, archives, remote, lost) && Knows(s, w, remote, lost) && Moves(s, t, w, v, remote)
    requires w.stage.Sending?
    ensures Knows(t, v, remote, lost)
  {
    var u := Upload(w.final, w.stage.id);
    if t.uploads == s.uploads - {u} {
      SentIsDispensable(s, t, w.final, w.stage.id, lost);
    }
  }

  lemma StoredKnows(s: State, t: State, w: Writer, v: Writer, archives: Archives, remote: bool, lost: set<Upload>)
    requires Sound(s, archives, remote, lost) && Knows(s, w, remote, lost) && Moves(s, t, w, v, remote)
    requires w.stage.Stored?
    ensures Knows(t, v, remote, lost)
  {
    DispensableAfter(s, t, w.final, archives, remote, lost);
    Storage.Suffixes(w.final);
  }

  // What a writer knows after its own step.
  lemma StepKnows(s: State, t: State, w: Writer, v: Writer, archives: Archives, remote: bool, lost: set<Upload>)
    requires Sound(s, archives, remote, lost) && Knows(s, w, remote, lost) && Moves(s, t, w, v, remote)
    ensures Knows(t, v, remote, lost)
  {
    match w.stage {
      case Copied => CopiedKnows(s, t, w, v, archives, remote, lost);
      case Created(_) => CreatedKnows(s, t, w, v, archives, remote, lost);
      case Sending(_) => SendingKnows(s, t, w, v, archives, remote, lost);
      case Stored => StoredKnows(s, t, w, v, archives, remote, lost);
      case _ => CopyingKnows(s, t, w, v, archives, remote, lost);
    }
  }

  // The files and the bucket, and the writers at work on them.
  datatype System = System(world: State, writers: seq<Writer>)

  // A writer takes a step, a new one begins, or one that is over is gone.
  ghost predicate Next(a: System, b: System, archives: Archives, remote: bool, lost: set<Upload>) {
    || (exists i: nat, v :: Steps(a, b, i, v, remote))
    || (exists w :: Joins(a, b, w, archives, lost))
    || (exists i: nat :: Leaves(a, b, i))
  }

  ghost predicate Steps(a: System, b: System, i: nat, v: Writer, remote: bool) {
    i < |a.writers| && Moves(a.world, b.world, a.writers[i], v, remote) && b.writers == a.writers[i := v]
  }

  ghost predicate Joins(a: System, b: System, w: Writer, archives: Archives, lost: set<Upload>) {
    && w.stage.Copying? && Dispensable(a.world, lost, w.Note())
    && Apart(b.writers, archives) && b == System(a.world, a.writers + [w])
  }

  ghost predicate Leaves(a: System, b: System, i: nat) {
    i < |a.writers| && a.writers[i].stage.Over? && b == System(a.world, a.writers[..i] + a.writers[i + 1..])
  }

  lemma NextKeeps(a: System, b: System, archives: Archives, remote: bool, lost: set<Upload>)
    requires Inv(a.world, a.writers, archives, remote, lost) && Next(a, b, archives, remote, lost)
    ensures Inv(b.world, b.writers, archives, remote, lost)
  {
    if i: nat, v :| Steps(a, b, i, v, remote) {
      StepKeeps(a, b, i, v, archives, remote, lost);
    } else if w :| Joins(a, b, w, archives, lost) {
      assert forall j :: 0 <= j < |a.writers| ==> b.writers[j] == a.writers[j];
    } else {
      var i: nat :| Leaves(a, b, i);
      assert forall j :: 0 <= j < |b.writers| ==> b.writers[j] == a.writers[if j < i then j else j + 1];
    }
  }

  lemma StepKeeps(a: System, b: System, i: nat, v: Writer, archives: Archives, remote: bool, lost: set<Upload>)
    requires Inv(a.world, a.writers, archives, remote, lost) && Steps(a, b, i, v, remote)
    ensures Inv(b.world, b.writers, archives, remote, lost)
  {
    var w := a.writers[i];
    StepIsSound(a.world, b.world, w, v, archives, remote, lost);
    StepKnows(a.world, b.world, w, v, archives, remote, lost);
    StepTouches(a.world, b.world, w, v, remote);
    forall j | 0 <= j < |b.writers| ensures Knows(b.world, b.writers[j], remote, lost) {
      if j != i {
        assert a.writers[j].final != w.final;
        OthersKnow(a.world, b.world, a.writers[j], w.final, remote, lost);
      }
    }
  }

  // Writers that start where nothing hangs on a note of their files but what is lost.
  ghost predicate Starts(a: System, archives: Archives, remote: bool, lost: set<Upload>) {
    && Sound(a.world, archives, remote, lost) && Apart(a.writers, archives)
    && forall i :: 0 <= i < |a.writers| ==>
         a.writers[i].stage.Copying? && Dispensable(a.world, lost, a.writers[i].Note())
  }

  /**
   However the steps of writes with different names come one after the other, whenever each begins, and
   wherever they are cut off: every file under a final name is complete, and so is its object, and every
   upload with parts is noted.
   */
  lemma {:induction false} EveryInterleavingIsSound(b: seq<System>, n: nat, archives: Archives, remote: bool,
                                                    lost: set<Upload>)
    requires n < |b| && Starts(b[0], archives, remote, lost)
    requires forall k, l :: 0 <= k && l == k + 1 && l < |b| ==> Next(b[k], b[l], archives, remote, lost)
    ensures Inv(b[n].world, b[n].writers, archives, remote, lost)
  {
    if n > 0 {
      EveryInterleavingIsSound(b, n - 1, archives, remote, lost);
      NextKeeps(b[n - 1], b[n], archives, remote, lost);
    }
  }
}
