/** Sending an archive to the bucket in parts (agent/internal/backup/multipart.go). */
module Multipart {
  import opened Options
  import opened Text
  import opened BackupWorld

  const MIB := 0x10_0000
  const DEFAULT_PART := 64 * MIB
  const MAX_OBJECT := 5 * 0x100_0000_0000
  const PART_ATTEMPTS := 3

  // The size of the parts an object of this size goes up in.
  function PartSizeFor(size: nat, usual: nat): nat {
    if size <= usual * MAX_PARTS then usual
    else
      var n := size / MAX_PARTS + MIB;
      n - n % MIB
  }

  /** The parts of the largest object are few enough, and none is too large or too small. */
  lemma PartsFit(size: nat, usual: nat)
    requires size <= MAX_OBJECT && MIN_PART <= usual <= 5 * 1024 * MIB && usual % MIB == 0
    ensures var part := PartSizeFor(size, usual);
      && usual <= part <= 5 * 1024 * MIB && part % MIB == 0 && size <= MAX_PARTS * part
      && (part == usual <==> size <= MAX_PARTS * usual)
      && (part != usual ==> part - MIB <= size / MAX_PARTS < part)
  {
    var n := size / MAX_PARTS + MIB;
    assert n - n % MIB > size / MAX_PARTS;
    Whole(n);
  }

  lemma Whole(n: nat)
    ensures (n - n % MIB) % MIB == 0
  {
  }

  // All but u is as it was.
  ghost predicate Elsewhere(before: State, after: State, u: Upload) {
    && after.files == before.files
    && after.uploads - {u} == before.uploads - {u}
    && (u in after.uploads ==> u in before.uploads)
  }

  // The bucket has a part.
  ghost predicate Stored(before: State, after: State, u: Upload, number: nat, data: string) {
    && u in before.uploads
    && after == before.(uploads := before.uploads[u := before.uploads[u][number := data]])
  }

  lemma HoldsOneMore(before: State, after: State, u: Upload, tags: seq<string>, data: string)
    requires HoldsParts(before, u, tags) && Stored(before, after, u, |tags| + 1, data)
    ensures HoldsParts(after, u, tags + [data])
  {
    var more := tags + [data];
    forall i | 0 <= i < |more| ensures HasPart(after.uploads[u], i + 1, more[i]) {
      if i < |tags| { assert HasPart(before.uploads[u], i + 1, tags[i]); }
    }
  }

  // One part, sent more than once if it has to be.
  method SendPart(w: World, u: Upload, number: nat, data: string) returns (tag: Option<string>)
    requires w.Valid() && 1 <= number <= MAX_PARTS && Noted(w.now, u)
    modifies w`now, w`past, w`sent, w`failed
    ensures w.Valid() && old(w.past) <= w.past
    ensures Elsewhere(old(w.now), w.now, u) && w.now.objects == old(w.now).objects
    ensures tag.Some? ==> tag.value == data
    ensures old(w.sent) <= w.sent <= old(w.sent) + PART_ATTEMPTS
    ensures old(w.failed) <= w.failed
    ensures w.failed == old(w.failed) && u in old(w.now).uploads ==>
      tag.Some? && Stored(old(w.now), w.now, u, number, data)
  {
    var attempt := 1;
    while attempt <= PART_ATTEMPTS
      invariant w.Valid() && old(w.past) <= w.past && 1 <= attempt <= PART_ATTEMPTS + 1
      invariant Elsewhere(old(w.now), w.now, u) && w.now.objects == old(w.now).objects
      invariant w.sent == old(w.sent) + attempt - 1 && old(w.failed) <= w.failed
      invariant w.failed == old(w.failed) && u in old(w.now).uploads ==> attempt == 1 && w.now == old(w.now)
    {
      var goesOn := w.Works();
      if !goesOn {
        return None;
      }
      var answer := w.PutPart(u, number, data);
      match answer {
        case Taken(t) => return Some(t);
        case Again =>
        case Refused => return None;
      }
      attempt := attempt + 1;
    }
    tag := None;
  }

  // n times a size.
  function Times(n: nat, size: nat): nat {
    if n == 0 then 0 else Times(n - 1, size) + size
  }

  lemma {:induction false} TimesIs(n: nat, size: nat)
    ensures Times(n, size) == n * size
  {
    if n > 0 {
      TimesIs(n - 1, size);
      assert (n - 1) * size + size == n * size;
    }
  }

  // The parts sent so far, up to an offset.
  ghost predicate SentTo(src: string, partSize: nat, tags: seq<string>, offset: nat) {
    && offset == Times(|tags|, partSize)
    && (|tags| == 0 || Times(|tags| - 1, partSize) < |src|)
    && Concat(tags) == src[..if offset < |src| then offset else |src|]
    && (forall i :: 0 <= i < |tags| - 1 ==> |tags[i]| == partSize)
    && (tags != [] && offset <= |src| ==> |tags[|tags| - 1]| == partSize)
  }

  function Part(src: string, partSize: nat, offset: nat): string
    requires offset < |src|
  {
    src[offset..if |src| - offset < partSize then |src| else offset + partSize]
  }

  lemma NextPart(src: string, partSize: nat, tags: seq<string>, offset: nat)
    requires SentTo(src, partSize, tags, offset) && offset < |src| <= MAX_PARTS * partSize
    ensures |tags| < MAX_PARTS
    ensures SentTo(src, partSize, tags + [Part(src, partSize, offset)], offset + partSize)
  {
    FewEnough(|tags|, partSize, |src|);
    var part := Part(src, partSize, offset);
    OnePart(tags, part);
    assert src[..offset] + part == src[..if offset + partSize < |src| then offset + partSize else |src|];
  }

  // Parts that make up the source can be completed.
  lemma AllParts(src: string, partSize: nat, tags: seq<string>, offset: nat)
    requires SentTo(src, partSize, tags, offset) && 0 < |src| <= offset && |src| <= MAX_PARTS * partSize
    ensures Concat(tags) == src && 0 < |tags| <= MAX_PARTS && forall i :: 0 <= i < |tags| - 1 ==> |tags[i]| == partSize
  {
    assert src[..|src|] == src;
    if |tags| > 0 { FewEnough(|tags| - 1, partSize, |src|); }
  }

  // The next part, and where it leaves off.
  method SendNext(w: World, u: Upload, src: string, partSize: nat, tags: seq<string>, offset: nat)
    returns (more: Option<seq<string>>)
    requires w.Valid() && Noted(w.now, u) && 0 < partSize && |src| <= MAX_PARTS * partSize
    requires SentTo(src, partSize, tags, offset) && offset < |src|
    modifies w`now, w`past, w`sent, w`failed
    ensures w.Valid() && old(w.past) <= w.past
    ensures Elsewhere(old(w.now), w.now, u) && w.now.objects == old(w.now).objects
    ensures more.Some? ==> SentTo(src, partSize, more.value, offset + partSize)
    ensures old(w.failed) <= w.failed
    ensures w.failed == old(w.failed) && HoldsParts(old(w.now), u, tags) ==>
      more.Some? && HoldsParts(w.now, u, more.value)
  {
    NextPart(src, partSize, tags, offset);
    var tag := SendPart(w, u, |tags| + 1, Part(src, partSize, offset));
    if tag.None? {
      return None;
    }
    if w.failed == old(w.failed) && HoldsParts(old(w.now), u, tags) {
      HoldsOneMore(old(w.now), w.now, u, tags, tag.value);
    }
    more := Some(tags + [tag.value]);
  }

  // All parts, by their tags.
  method SendAll(w: World, u: Upload, src: string, partSize: nat) returns (tags: Option<seq<string>>)
    requires w.Valid() && Noted(w.now, u) && 0 < |src| <= MAX_PARTS * partSize && 0 < partSize
    modifies w`now, w`past, w`sent, w`failed
    ensures w.Valid() && old(w.past) <= w.past
    ensures Elsewhere(old(w.now), w.now, u) && w.now.objects == old(w.now).objects
    ensures tags.Some? ==>
      && Concat(tags.value) == src && 0 < |tags.value| <= MAX_PARTS
      && forall i :: 0 <= i < |tags.value| - 1 ==> |tags.value[i]| == partSize
    ensures old(w.failed) <= w.failed
    ensures w.failed == old(w.failed) && u in old(w.now).uploads ==> tags.Some? && HoldsParts(w.now, u, tags.value)
  {
    tags := Some([]);
    var offset := 0;
    while offset < |src|
      invariant w.Valid() && old(w.past) <= w.past
      invariant Elsewhere(old(w.now), w.now, u) && w.now.objects == old(w.now).objects
      invariant tags.Some? && SentTo(src, partSize, tags.value, offset) && old(w.failed) <= w.failed
      invariant w.failed == old(w.failed) && u in old(w.now).uploads ==> HoldsParts(w.now, u, tags.value)
      decreases |src| - offset
    {
      tags := SendNext(w, u, src, partSize, tags.value, offset);
      if tags.None? {
        return;
      }
      offset := offset + partSize;
    }
    AllParts(src, partSize, tags.value, offset);
  }

  // Every part, and then the whole.
  method SendParts(w: World, u: Upload, src: string, partSize: nat) returns (ok: bool)
    requires w.Valid() && Noted(w.now, u) && (u.key, src) in w.archives
    requires 0 < |src| <= MAX_PARTS * partSize && MIN_PART <= partSize
    modifies w`now, w`past, w`sent, w`failed
    ensures w.Valid() && old(w.past) <= w.past && Elsewhere(old(w.now), w.now, u)
    ensures w.now.objects == old(w.now).objects || w.now.objects == old(w.now).objects[u.key := src]
    ensures ok ==> u !in w.now.uploads && w.now.objects == old(w.now).objects[u.key := src]
    ensures old(w.failed) <= w.failed && (w.failed == old(w.failed) && u in old(w.now).uploads ==> ok)
  {
    var tags := SendAll(w, u, src, partSize);
    if tags.None? {
      return false;
    }
    ok := w.CompleteUpload(u, tags.value);
  }

  lemma OnePart(tags: seq<string>, part: string)
    ensures Concat(tags + [part]) == Concat(tags) + part
  {
    assert (tags + [part])[..|tags|] == tags;
  }

  lemma FewEnough(sent: nat, partSize: nat, size: nat)
    requires Times(sent, partSize) < size <= MAX_PARTS * partSize
    ensures sent < MAX_PARTS
  {
    TimesIs(sent, partSize);
    if sent >= MAX_PARTS {
      AtLeast(sent, MAX_PARTS, partSize);
    }
  }

  lemma AtLeast(a: nat, b: nat, c: nat)
    requires a >= b
    ensures a * c >= b * c
  {
    assert (a - b) * c >= 0;
  }

  datatype Outcome = Done | Failed | PartsRemain

  // The answer to the creation of an upload for this archive is lost.
  predicate Unanswered(s: State, key: string, src: string, c: Creation) {
    DEFAULT_PART < |src| <= MAX_OBJECT && c.AnswerLost? && Creates(s, key, c)
  }

  // An object of this size can be stored, and the upload that it needs is created.
  predicate Sendable(s: State, key: string, src: string, c: Creation) {
    |src| <= MAX_OBJECT && (|src| > DEFAULT_PART ==> c.Created? && Creates(s, key, c))
  }

  // The uploads afterwards: one without parts that nobody knows of, if its
  // answer was lost; perhaps one with parts, if some remain; else none but those before.
  ghost predicate UploadsAfter(before: State, after: State, key: string, src: string, c: Creation, r: Outcome) {
    if Unanswered(before, key, src, c) then
      r.Failed? && after.uploads == before.uploads[Upload(key, c.id) := map[]]
    else if r.PartsRemain? then
      c.Created? && Creates(before, key, c) && after.uploads - {Upload(key, c.id)} == before.uploads
    else
      after.uploads == before.uploads
  }

  ghost predicate FilesKept(before: State, after: State, names: set<string>) {
    forall n :: n !in names ==>
      (n in after.files <==> n in before.files) && (n in before.files ==> after.files[n] == before.files[n])
  }

  // A note holds what it held, or some or all of an id.
  ghost predicate NoteSays(before: State, after: State, note: string, id: string) {
    note in after.files ==>
      (note in before.files && after.files[note] == before.files[note]) || after.files[note] <= id
  }

  // The id is noted before the first part goes.
  method Note(w: World, key: string, id: string) returns (ok: bool)
    requires w.Valid() && Dispensable(w.now, w.lost, key + NOTE) && id != "" && TrimSpace(id) == id
    modifies w`now, w`past, w`sent, w`failed
    ensures w.Valid() && old(w.past) <= w.past
    ensures FilesKept(old(w.now), w.now, {key + NOTE}) && w.now == old(w.now).(files := w.now.files)
    ensures NoteSays(old(w.now), w.now, key + NOTE, id)
    ensures ok ==> Noted(w.now, Upload(key, id))
    ensures old(w.failed) <= w.failed && (w.failed == old(w.failed) ==> ok)
  {
    SuffixOn(key, NOTE);
    ok := w.Create(key + NOTE);
    if ok {
      ok := w.Append(key + NOTE, id);
      assert "" + id == id;
    }
  }

  // Note and parts of a new upload, up to where one fails.
  method NoteAndSend(w: World, u: Upload, src: string, partSize: nat) returns (ok: bool)
    requires w.Valid() && Dispensable(w.now, w.lost, u.key + NOTE) && u.id != "" && TrimSpace(u.id) == u.id
    requires (u.key, src) in w.archives && 0 < |src| <= MAX_PARTS * partSize && MIN_PART <= partSize
    requires u in w.now.uploads && w.now.uploads[u] == map[]
    modifies w`now, w`past, w`sent, w`failed
    ensures w.Valid() && old(w.past) <= w.past
    ensures FilesKept(old(w.now), w.now, {u.key + NOTE})
    ensures w.now.uploads - {u} == old(w.now).uploads - {u}
    ensures NoteSays(old(w.now), w.now, u.key + NOTE, u.id)
    ensures w.now.objects == old(w.now).objects || w.now.objects == old(w.now).objects[u.key := src]
    ensures ok ==> u !in w.now.uploads && w.now.objects == old(w.now).objects[u.key := src]
    ensures old(w.failed) <= w.failed && (w.failed == old(w.failed) ==> ok)
  {
    ok := Note(w, u.key, u.id);
    if ok {
      ok := SendParts(w, u, src, partSize);
    }
  }

  lemma Without(before: State, created: State, after: State, u: Upload)
    requires Opened(before, u.key, u.id, created) && after.uploads - {u} == created.uploads - {u}
    ensures after.uploads - {u} == before.uploads && (u !in after.uploads ==> after.uploads == before.uploads)
  {
    assert created.uploads - {u} == before.uploads;
    if u !in after.uploads {
      assert after.uploads - {u} == after.uploads;
    }
  }

  // The parts of an upload that was created; it is aborted when they cannot all be sent.
  method SendOrAbort(w: World, ghost before: State, u: Upload, src: string) returns (r: Outcome)
    requires w.Valid() && Opened(before, u.key, u.id, w.now) && u.id != "" && TrimSpace(u.id) == u.id
    requires Dispensable(w.now, w.lost, u.key + NOTE) && (u.key, src) in w.archives
    requires DEFAULT_PART < |src| <= MAX_OBJECT
    modifies w`now, w`past, w`sent, w`failed
    ensures w.Valid() && old(w.past) <= w.past
    ensures FilesKept(before, w.now, {u.key + NOTE})
    ensures w.now.uploads - {u} == before.uploads && (!r.PartsRemain? ==> w.now.uploads == before.uploads)
    ensures NoteSays(before, w.now, u.key + NOTE, u.id)
    ensures w.now.objects == before.objects || w.now.objects == before.objects[u.key := src]
    ensures r.Done? ==> w.now.objects == before.objects[u.key := src]
    ensures old(w.failed) <= w.failed && (w.failed == old(w.failed) ==> r.Done?)
  {
    PartsFit(|src|, DEFAULT_PART);
    ghost var created := w.now;
    var ok := NoteAndSend(w, u, src, PartSizeFor(|src|, DEFAULT_PART));
    Without(before, created, w.now, u);
    if ok {
      return Done;
    }
    ok := w.AbortUpload(u);
    Without(before, created, w.now, u);
    r := if ok then Failed else PartsRemain;
  }

  /**
   Stores an archive under its key, or leaves no part behind: an upload that fails is aborted,
   or noted and reported to have parts left. What stays is exactly an upload without parts
   whose creation was not answered.
   */
  method Send(w: World, key: string, src: string, c: Creation) returns (r: Outcome)
    requires w.Valid() && Dispensable(w.now, w.lost, key + NOTE) && (key, src) in w.archives
    modifies w`now, w`past, w`sent, w`failed
    ensures w.Valid() && old(w.past) <= w.past
    ensures FilesKept(old(w.now), w.now, {key + NOTE})
    ensures UploadsAfter(old(w.now), w.now, key, src, c, r)
    ensures r.PartsRemain? ==> NoteSays(old(w.now), w.now, key + NOTE, c.id)
    ensures Unanswered(old(w.now), key, src, c) ==> Opened(old(w.now), key, c.id, w.now)
    ensures w.now.objects == old(w.now).objects || w.now.objects == old(w.now).objects[key := src]
    ensures r.Done? ==> w.now.objects == old(w.now).objects[key := src]
    ensures old(w.failed) <= w.failed && (w.failed == old(w.failed) && Sendable(old(w.now), key, src, c) ==> r.Done?)
  {
    if |src| <= DEFAULT_PART {
      var ok := w.Put(key, src);
      return if ok then Done else Failed;
    }
    if |src| > MAX_OBJECT {
      return Failed;
    }
    ghost var before := w.now;
    var id := w.CreateUpload(key, c);
    if id.None? {
      return Failed;
    }
    r := SendOrAbort(w, before, Upload(key, id.value), src);
  }

  /** An upload that stays although sending has failed, and that no note names. */
  method LostAnswer() returns (w: World, r: Outcome)
    ensures r == Failed && w.now == State(map[], map[], map[Upload("db/1/data.tar", "7") := map[]])
  {
    var key := "db/1/data.tar";
    var src := seq(DEFAULT_PART + 1, _ => 'x');
    w := new World(State(map[], map[], map[]), true, {(key, src)}, {}, {}, map[]);
    assert TrimSpace("7") == "7" by { assert !IsSpace("7"[0]); }
    r := Send(w, key, src, AnswerLost("7"));
  }
}
