/**
The directory and the bucket that backups are kept in, as the agent meets them:
one operation of the file system or one request at a time, any of which may
fail, a request also after it has had its effect.
*/
module BackupWorld {
  import opened Options
  import opened Text

  const PARTIAL := ".partial"
  const NOTE := ".upload"
  const MAX_PARTS := 10000
  const MIN_PART := 5 * 0x10_0000

  // A multipart upload: the key of the object it is to be, and its id.
  datatype Upload = Upload(key: string, id: string)

  // Files are named as objects are, <owner>/<run>/<file>, relative to the
  // directory and to the prefix. Characters stand for bytes.
  datatype State = State(
    files: map<string, string>,
    objects: map<string, string>,
    uploads: map<Upload, map<int, string>>)

  // Where the bucket says whose it is; no run's file can be there.
  const MARKER := "_agent/installation"

  // A name that a run's file can have in the end.
  predicate IsFinal(name: string) {
    !HasSuffix(name, PARTIAL) && !HasSuffix(name, NOTE) && name != MARKER
  }

  ghost predicate Noted(s: State, u: Upload) {
    u.id != "" && u.key + NOTE in s.files && TrimSpace(s.files[u.key + NOTE]) == u.id
  }

  // A file under its final name is a complete archive, and so is its object.
  ghost predicate Complete(s: State, archives: set<(string, string)>, remote: bool, name: string)
    requires name in s.files
  {
    (name, s.files[name]) in archives
    && (remote ==> name in s.objects && (name, s.objects[name]) in archives)
  }

  // That, and no upload with parts goes unnoted, save those that were lost before.
  ghost predicate Sound(s: State, archives: set<(string, string)>, remote: bool, lost: set<Upload>) {
    && (forall name :: name in s.files && IsFinal(name) ==> Complete(s, archives, remote, name))
    && (forall u :: u in s.uploads && s.uploads[u] != map[] ==> u in lost || Noted(s, u))
  }

  // The bytes of the parts, one after the other.
  function Concat(parts: seq<string>): string {
    if parts == [] then "" else Concat(parts[..|parts| - 1]) + parts[|parts| - 1]
  }

  // What the bucket answers to a part: its tag, a failure that may pass, or a refusal.
  datatype Answer = Taken(tag: string) | Again | Refused

  datatype Entry = Entry(name: string, dir: bool)

  class World {
    var now: State
    // Every state since the beginning: the agent may die in any of them.
    ghost var past: seq<State>
    // The archives that were handed over whole, by the name they go under.
    ghost var archives: set<(string, string)>
    // The uploads that nothing is known of any more.
    ghost var lost: set<Upload>
    // How many parts were put, successfully or not.
    ghost var sent: nat
    // How much of what was asked, of the directory, the bucket or a reader, has failed.
    ghost var failed: nat
    // The files whose removal failed.
    ghost var stuck: set<string>
    // Whether there is a bucket.
    const remote: bool
    // The directories that cannot be read.
    const unreadable: set<string>
    // What lies in a directory besides the files of runs and what leads to them.
    const others: map<string, seq<Entry>>

    ghost predicate Valid()
      reads this`now, this`past, this`archives, this`lost
    {
      && past != [] && past[|past| - 1] == now
      && forall i :: 0 <= i < |past| ==> Sound(past[i], archives, remote, lost)
    }

    constructor (s: State, remote: bool, ghost archives: set<(string, string)>, ghost lost: set<Upload>,
                 unreadable: set<string>, others: map<string, seq<Entry>>)
      requires Sound(s, archives, remote, lost)
      ensures Valid() && now == s && this.remote == remote && this.archives == archives && this.lost == lost
      ensures this.unreadable == unreadable && this.others == others && failed == 0
    {
      sent, failed := 0, 0;
      now, past, stuck, this.remote, this.archives := s, [s], {}, remote, archives;
      this.lost, this.unreadable, this.others := lost, unreadable, others;
    }

    // One thing happens.
    method Become(s: State)
      requires Valid() && Sound(s, archives, remote, lost)
      modifies this`now, this`past
      ensures Valid() && now == s && past == old(past) + [s]
    {
      now := s;
      past := past + [s];
    }

    // An archive is about to be written.
    ghost method Expect(name: string, archive: string)
      requires Valid()
      modifies this`archives
      ensures Valid() && archives == old(archives) + {(name, archive)}
    {
      forall i | 0 <= i < |past| ensures Sound(past[i], archives + {(name, archive)}, remote, lost) {
        StillSound(past[i], archives, archives + {(name, archive)}, remote, lost, lost);
      }
      archives := archives + {(name, archive)};
    }

    // What may be known of these uploads is about to be lost.
    ghost method LoseTrackOf(uploads: set<Upload>)
      requires Valid()
      modifies this`lost
      ensures Valid() && lost == old(lost) + uploads
    {
      forall i | 0 <= i < |past| ensures Sound(past[i], archives, remote, lost + uploads) {
        StillSound(past[i], archives, archives, remote, lost, lost + uploads);
      }
      lost := lost + uploads;
    }

    // Whatever is asked may fail.
    method Works() returns (ok: bool)
      modifies this`failed
      ensures failed == old(failed) + if ok then 0 else 1
    {
      ok := *;
      if !ok {
        failed := failed + 1;
      }
    }

    // Files: opened, written to, removed, renamed and read.
    method Create(name: string) returns (ok: bool)
      requires Valid() && !IsFinal(name) && Dispensable(now, lost, name)
      modifies this`now, this`past, this`failed
      ensures Valid() && old(past) <= past
      ensures now == if ok then old(now).(files := old(now).files[name := ""]) else old(now)
      ensures failed == old(failed) + if ok then 0 else 1
    {
      ok := Works();
      if ok {
        NotesOfOthers(now, name, "", lost);
        Become(now.(files := now.files[name := ""]));
      }
    }

    // A write that fails may have written a part.
    method Append(name: string, data: string) returns (ok: bool)
      requires Valid() && !IsFinal(name) && name in now.files && (HasSuffix(name, NOTE) ==> now.files[name] == "")
      modifies this`now, this`past, this`failed
      ensures Valid() && old(past) <= past && name in now.files
      ensures now == old(now).(files := old(now).files[name := now.files[name]])
      ensures old(now).files[name] <= now.files[name] <= old(now).files[name] + data
      ensures ok ==> now.files[name] == old(now).files[name] + data
      ensures failed == old(failed) + if ok then 0 else 1
    {
      ok := Works();
      var k: int := *;
      if ok || k < 0 || k > |data| {
        k := |data|;
      }
      assert data[..|data|] == data;
      NotesOfOthers(now, name, now.files[name] + data[..k], lost);
      Become(now.(files := now.files[name := now.files[name] + data[..k]]));
    }

    method RemovePartial(name: string) returns (ok: bool)
      requires Valid() && HasSuffix(name, PARTIAL)
      modifies this`now, this`past, this`stuck
      ensures Valid() && old(past) <= past
      ensures now == if ok then old(now).(files := old(now).files - {name}) else old(now)
      ensures stuck == old(stuck) + if ok then {} else {name}
    {
      ok := *;
      if ok {
        PartialIsNoNote(name);
        var s := now.(files := now.files - {name});
        forall u ensures Noted(now, u) ==> Noted(s, u) {
          SuffixOn(u.key, NOTE);
        }
        Become(s);
      } else {
        stuck := stuck + {name};
      }
    }

    method RemoveNote(name: string) returns (ok: bool)
      requires Valid() && HasSuffix(name, NOTE) && Dispensable(now, lost, name)
      modifies this`now, this`past, this`stuck
      ensures Valid() && old(past) <= past
      ensures now == if ok then old(now).(files := old(now).files - {name}) else old(now)
      ensures stuck == old(stuck) + if ok then {} else {name}
    {
      ok := *;
      if ok {
        Become(now.(files := now.files - {name}));
      } else {
        stuck := stuck + {name};
      }
    }

    method Rename(name: string, final: string) returns (ok: bool)
      requires Valid() && HasSuffix(name, PARTIAL) && name in now.files && IsFinal(final)
      requires (final, now.files[name]) in archives
      requires remote ==> final in now.objects && (final, now.objects[final]) in archives
      modifies this`now, this`past, this`failed
      ensures Valid() && old(past) <= past
      ensures now == if ok then old(now).(files := old(now).files[final := old(now).files[name]] - {name}) else old(now)
      ensures failed == old(failed) + if ok then 0 else 1
    {
      ok := Works();
      if ok {
        PartialIsNoNote(name);
        var s := now.(files := now.files[final := now.files[name]] - {name});
        forall u ensures Noted(now, u) ==> Noted(s, u) {
          SuffixOn(u.key, NOTE);
        }
        Become(s);
      }
    }

    method ReadFile(name: string) returns (content: Option<string>)
      modifies this`failed
      ensures content.Some? ==> name in now.files && content.value == now.files[name]
      ensures old(failed) <= failed && (failed == old(failed) && name in now.files ==> content.Some?)
    {
      var ok := Works();
      content := if ok && name in now.files then Some(now.files[name]) else None;
    }

    // Requests to the bucket. One that creates an upload may have done so
    // although its answer never came.
    method CreateUpload(key: string, c: Creation) returns (got: Option<string>)
      requires Valid()
      modifies this`now, this`past
      ensures Valid() && old(past) <= past
      ensures if Creates(old(now), key, c) then Opened(old(now), key, c.id, now) else now == old(now)
      ensures got == if Creates(old(now), key, c) && c.Created? then Some(c.id) else None
    {
      if !Creates(now, key, c) {
        return None;
      }
      Become(now.(uploads := now.uploads[Upload(key, c.id) := map[]]));
      got := if c.Created? then Some(c.id) else None;
    }

    method StorePart(u: Upload, number: nat, data: string)
      requires Valid() && Noted(now, u) && u in now.uploads
      modifies this`now, this`past
      ensures Valid() && old(past) <= past
      ensures now == old(now).(uploads := old(now).uploads[u := old(now).uploads[u][number := data]])
    {
      PartIsSound(now, u, number, data, archives, remote, lost);
      Become(now.(uploads := now.uploads[u := now.uploads[u][number := data]]));
    }

    method PutPart(u: Upload, number: nat, data: string) returns (a: Answer)
      requires Valid() && 1 <= number <= MAX_PARTS && Noted(now, u)
      modifies this`now, this`past, this`failed, this`sent
      ensures sent == old(sent) + 1
      ensures Valid() && old(past) <= past
      ensures now == old(now) || (u in old(now).uploads
        && now == old(now).(uploads := old(now).uploads[u := old(now).uploads[u][number := data]]))
      ensures a.Taken? ==> a.tag == data
      ensures old(failed) <= failed
      ensures failed == old(failed) && u in old(now).uploads ==>
        a.Taken? && now == old(now).(uploads := old(now).uploads[u := old(now).uploads[u][number := data]])
    {
      var applied: bool := *;
      a := *;
      sent := sent + 1;
      if u !in now.uploads {
        return Refused;
      }
      var works := Works();
      if works {
        a := Taken(data);
      }
      if a.Taken? {
        applied, a := true, Taken(data);
      }
      if applied {
        StorePart(u, number, data);
      }
    }

    // The object is what the tags stand for, if these are the parts there are.
    method CompleteUpload(u: Upload, tags: seq<string>) returns (ok: bool)
      requires Valid() && 0 < |tags| <= MAX_PARTS && forall i :: 0 <= i < |tags| - 1 ==> |tags[i]| >= MIN_PART
      requires (u.key, Concat(tags)) in archives
      modifies this`now, this`past, this`failed
      ensures Valid() && old(past) <= past
      ensures ok ==> u in old(now).uploads
      ensures now == old(now) || (u in old(now).uploads
        && now == old(now).(objects := old(now).objects[u.key := Concat(tags)], uploads := old(now).uploads - {u}))
      ensures ok ==> u !in now.uploads && u.key in now.objects && now.objects[u.key] == Concat(tags)
      ensures old(failed) <= failed
      ensures failed == old(failed) && HoldsParts(old(now), u, tags) ==> ok
    {
      if !HoldsParts(now, u, tags) {
        return false;
      }
      ok := Works();
      var applied: bool := *;
      if !ok && !applied {
        return;
      }
      Become(now.(objects := now.objects[u.key := Concat(tags)], uploads := now.uploads - {u}));
    }

    // One that is not there is not an error.
    method AbortUpload(u: Upload) returns (ok: bool)
      requires Valid()
      modifies this`now, this`past, this`failed
      ensures Valid() && old(past) <= past
      ensures now == old(now) || now == old(now).(uploads := old(now).uploads - {u})
      ensures ok ==> u !in now.uploads
      ensures failed == old(failed) + if ok then 0 else 1
    {
      var applied: bool := *;
      ok := Works();
      if u in now.uploads && (ok || applied) {
        Become(now.(uploads := now.uploads - {u}));
      }
    }

    method Put(key: string, data: string) returns (ok: bool)
      requires Valid() && ((key, data) in archives || !IsFinal(key))
      modifies this`now, this`past, this`failed
      ensures Valid() && old(past) <= past
      ensures now == old(now) || now == old(now).(objects := old(now).objects[key := data])
      ensures ok ==> key in now.objects && now.objects[key] == data
      ensures failed == old(failed) + if ok then 0 else 1
    {
      var applied: bool := *;
      ok := Works();
      if ok || applied {
        Become(now.(objects := now.objects[key := data]));
      }
    }

    // What an object holds, if it can be read, and whether there is none.
    method Get(key: string) returns (content: Option<string>, absent: bool)
      modifies this`failed
      ensures old(failed) <= failed && (failed == old(failed) ==> content.Some? || absent)
      ensures absent ==> content.None? && key !in now.objects
      ensures content.Some? ==> key in now.objects && content.value == now.objects[key]
    {
      var ok := Works();
      if !ok {
        return None, false;
      }
      if key !in now.objects {
        return None, true;
      }
      return Some(now.objects[key]), false;
    }

    // The keys of all objects.
    method List() returns (keys: Option<seq<string>>)
      modifies this`failed
      ensures failed == old(failed) + if keys.Some? then 0 else 1
      ensures keys.Some? ==> forall k :: k in now.objects <==> k in keys.value
    {
      var ok := Works();
      if !ok {
        return None;
      }
      var found: seq<string>, rest := [], now.objects.Keys;
      while |rest| > 0
        invariant rest <= now.objects.Keys && forall k :: k in now.objects && k !in rest <==> k in found
        decreases |rest|
      {
        var k :| k in rest;
        found, rest := found + [k], rest - {k};
      }
      keys := Some(found);
    }
  }

  function Start(content: string, limit: nat): string {
    content[..if |content| < limit then |content| else limit]
  }

  // What becomes of a request to create an upload: nothing, an upload, or an
  // upload that nobody is told of.
  datatype Creation = NotCreated | Created(id: string) | AnswerLost(id: string)

  // The service hands out ids that are new, and not spaced.
  predicate Creates(s: State, key: string, c: Creation) {
    !c.NotCreated? && c.id != "" && TrimSpace(c.id) == c.id && Upload(key, c.id) !in s.uploads
  }

  // The uploads a file's note names.
  ghost function NotedBy(s: State, name: string): set<Upload> {
    set u | u in s.uploads && u.key == name && Noted(s, u)
  }

  // The parts of an upload are what these tags stand for, numbered from 1 on.
  predicate HoldsParts(s: State, u: Upload, tags: seq<string>) {
    u in s.uploads && forall i :: 0 <= i < |tags| ==> HasPart(s.uploads[u], i + 1, tags[i])
  }

  predicate HasPart(parts: map<int, string>, number: int, tag: string) {
    number in parts && parts[number] == tag
  }

  // No upload with parts is known by this note alone.
  ghost predicate Dispensable(s: State, lost: set<Upload>, note: string) {
    forall u :: u in s.uploads && u.key + NOTE == note && s.uploads[u] != map[] ==> u in lost || !Noted(s, u)
  }

  ghost predicate Opened(before: State, key: string, id: string, after: State) {
    && Upload(key, id) !in before.uploads
    && after == before.(uploads := before.uploads[Upload(key, id) := map[]])
  }

  lemma StillSound(s: State, archives: set<(string, string)>, more: set<(string, string)>, remote: bool,
                   lost: set<Upload>, gone: set<Upload>)
    requires Sound(s, archives, remote, lost) && archives <= more && lost <= gone
    ensures Sound(s, more, remote, gone)
  {
  }

  lemma PartIsSound(s: State, u: Upload, number: int, data: string, archives: set<(string, string)>, remote: bool,
                    lost: set<Upload>)
    requires Sound(s, archives, remote, lost) && Noted(s, u) && u in s.uploads
    ensures Sound(s.(uploads := s.uploads[u := s.uploads[u][number := data]]), archives, remote, lost)
  {
  }

  lemma SuffixOn(s: string, suffix: string)
    ensures HasSuffix(s + suffix, suffix)
  {
    assert (s + suffix)[|s|..] == suffix;
  }

  lemma PartialIsNoNote(name: string)
    ensures HasSuffix(name, PARTIAL) ==> !HasSuffix(name, NOTE)
  {
    if HasSuffix(name, PARTIAL) { LastOf(name, PARTIAL); }
    if HasSuffix(name, NOTE) { LastOf(name, NOTE); }
  }

  lemma NotesOfOthers(s: State, name: string, content: string, lost: set<Upload>)
    requires Dispensable(s, lost, name) || (name in s.files && s.files[name] == "")
    ensures forall u :: u in s.uploads && s.uploads[u] != map[] && u !in lost && Noted(s, u) ==>
              Noted(s.(files := s.files[name := content]), u)
  {
  }

  // An upload with a part, and its note.
  function Interrupted(u: Upload): State {
    State(map[u.key + NOTE := u.id], map[], map[u := map[1 := "x"]])
  }

  lemma InterruptedIsSound(u: Upload)
    requires u.id != "" && TrimSpace(u.id) == u.id
    ensures Sound(Interrupted(u), {}, true, {}) && Noted(Interrupted(u), u)
  {
    SuffixOn(u.key, NOTE);
  }

  lemma SevenIsAnId()
    ensures TrimSpace("7") == "7"
  {
    assert !IsSpace("7"[0]);
  }
}
