/**
An encrypted backup from one end to the other (Write and Open in
agent/internal/backup/storage.go, over pkg/backupfile/backupfile.go): what was
stored with a passphrase is read back, from the directory or from the bucket.
*/
module StoredBackup {
  import opened Options
  import opened Text
  import opened BackupWorld
  import Multipart
  import Storage
  import B = Backupfile
  import C = BackupfileCode

  const ENCRYPTED := ".enc"

  // Characters stand for bytes.
  function AsText(bytes: B.Bytes): (s: string)
    ensures |s| == |bytes| && forall k :: 0 <= k < |s| ==> s[k] as int == bytes[k]
  {
    seq(|bytes|, k requires 0 <= k < |bytes| => bytes[k] as char)
  }

  function AsBytes(s: string): (bytes: B.Bytes)
    ensures |bytes| == |s|
  {
    seq(|s|, k requires 0 <= k < |s| => s[k] as int % 256)
  }

  lemma BytesBack(bytes: B.Bytes)
    ensures AsBytes(AsText(bytes)) == bytes
  {
  }

  lemma EncryptedIsFinal(name: string)
    ensures IsFinal(name + ENCRYPTED)
  {
    var s := name + ENCRYPTED;
    if HasSuffix(s, PARTIAL) { LastOf(s, PARTIAL); }
    if HasSuffix(s, NOTE) { LastOf(s, NOTE); }
    assert s[|s| - 1] == 'c' && MARKER[|MARKER| - 1] == 'n';
  }

  // The stored file: the directory is asked first, and the bucket for a file that is not there.
  method Open(w: World, name: string) returns (content: Option<string>)
    modifies w`failed
    ensures old(w.failed) <= w.failed
    ensures w.failed == old(w.failed) && (name in w.now.files || (w.remote && name in w.now.objects)) ==> content.Some?
    ensures content.Some? ==> if name in w.now.files then content.value == w.now.files[name]
                              else name in w.now.objects && content.value == w.now.objects[name]
  {
    content := w.ReadFile(name);
    if content.Some? {
      return;
    }
    if name in w.now.files || !w.remote {
      return None;
    }
    var absent;
    content, absent := w.Get(name);
  }

  /** The archive that is stored of a plaintext reads back to it, and then ends. */
  lemma ReadsBack(c: B.Cipher, passphrase: string, iterations: nat, salt: B.Bytes, p: B.Bytes, sealed: set<B.Sealing>)
    requires |salt| == B.SALT_SIZE && 0 < iterations <= B.MAX_ITERATIONS && passphrase != ""
    requires B.Ideal(c, sealed) && B.OneFile(B.Written(c, passphrase, iterations, salt), p, true, sealed)
    ensures var archive := AsText(B.File(B.Written(c, passphrase, iterations, salt), p));
      B.ReadFile(c, passphrase, AsBytes(archive)) == (p, B.EOF)
  {
    BytesBack(B.File(B.Written(c, passphrase, iterations, salt), p));
    B.FileRoundTrip(c, passphrase, iterations, salt, p, sealed);
  }

  // Write, with a passphrase.
  method Store(w: World, name: string, c: B.Cipher, passphrase: string, iterations: nat, salt: B.Bytes,
               pieces: seq<B.Bytes>, creation: Creation)
    returns (r: Multipart.Outcome)
    requires w.Valid() && |salt| == B.SALT_SIZE
    modifies w
    ensures var archive := AsText(B.File(B.Written(c, passphrase, iterations, salt), B.Flatten(pieces)));
      && w.Valid() && Storage.Written(old(w.now), w.now, name + ENCRYPTED, archive, creation, r, w.remote)
      && old(w.failed) <= w.failed
      && var fits := w.remote ==> Multipart.Sendable(old(w.now), name + ENCRYPTED, archive, creation);
      w.failed == old(w.failed) && fits ==> r.Done?
  {
    var key, header := c.derive(passphrase, salt, iterations), B.Header(iterations, salt, B.CHUNK_SIZE);
    var suite := B.Suite(c, key, header, B.CHUNK_SIZE);
    var file := C.WriteFile(suite, pieces);
    EncryptedIsFinal(name);
    r := Storage.Write(w, name + ENCRYPTED, AsText(file), creation);
  }

  // Open, with a passphrase, and reading to the end through buffers of any sizes.
  method Restore(w: World, name: string, c: B.Cipher, passphrase: string, sizes: nat -> nat)
    returns (found: bool, all: B.Bytes, end: B.End)
    requires forall i :: sizes(i) > 0
    modifies w`failed
    ensures old(w.failed) <= w.failed
    ensures w.failed == old(w.failed) && (name in w.now.files || (w.remote && name in w.now.objects)) ==> found
    ensures found ==> (name in w.now.files || name in w.now.objects)
    ensures found ==>
        var content := if name in w.now.files then w.now.files[name] else w.now.objects[name];
        (all, end) == B.ReadFile(c, passphrase, AsBytes(content))
  {
    var content := Open(w, name);
    if content.None? {
      return false, [], B.EOF;
    }
    var file := AsBytes(content.value);
    var (suite, failure) := B.Open(c, passphrase, file);
    if suite.None? {
      return true, [], B.Failed(failure.value);
    }
    var reader := new C.Reader(suite.value, file[B.HEADER_SIZE..]);
    all, end := reader.ReadAll(sizes);
    found := true;
  }

  /**
   What was stored with a passphrase, in whatever pieces, is read back whole and then ends, through
   whatever buffers: from the directory, and from the bucket when the directory is lost.
   */
  method StoreThenRestore(w: World, name: string, c: B.Cipher, passphrase: string, iterations: nat, salt: B.Bytes,
                          pieces: seq<B.Bytes>, creation: Creation, sizes: nat -> nat, lost: bool,
                          ghost sealed: set<B.Sealing>)
    returns (stored: bool, found: bool, all: B.Bytes, end: B.End, ghost failures: nat)
    requires w.Valid() && |salt| == B.SALT_SIZE && 0 < iterations <= B.MAX_ITERATIONS && passphrase != ""
    requires B.Ideal(c, sealed) &&
        B.OneFile(B.Written(c, passphrase, iterations, salt), B.Flatten(pieces), true, sealed)
    requires (forall i :: sizes(i) > 0) && (lost ==> w.remote)
    modifies w
    ensures stored && found ==> all == B.Flatten(pieces) && end == B.EOF
    ensures var archive := AsText(B.File(B.Written(c, passphrase, iterations, salt), B.Flatten(pieces)));
      failures == 0 && (w.remote ==> Multipart.Sendable(old(w.now), name + ENCRYPTED, archive, creation)) ==>
        stored && found
  {
    var r := Store(w, name, c, passphrase, iterations, salt, pieces, creation);
    stored := r == Multipart.Done;
    if !stored {
      return false, false, [], B.EOF, w.failed - old(w.failed);
    }
    ReadsBack(c, passphrase, iterations, salt, B.Flatten(pieces), sealed);
    var server := w;
    if lost {
      server := new World(State(map[], w.now.objects, w.now.uploads), true, w.archives, w.now.uploads.Keys, {}, map[]);
    }
    ghost var before := server.failed;
    failures := w.failed - old(w.failed);
    found, all, end := Restore(server, name + ENCRYPTED, c, passphrase, sizes);
    failures := failures + server.failed - before;
  }
}
