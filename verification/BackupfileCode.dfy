/**
Writer and Reader of pkg/backupfile/backupfile.go as they work: buffers that
are filled and emptied in place, one call at a time.
*/
module BackupfileCode {
  import opened Options
  import opened Backupfile

  // Where a file goes: a place that takes so many more bytes and then fails, or any number.
  class Sink {
    var written: Bytes
    var room: Option<nat>

    constructor (room: Option<nat>)
      ensures written == [] && this.room == room
    {
      written, this.room := [], room;
    }

    method Write(b: Bytes) returns (ok: bool)
      modifies this
      ensures ok == (old(room).None? || |b| <= old(room).value)
      ensures ok ==> written == old(written) + b
      ensures !ok ==> written == old(written) + b[..old(room).value]
      ensures room.None? == old(room).None?
    {
      ok := room.None? || |b| <= room.value;
      if ok {
        written := written + b;
        room := if room.None? then None else Some(room.value - |b|);
      } else {
        written, room := written + b[..room.value], Some(0);
      }
    }
  }

  class Writer {
    const w: Sink
    const suite: Suite
    var buf: Bytes
    var index: nat
    var err: bool
    var closed: bool
    ghost var data: Bytes      // everything that was written to the writer
    ghost var full: seq<Bytes> // the chunks of it sealed as not the last
    ghost var start: Bytes     // what the sink held before the first chunk

    // What a writer that saw no error has put into the sink.
    ghost predicate Valid()
      reads this, w
    {
      && suite.size > 0
      && (!err && !closed ==>
            && data == Flatten(full) + buf && Full(full, suite.size) && |buf| <= suite.size
            && (full != [] ==> buf != []) && index == |full|
            && w.written == start + SealFull(suite, 0, full))
      && (!err && closed ==> w.written == start + SealAll(suite, 0, Chunks(data, suite.size)))
    }

    // NewWriter, once the header is written.
    constructor (w: Sink, suite: Suite)
      requires suite.size > 0
      ensures Valid() && this.w == w && this.suite == suite && !err && !closed && data == []
      ensures start == w.written
    {
      this.w, this.suite := w, suite;
      buf, index, err, closed := [], 0, false, false;
      data, full := [], [];
      start := w.written;
    }

    method Seal(last: bool) returns (ok: bool)
      modifies this`buf, this`index, w
      ensures ok ==> w.written == old(w.written) + SealOne(suite, old(index), last, old(buf))
      ensures buf == [] && index == old(index) + 1
      ensures w.room.None? == old(w.room).None? && (w.room.None? ==> ok)
    {
      var out := SealOne(suite, index, last, buf);
      index := index + 1;
      buf := [];
      ok := w.Write(out);
    }

    // A full buffer is sealed only when more arrives.
    method MakeRoom(ghost more: Bytes)
      requires Valid() && !err && !closed && more != []
      modifies this, w
      ensures !closed && start == old(start) && data == old(data)
      ensures !err ==> data == Flatten(full) + buf && Full(full, suite.size) && |buf| < suite.size && index == |full|
                       && w.written == start + SealFull(suite, 0, full)
      ensures w.room.None? == old(w.room).None? && (w.room.None? ==> !err)
    {
      if |buf| == suite.size {
        OneMoreFull(suite, full, buf);
        OneMoreSealed(suite, full, buf, start);
        ghost var longer := full + [buf];
        var ok := Seal(false);
        full := longer;
        err := !ok;
      }
    }

    // As much of p as the buffer has room for.
    method Fill(p: Bytes) returns (n: nat)
      requires suite.size > 0 && p != []
      requires !err && !closed && data == Flatten(full) + buf && Full(full, suite.size) && |buf| < suite.size
      requires index == |full| && w.written == start + SealFull(suite, 0, full)
      modifies this`buf, this`data
      ensures Valid() && 0 < n <= |p| && data == old(data) + p[..n]
    {
      n := if suite.size - |buf| < |p| then suite.size - |buf| else |p|;
      Associative(Flatten(full), buf, p[..n]);
      buf := buf + p[..n];
      data := data + p[..n];
    }

    // Without an error everything is taken, however it is split into calls;
    // with one, the writer stays failed and takes nothing more.
    method Write(p: Bytes) returns (written: nat, ok: bool)
      requires Valid()
      modifies this, w
      ensures Valid() && closed == old(closed) && start == old(start)
      ensures written <= |p| && data == old(data) + p[..written]
      ensures ok == (!err && !old(closed)) && (ok ==> written == |p|)
      ensures old(err) || old(closed) ==> written == 0 && w.written == old(w.written) && err == old(err)
      ensures w.room.None? == old(w.room).None? && (w.room.None? ==> err == old(err))
    {
      written := 0;
      if err || closed {
        assert data == data + p[..0];
        return 0, false;
      }
      var rest := p;
      while |rest| > 0
        invariant Valid() && !err && !closed && start == old(start)
        invariant written + |rest| == |p| && rest == p[written..]
        invariant data == old(data) + p[..written]
        invariant w.room.None? == old(w.room).None?
        decreases |rest|
      {
        MakeRoom(rest);
        if err {
          return written, false;
        }
        var n := Fill(rest);
        Taken(p, written, n, old(data));
        rest := rest[n..];
        written := written + n;
      }
      assert p[..written] == p;
      ok := true;
    }

    // The sink then holds the file of everything that was written, and of nothing else.
    method Close() returns (ok: bool)
      requires Valid()
      modifies this, w
      ensures Valid() && closed && ok == !err && start == old(start) && data == old(data)
      ensures old(closed) || old(err) ==> w.written == old(w.written) && err == old(err)
      ensures ok ==> w.written == start + SealAll(suite, 0, Chunks(data, suite.size))
      ensures w.room.None? == old(w.room).None? && (w.room.None? ==> err == old(err))
    {
      if closed {
        return !err;
      }
      if err {
        closed := true;
        return false;
      }
      LastOne(suite, full, buf, start);
      ok := Seal(true);
      closed, err := true, !ok;
    }
  }

  lemma FlattenOne(chunk: Bytes)
    ensures Flatten([chunk]) == chunk
  {
    assert Flatten([chunk]) == chunk + [];
  }

  lemma Associative(a: Bytes, b: Bytes, c: Bytes)
    ensures a + b + c == a + (b + c)
  {
  }

  lemma OneMoreFull(s: Suite, full: seq<Bytes>, chunk: Bytes)
    requires Full(full, s.size) && |chunk| == s.size
    ensures Full(full + [chunk], s.size) && Flatten(full + [chunk]) + [] == Flatten(full) + chunk
  {
    FlattenAppend(full, [chunk]);
    FlattenOne(chunk);
  }

  lemma OneMoreSealed(s: Suite, full: seq<Bytes>, chunk: Bytes, start: Bytes)
    ensures start + SealFull(s, 0, full) + SealOne(s, |full|, false, chunk) == start + SealFull(s, 0, full + [chunk])
  {
    SealFullAppend(s, 0, full, chunk);
    Associative(start, SealFull(s, 0, full), SealOne(s, |full|, false, chunk));
  }

  lemma LastOne(s: Suite, full: seq<Bytes>, last: Bytes, start: Bytes)
    requires s.size > 0 && Full(full, s.size) && |last| <= s.size && (full != [] ==> last != [])
    ensures start + SealFull(s, 0, full) + SealOne(s, |full|, true, last)
            == start + SealAll(s, 0, Chunks(Flatten(full) + last, s.size))
  {
    ChunksAreUnique(full, last, s.size);
    Associative(start, SealFull(s, 0, full), SealOne(s, |full|, true, last));
    SealAllOf(s, full, last);
  }

  lemma SealAllOf(s: Suite, full: seq<Bytes>, last: Bytes)
    ensures SealAll(s, 0, full + [last]) == SealFull(s, 0, full) + SealOne(s, |full|, true, last)
  {
    assert (full + [last])[..|full + [last]| - 1] == full;
  }

  lemma Taken(p: Bytes, written: nat, n: nat, before: Bytes)
    requires written + n <= |p|
    ensures before + p[..written] + p[written..][..n] == before + p[..written + n]
    ensures p[written..][n..] == p[written + n..]
  {
  }

  class Reader {
    const suite: Suite
    var r: Bytes     // what of the file has not been read
    var plain: Bytes // what of the current chunk has not been handed out
    var index: nat
    var done: bool
    var err: Option<Failure>

    // Everything the reader is going to hand out, and how it ends.
    ghost function Rest(): (Bytes, End)
      reads this
      requires suite.size > 0
    {
      if err.Some? then (plain, Failed(err.value))
      else if done then (plain, EOF)
      else
        var (more, end) := ReadBody(suite, index, r);
        (plain + more, end)
    }

    // NewReader, once the header has been read.
    constructor (suite: Suite, body: Bytes)
      requires suite.size > 0
      ensures this.suite == suite && Rest() == ReadBody(suite, 0, body)
    {
      this.suite := suite;
      r, plain, index, done, err := body, [], 0, false, None;
      new;
      assert [] + ReadBody(suite, 0, body).0 == ReadBody(suite, 0, body).0;
    }

    // The next chunk; the last one when the file ends with it.
    method Open() returns (failure: Option<Failure>)
      requires suite.size > 0
      modifies this`r, this`plain, this`index, this`done
      ensures failure.Some? ==> old(ReadBody(suite, index, r)) == ([], Failed(failure.value)) && plain == old(plain)
      ensures failure.None? && done ==> old(ReadBody(suite, index, r)) == (plain, EOF)
      ensures failure.None? && !done ==> |r| < |old(r)|
      ensures failure.None? && !done ==>
        var (more, end) := ReadBody(suite, index, r); old(ReadBody(suite, index, r)) == (plain + more, end)
    {
      var n := if |r| < suite.size + TAG_SIZE then |r| else suite.size + TAG_SIZE;
      var last := |r| <= suite.size + TAG_SIZE;
      var sealed := r[..n];
      r := r[n..];
      var failed := if index == 0 then Passphrase else Corrupt;
      if n < TAG_SIZE {
        return Some(failed);
      }
      var unsealed := suite.c.open(suite.key, Nonce(index, last), sealed, suite.header);
      if unsealed.None? {
        return Some(failed);
      }
      index := index + 1;
      plain, done := unsealed.value, last;
      return None;
    }

    // Hands out some of what is left, or says how it ends.
    method Read(size: nat) returns (p: Bytes, end: Option<End>)
      requires suite.size > 0
      modifies this
      ensures end.None? ==> |p| <= size && old(Rest()) == (p + Rest().0, Rest().1)
      ensures end.None? && size > 0 ==> p != []
      ensures end.Some? ==> p == [] && old(Rest()) == ([], end.value) && Rest() == old(Rest())
    {
      while |plain| == 0
        invariant Rest() == old(Rest())
        decreases !done && err.None?, |r|
      {
        if err.Some? {
          return [], Some(Failed(err.value));
        }
        if done {
          return [], Some(EOF);
        }
        ghost var all := Rest().0;
        assert plain == [] && [] + ReadBody(suite, index, r).0 == ReadBody(suite, index, r).0;
        err := Open();
        if err.Some? {
          return [], Some(Failed(err.value));
        }
      }
      var n := if size < |plain| then size else |plain|;
      p := plain[..n];
      ghost var rest := Rest().0;
      assert plain == plain[..n] + plain[n..];
      plain := plain[n..];
      assert rest == p + Rest().0;
      end := None;
    }

    // Reading on, whatever the sizes of the buffers, gives everything and then the end.
    method ReadAll(sizes: nat -> nat) returns (all: Bytes, end: End)
      requires suite.size > 0 && forall i :: sizes(i) > 0
      modifies this
      ensures (all, end) == old(Rest())
    {
      all := [];
      var i: nat := 0;
      assert all + Rest().0 == Rest().0;
      while true
        invariant old(Rest()) == (all + Rest().0, Rest().1)
        decreases |Rest().0|
      {
        ghost var before := Rest().0;
        var p, ended := Read(sizes(i));
        i := i + 1;
        if ended.Some? {
          assert all + [] == all;
          return all, ended.value;
        }
        assert before == p + Rest().0;
        assert all + before == all + p + Rest().0;
        all := all + p;
      }
    }
  }

  /** Writing, in whatever pieces, and reading back, through whatever buffers, is the identity. */
  method WriteThenRead(c: Cipher, passphrase: string, iterations: nat, salt: Bytes, pieces: seq<Bytes>,
                       sizes: nat -> nat, ghost sealed: set<Sealing>)
    returns (file: Bytes, all: Bytes, end: End)
    requires |salt| == SALT_SIZE && 0 < iterations <= MAX_ITERATIONS && passphrase != ""
    requires forall i :: sizes(i) > 0
    requires Ideal(c, sealed)
    requires OneFile(Written(c, passphrase, iterations, salt), Flatten(pieces), true, sealed)
    ensures file == File(Written(c, passphrase, iterations, salt), Flatten(pieces))
    ensures all == Flatten(pieces) && end == EOF
  {
    var suite := Suite(c, c.derive(passphrase, salt, iterations), Header(iterations, salt, CHUNK_SIZE), CHUNK_SIZE);
    ghost var p := Flatten(pieces);
    file := WriteFile(suite, pieces);
    FileRoundTrip(c, passphrase, iterations, salt, p, sealed);
    HeaderRoundTrip(c, passphrase, iterations, salt, file[HEADER_SIZE..]);
    assert file == suite.header + file[HEADER_SIZE..];
    var reader := new Reader(suite, file[HEADER_SIZE..]);
    all, end := reader.ReadAll(sizes);
  }

  /** The file depends on what was written and not on the pieces it came in. */
  method WriteFile(suite: Suite, pieces: seq<Bytes>) returns (file: Bytes)
    requires suite.size > 0
    ensures file == File(suite, Flatten(pieces))
  {
    var sink := new Sink(None);
    sink.written := suite.header;
    var writer := new Writer(sink, suite);
    for i := 0 to |pieces|
      invariant writer.Valid() && !writer.err && !writer.closed && writer.start == suite.header && sink.room.None?
      invariant writer.data == Flatten(pieces[..i])
    {
      assert pieces[..i + 1] == pieces[..i] + [pieces[i]];
      FlattenAppend(pieces[..i], [pieces[i]]);
      FlattenOne(pieces[i]);
      var n, ok := writer.Write(pieces[i]);
      assert pieces[i][..n] == pieces[i];
    }
    assert pieces[..|pieces|] == pieces;
    assert writer.data == Flatten(pieces);
    var ok := writer.Close();
    assert writer.w == sink && writer.suite == suite && ok;
    return sink.written;
  }
}
