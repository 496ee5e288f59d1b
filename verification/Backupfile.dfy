/**
The encrypted form of a backup (pkg/backupfile/backupfile.go): header, nonces,
chunks, what a file of a plaintext is, what reading any bytes gives, and the
size that encryption adds. The cipher and the key derivation are parameters.
*/
module Backupfile {
  import opened Options
  import Calendar

  type byte = x: int | 0 <= x < 256
  type Bytes = seq<byte>
  type Key(!new, ==)

  const MAGIC: Bytes := [0x53, 0x57, 0x42, 0x41, 0x43, 0x4b, 0x55, 0x50] // "SWBACKUP"
  const VERSION: byte := 1
  const SALT_SIZE := 16
  const HEADER_SIZE := 33
  const TAG_SIZE := 16
  const CHUNK_SIZE := 65536
  const MAX_CHUNK_SIZE := 16777216
  const MAX_ITERATIONS := 10_000_000

  // The width lowest bytes of n, the highest first.
  function BigEndian(n: nat, width: nat): (b: Bytes)
    ensures |b| == width
  {
    if width == 0 then [] else BigEndian(n / 256, width - 1) + [n % 256]
  }

  function FromBigEndian(b: Bytes): nat {
    if b == [] then 0 else 256 * FromBigEndian(b[..|b| - 1]) + b[|b| - 1]
  }

  function Power256(width: nat): nat {
    if width == 0 then 1 else 256 * Power256(width - 1)
  }

  lemma {:induction false} BigEndianRoundTrip(n: nat, width: nat)
    requires n < Power256(width)
    ensures FromBigEndian(BigEndian(n, width)) == n
  {
    if width > 0 {
      BigEndianRoundTrip(n / 256, width - 1);
    }
  }

  // A counter of 64 bits, three zero bytes, and the marker of the last chunk.
  function Nonce(index: nat, last: bool): (n: Bytes)
    ensures |n| == 12
  {
    BigEndian(index % 0x1_0000_0000_0000_0000, 8) + Mark(last)
  }

  /** A nonce is the index in its first eight bytes, the highest first, and the marker in its last. */
  lemma NonceStands(index: nat, last: bool)
    requires index < 0x1_0000_0000_0000_0000
    ensures var n := Nonce(index, last);
      && |n| == 12 && n[8] == n[9] == n[10] == 0 && n[11] == (if last then 1 else 0)
      && index == 0x1_0000_0000 * FourBytes(n[..4]) + FourBytes(n[4..8])
  {
    NonceOf(index, last);
    var b := BigEndian(index, 8);
    assert Nonce(index, last)[..4] == b[..4] && Nonce(index, last)[4..8] == b[4..8];
    EightBytesOf(index);
  }

  lemma EightBytes()
    ensures Power256(8) == 0x1_0000_0000_0000_0000
  {
    assert Power256(1) == 0x100;
    assert Power256(2) == 0x1_0000;
    assert Power256(4) == 0x1_0000_0000;
    assert Power256(6) == 0x1_0000_0000_0000;
  }

  lemma TwoParts(a: Bytes, b: Bytes, a': Bytes, b': Bytes)
    requires |a| == |a'| && a + b == a' + b'
    ensures a == a' && b == b'
  {
    assert a == (a + b)[..|a|] && b == (a + b)[|a|..];
    assert a' == (a' + b')[..|a|] && b' == (a' + b')[|a|..];
  }

  function Mark(last: bool): Bytes {
    [0, 0, 0, if last then 1 else 0]
  }

  lemma NonceOf(i: nat, last: bool)
    requires i < 0x1_0000_0000_0000_0000
    ensures Nonce(i, last) == BigEndian(i, 8) + Mark(last)
  {
    assert i % 0x1_0000_0000_0000_0000 == i;
  }

  lemma CounterAndMark(i: nat, last: bool, j: nat, last': bool, width: nat)
    requires i < Power256(width) && j < Power256(width)
    requires BigEndian(i, width) + Mark(last) == BigEndian(j, width) + Mark(last')
    ensures i == j && last == last'
  {
    TwoParts(BigEndian(i, width), Mark(last), BigEndian(j, width), Mark(last'));
    assert Mark(last)[3] == Mark(last')[3];
    BigEndianRoundTrip(i, width);
    BigEndianRoundTrip(j, width);
  }

  /** No two chunks of a file share a nonce, and the last one's is nobody else's. */
  lemma NonceIsUnique(i: nat, last: bool, j: nat, last': bool)
    requires i < 0x1_0000_0000_0000_0000 && j < 0x1_0000_0000_0000_0000
    requires Nonce(i, last) == Nonce(j, last')
    ensures i == j && last == last'
  {
    assert Power256(8) == 0x1_0000_0000_0000_0000 by { EightBytes(); }
    assert BigEndian(i, 8) + Mark(last) == BigEndian(j, 8) + Mark(last') by {
      NonceOf(i, last);
      NonceOf(j, last');
    }
    CounterAndMark(i, last, j, last', 8);
  }

  datatype Cipher = Cipher(
    derive: (string, Bytes, nat) -> Key,
    seal: (Key, Bytes, Bytes, Bytes) -> Bytes,
    open: (Key, Bytes, Bytes, Bytes) -> Option<Bytes>)

  // Something that was sealed.
  datatype Sealing = Sealing(key: Key, nonce: Bytes, plain: Bytes, header: Bytes)

  // An ideal AEAD: a tag is 16 bytes, and what opens is what was sealed.
  ghost predicate Ideal(c: Cipher, sealed: set<Sealing>) {
    && (forall k, n, p, h :: |c.seal(k, n, p, h)| == |p| + TAG_SIZE)
    && (forall k, n, x, h, p :: c.open(k, n, x, h) == Some(p)
                                <==> Sealing(k, n, p, h) in sealed && x == c.seal(k, n, p, h))
  }

  // What a file is written or read with.
  datatype Suite = Suite(c: Cipher, key: Key, header: Bytes, size: nat)

  function Header(iterations: nat, salt: Bytes, size: nat): (h: Bytes)
    requires |salt| == SALT_SIZE
    ensures |h| == HEADER_SIZE
  {
    MAGIC + [VERSION] + BigEndian(iterations, 4) + salt + BigEndian(size, 4)
  }

  lemma EightBytesOf(n: nat)
    requires n < 0x1_0000_0000_0000_0000
    ensures var b := BigEndian(n, 8); n == 0x1_0000_0000 * FourBytes(b[..4]) + FourBytes(b[4..])
  {
    EightBytes();
    BigEndianRoundTrip(n, 8);
    FromEightBytes(BigEndian(n, 8));
  }

  lemma FromEightBytes(b: Bytes)
    requires |b| == 8
    ensures FromBigEndian(b) == 0x1_0000_0000 * FourBytes(b[..4]) + FourBytes(b[4..])
  {
    FromFourBytes(b[..4]);
    assert b[..7][..6] == b[..6] && b[..6][..5] == b[..5] && b[..5][..4] == b[..4];
    assert FromBigEndian(b[..5]) == 256 * FromBigEndian(b[..4]) + b[4];
    assert FromBigEndian(b[..6]) == 256 * FromBigEndian(b[..5]) + b[5];
    assert FromBigEndian(b[..7]) == 256 * FromBigEndian(b[..6]) + b[6];
  }

  // What four bytes say, the highest first.
  function FourBytes(b: Bytes): nat
    requires |b| == 4
  {
    b[0] as int * 0x100_0000 + b[1] as int * 0x1_0000 + b[2] as int * 0x100 + b[3] as int
  }

  lemma FourBytesOf(n: nat)
    requires n < 0x1_0000_0000
    ensures FourBytes(BigEndian(n, 4)) == n
  {
    assert Power256(4) == 0x1_0000_0000;
    BigEndianRoundTrip(n, 4);
    FromFourBytes(BigEndian(n, 4));
  }

  lemma FromFourBytes(b: Bytes)
    requires |b| == 4
    ensures FromBigEndian(b) == FourBytes(b)
  {
    assert b[..3][..2] == b[..2] && b[..2][..1] == b[..1] && b[..1][..0] == [];
    assert FromBigEndian(b[..1]) == 256 * FromBigEndian([]) + b[0];
    assert FromBigEndian(b[..2]) == 256 * FromBigEndian(b[..1]) + b[1];
    assert FromBigEndian(b[..3]) == 256 * FromBigEndian(b[..2]) + b[2];
  }

  /** Where the fields of a header stand: SWBACKUP, the version, the iterations, the salt, the size of a chunk. */
  lemma HeaderStands(iterations: nat, salt: Bytes, size: nat)
    requires |salt| == 16 && iterations < 0x1_0000_0000 && size < 0x1_0000_0000
    ensures var h := Header(iterations, salt, size);
      && |h| == 33 && h[..8] == [0x53, 0x57, 0x42, 0x41, 0x43, 0x4b, 0x55, 0x50] && h[8] == 1
      && FourBytes(h[9..13]) == iterations && h[13..29] == salt && FourBytes(h[29..33]) == size
  {
    var h := Header(iterations, salt, size);
    FourBytesOf(iterations);
    FourBytesOf(size);
    assert h[..8] == MAGIC && h[9..13] == BigEndian(iterations, 4) && h[29..33] == BigEndian(size, 4);
    assert h[13..29] == salt;
  }

  datatype Failure = NotEncrypted | UnknownVersion(v: byte) | Corrupt | Passphrase | NoPassphrase

  // NewReader's reading of the header; what follows is the body.
  function Open(c: Cipher, passphrase: string, file: Bytes): (r: (Option<Suite>, Option<Failure>))
    ensures r.0.Some? <==> r.1.None?
    ensures r.0.Some? ==> |file| >= HEADER_SIZE && r.0.value.header == file[..HEADER_SIZE] && r.0.value.c == c
    ensures r.0.Some? ==> 0 < r.0.value.size <= MAX_CHUNK_SIZE
  {
    if |file| < HEADER_SIZE then (None, Some(NotEncrypted))
    else
      var header := file[..HEADER_SIZE];
      var iterations, size := FromBigEndian(header[9..13]), FromBigEndian(header[29..33]);
      if header[..8] != MAGIC then (None, Some(NotEncrypted))
      else if header[8] != VERSION then (None, Some(UnknownVersion(header[8])))
      else if iterations == 0 || iterations > MAX_ITERATIONS || size == 0 || size > MAX_CHUNK_SIZE
      then (None, Some(Corrupt))
      else if passphrase == "" then (None, Some(NoPassphrase))
      else (Some(Suite(c, c.derive(passphrase, header[13..29], iterations), header, size)), None)
  }

  /** What a header is refused for, in this order, or how it is read. */
  lemma OpenSays(c: Cipher, passphrase: string, file: Bytes)
    ensures var (suite, failure) := Open(c, passphrase, file);
      if |file| < 33 || file[..8] != [0x53, 0x57, 0x42, 0x41, 0x43, 0x4b, 0x55, 0x50] then failure == Some(NotEncrypted)
      else if file[8] != 1 then failure == Some(UnknownVersion(file[8]))
      else
        var iterations, size := FourBytes(file[9..13]), FourBytes(file[29..33]);
        if !(1 <= iterations <= 10_000_000) || !(1 <= size <= 16_777_216) then failure == Some(Corrupt)
        else if passphrase == "" then failure == Some(NoPassphrase)
        else suite == Some(Suite(c, c.derive(passphrase, file[13..29], iterations), file[..33], size))
  {
    if |file| >= 33 {
      var header := file[..33];
      assert header[..8] == file[..8] && header[9..13] == file[9..13] && header[29..33] == file[29..33];
      assert header[13..29] == file[13..29];
      FromFourBytes(file[9..13]);
      FromFourBytes(file[29..33]);
    }
  }

  /** The header the writer writes is read as it was meant. */
  lemma HeaderRoundTrip(c: Cipher, passphrase: string, iterations: nat, salt: Bytes, body: Bytes)
    requires |salt| == SALT_SIZE && 0 < iterations <= MAX_ITERATIONS && passphrase != ""
    ensures var header := Header(iterations, salt, CHUNK_SIZE);
      Open(c, passphrase, header + body)
      == (Some(Suite(c, c.derive(passphrase, salt, iterations), header, CHUNK_SIZE)), None)
  {
    var header := Header(iterations, salt, CHUNK_SIZE);
    var file := header + body;
    assert file[..HEADER_SIZE] == header;
    assert header[..8] == MAGIC && header[9..13] == BigEndian(iterations, 4);
    assert header[13..29] == salt && header[29..33] == BigEndian(CHUNK_SIZE, 4);
    assert Power256(4) == 0x1_0000_0000;
    BigEndianRoundTrip(iterations, 4);
    BigEndianRoundTrip(CHUNK_SIZE, 4);
  }

  // The chunks of a plaintext: full ones, and a last one that is empty only if all is.
  function Chunks(p: Bytes, size: nat): (chunks: seq<Bytes>)
    requires size > 0
    ensures |chunks| > 0
    decreases |p|
  {
    if |p| <= size then [p] else [p[..size]] + Chunks(p[size..], size)
  }

  function Flatten(chunks: seq<Bytes>): Bytes {
    if chunks == [] then [] else chunks[0] + Flatten(chunks[1..])
  }

  ghost predicate Full(chunks: seq<Bytes>, size: nat) {
    forall k :: 0 <= k < |chunks| ==> |chunks[k]| == size
  }

  lemma {:induction false} FlattenAppend(chunks: seq<Bytes>, more: seq<Bytes>)
    ensures Flatten(chunks + more) == Flatten(chunks) + Flatten(more)
  {
    if chunks == [] {
      assert chunks + more == more;
    } else {
      FlattenAppend(chunks[1..], more);
      assert (chunks + more)[0] == chunks[0] && (chunks + more)[1..] == chunks[1..] + more;
      Grouped(chunks[0], Flatten(chunks[1..]), Flatten(more));
    }
  }

  /** There is one way to cut a plaintext: full chunks and a rest that is not empty unless it is all. */
  lemma {:induction false} ChunksAreUnique(full: seq<Bytes>, rest: Bytes, size: nat)
    requires size > 0 && Full(full, size) && |rest| <= size && (full != [] ==> rest != [])
    ensures Chunks(Flatten(full) + rest, size) == full + [rest]
  {
    if full == [] {
      assert Flatten(full) + rest == rest;
    } else {
      var p := Flatten(full) + rest;
      ChunksAreUnique(full[1..], rest, size);
      assert p[..size] == full[0] && p[size..] == Flatten(full[1..]) + rest;
      assert full + [rest] == [full[0]] + (full[1..] + [rest]);
    }
  }

  lemma {:induction false} ChunksFlatten(p: Bytes, size: nat)
    requires size > 0
    ensures Flatten(Chunks(p, size)) == p && WellCut(Chunks(p, size), size)
    decreases |p|
  {
    if |p| > size {
      ChunksFlatten(p[size..], size);
      var rest := Chunks(p[size..], size);
      assert Chunks(p, size) == [p[..size]] + rest;
      assert forall k :: 0 < k < |rest| ==> Chunks(p, size)[k] == rest[k - 1];
    }
  }

  function SealOne(s: Suite, index: nat, last: bool, plain: Bytes): Bytes {
    s.c.seal(s.key, Nonce(index, last), plain, s.header)
  }

  // Chunks that are not the last, sealed from an index on.
  function SealFull(s: Suite, index: nat, chunks: seq<Bytes>): Bytes
    decreases |chunks|
  {
    if chunks == [] then [] else SealOne(s, index, false, chunks[0]) + SealFull(s, index + 1, chunks[1..])
  }

  lemma {:induction false} SealFullAppend(s: Suite, index: nat, chunks: seq<Bytes>, more: Bytes)
    ensures SealFull(s, index, chunks + [more])
            == SealFull(s, index, chunks) + SealOne(s, index + |chunks|, false, more)
    decreases |chunks|
  {
    if chunks == [] {
      assert chunks + [more] == [more] && [more][1..] == [];
    } else {
      SealFullAppend(s, index + 1, chunks[1..], more);
      assert chunks + [more] == [chunks[0]] + (chunks[1..] + [more]);
      SealFullStep(s, index, chunks[0], chunks[1..] + [more]);
      Grouped(SealOne(s, index, false, chunks[0]), SealFull(s, index + 1, chunks[1..]),
              SealOne(s, index + |chunks|, false, more));
    }
  }

  lemma Grouped(a: Bytes, b: Bytes, c: Bytes)
    ensures a + (b + c) == a + b + c
  {
  }

  // All chunks of a plaintext, sealed from an index on.
  function SealAll(s: Suite, index: nat, chunks: seq<Bytes>): Bytes
    requires |chunks| > 0
  {
    SealFull(s, index, chunks[..|chunks| - 1]) + SealOne(s, index + |chunks| - 1, true, chunks[|chunks| - 1])
  }

  lemma SealAllStep(s: Suite, index: nat, chunks: seq<Bytes>)
    requires |chunks| > 1
    ensures SealAll(s, index, chunks) == SealOne(s, index, false, chunks[0]) + SealAll(s, index + 1, chunks[1..])
  {
    var n, rest := |chunks| - 1, chunks[1..];
    assert chunks[..n] == [chunks[0]] + rest[..n - 1] && rest[n - 1] == chunks[n];
    SealFullStep(s, index, chunks[0], rest[..n - 1]);
    Grouped(SealOne(s, index, false, chunks[0]), SealFull(s, index + 1, rest[..n - 1]),
            SealOne(s, index + n, true, chunks[n]));
  }

  lemma SealFullStep(s: Suite, index: nat, chunk: Bytes, rest: seq<Bytes>)
    ensures SealFull(s, index, [chunk] + rest) == SealOne(s, index, false, chunk) + SealFull(s, index + 1, rest)
  {
    assert ([chunk] + rest)[1..] == rest;
  }

  /** The file of a plaintext. */
  function File(s: Suite, p: Bytes): Bytes
    requires s.size > 0
  {
    s.header + SealAll(s, 0, Chunks(p, s.size))
  }

  // What was sealed of a plaintext from an index on: the full chunks, and the
  // last one if the writer was closed.
  ghost predicate SealedFrom(s: Suite, index: nat, chunks: seq<Bytes>, closed: bool, x: Sealing) {
    exists k :: 0 <= k < |chunks| && x == Sealing(s.key, Nonce(index + k, k == |chunks| - 1), chunks[k], s.header)
                && (k == |chunks| - 1 ==> closed)
  }

  // One file per key: what was sealed under it is the chunks of p.
  ghost predicate OneFile(s: Suite, p: Bytes, closed: bool, sealed: set<Sealing>)
    requires s.size > 0
  {
    && |Chunks(p, s.size)| < 0x1_0000_0000_0000_0000
    && forall x: Sealing :: x.key == s.key ==> (x in sealed <==> SealedFrom(s, 0, Chunks(p, s.size), closed, x))
  }

  datatype End = EOF | Failed(f: Failure)

  // Everything the reader hands out of a body from an index on, and how it ends.
  function ReadBody(s: Suite, index: nat, body: Bytes): (r: (Bytes, End))
    requires s.size > 0
    decreases |body|
  {
    var n := if |body| < s.size + TAG_SIZE then |body| else s.size + TAG_SIZE;
    var last := |body| <= s.size + TAG_SIZE;
    var failure := if index == 0 then Passphrase else Corrupt;
    if n < TAG_SIZE then ([], Failed(failure))
    else
      match s.c.open(s.key, Nonce(index, last), body[..n], s.header)
      case None => ([], Failed(failure))
      case Some(plain) =>
        if last then (plain, EOF)
        else
          var (rest, end) := ReadBody(s, index + 1, body[n..]);
          (plain + rest, end)
  }

  // Read to the end of any bytes.
  function ReadFile(c: Cipher, passphrase: string, file: Bytes): (Bytes, End) {
    var (suite, failure) := Open(c, passphrase, file);
    if suite.None? then ([], Failed(failure.value)) else ReadBody(suite.value, 0, file[HEADER_SIZE..])
  }

  // The chunks from an index on were sealed, each with its nonce.
  ghost predicate AllSealed(s: Suite, index: nat, chunks: seq<Bytes>, sealed: set<Sealing>) {
    forall k :: 0 <= k < |chunks| ==> Sealing(s.key, Nonce(index + k, k == |chunks| - 1), chunks[k], s.header) in sealed
  }

  ghost predicate WellCut(chunks: seq<Bytes>, size: nat) {
    && |chunks| > 0 && |chunks[|chunks| - 1]| <= size && (|chunks| > 1 ==> chunks[|chunks| - 1] != [])
    && forall k :: 0 <= k < |chunks| - 1 ==> |chunks[k]| == size
  }

  lemma LastRoundTrip(s: Suite, index: nat, chunk: Bytes, sealed: set<Sealing>)
    requires s.size > 0 && Ideal(s.c, sealed) && |chunk| <= s.size
    requires Sealing(s.key, Nonce(index, true), chunk, s.header) in sealed
    ensures ReadBody(s, index, SealOne(s, index, true, chunk)) == (chunk, EOF)
  {
    var body := SealOne(s, index, true, chunk);
    assert body[..|body|] == body;
    assert s.c.open(s.key, Nonce(index, true), body, s.header) == Some(chunk);
  }

  lemma FullRoundTrip(s: Suite, index: nat, chunk: Bytes, rest: Bytes, sealed: set<Sealing>)
    requires s.size > 0 && Ideal(s.c, sealed) && |chunk| == s.size && rest != []
    requires Sealing(s.key, Nonce(index, false), chunk, s.header) in sealed
    ensures var (out, end) := ReadBody(s, index + 1, rest);
      ReadBody(s, index, SealOne(s, index, false, chunk) + rest) == (chunk + out, end)
  {
    var first := SealOne(s, index, false, chunk);
    var body := first + rest;
    assert body[..|first|] == first && body[|first|..] == rest;
    assert s.c.open(s.key, Nonce(index, false), first, s.header) == Some(chunk);
  }

  lemma {:induction false} BodyRoundTrip(s: Suite, index: nat, chunks: seq<Bytes>, sealed: set<Sealing>)
    requires s.size > 0 && Ideal(s.c, sealed) && WellCut(chunks, s.size) && AllSealed(s, index, chunks, sealed)
    ensures ReadBody(s, index, SealAll(s, index, chunks)) == (Flatten(chunks), EOF)
    decreases |chunks|
  {
    FirstSealed(s, index, chunks, sealed);
    if |chunks| == 1 {
      OneRoundTrip(s, index, chunks, sealed);
    } else {
      var rest := chunks[1..];
      SealAllStep(s, index, chunks);
      SealedNext(s, index, chunks, sealed);
      SealAllLength(s, index + 1, rest, sealed);
      FullRoundTrip(s, index, chunks[0], SealAll(s, index + 1, rest), sealed);
      BodyRoundTrip(s, index + 1, rest, sealed);
    }
  }

  lemma FirstSealed(s: Suite, index: nat, chunks: seq<Bytes>, sealed: set<Sealing>)
    requires |chunks| > 0 && AllSealed(s, index, chunks, sealed)
    ensures Sealing(s.key, Nonce(index, |chunks| == 1), chunks[0], s.header) in sealed
  {
    assert Sealing(s.key, Nonce(index + 0, 0 == |chunks| - 1), chunks[0], s.header) in sealed;
    assert index + 0 == index;
  }

  lemma OneRoundTrip(s: Suite, index: nat, chunks: seq<Bytes>, sealed: set<Sealing>)
    requires s.size > 0 && Ideal(s.c, sealed) && WellCut(chunks, s.size) && |chunks| == 1
    requires Sealing(s.key, Nonce(index, true), chunks[0], s.header) in sealed
    ensures ReadBody(s, index, SealAll(s, index, chunks)) == (Flatten(chunks), EOF)
  {
    LastRoundTrip(s, index, chunks[0], sealed);
    assert SealAll(s, index, chunks) == SealOne(s, index, true, chunks[0]);
    assert Flatten(chunks) == chunks[0] by { assert chunks[1..] == []; }
  }

  lemma SealedNext(s: Suite, index: nat, chunks: seq<Bytes>, sealed: set<Sealing>)
    requires |chunks| > 1 && WellCut(chunks, s.size) && AllSealed(s, index, chunks, sealed)
    ensures WellCut(chunks[1..], s.size) && AllSealed(s, index + 1, chunks[1..], sealed)
  {
    var rest := chunks[1..];
    forall k | 0 <= k < |rest|
      ensures Sealing(s.key, Nonce(index + 1 + k, k == |rest| - 1), rest[k], s.header) in sealed
    {
      assert Sealing(s.key, Nonce(index + (k + 1), k + 1 == |chunks| - 1), chunks[k + 1], s.header) in sealed;
      assert index + (k + 1) == index + 1 + k;
    }
  }

  // How much longer than the plaintext the sealed chunks are.
  lemma {:induction false} SealAllLength(s: Suite, index: nat, chunks: seq<Bytes>, sealed: set<Sealing>)
    requires |chunks| > 0 && Ideal(s.c, sealed)
    ensures |SealAll(s, index, chunks)| == |Flatten(chunks)| + TAG_SIZE * |chunks|
    decreases |chunks|
  {
    if |chunks| == 1 {
      assert Flatten(chunks) == chunks[0] + [];
    } else {
      SealAllStep(s, index, chunks);
      SealAllLength(s, index + 1, chunks[1..], sealed);
    }
  }

  // What opens as chunk index of a file under its key is that chunk, marked as it was sealed.
  lemma OpensOnlyItsChunk(w: Suite, p: Bytes, closed: bool, sealed: set<Sealing>, header: Bytes,
                          index: nat, last: bool, x: Bytes, plain: Bytes)
    requires w.size > 0 && Ideal(w.c, sealed) && OneFile(w, p, closed, sealed) && index <= |Chunks(p, w.size)|
    requires w.c.open(w.key, Nonce(index, last), x, header) == Some(plain)
    ensures var chunks := Chunks(p, w.size);
      && header == w.header && index < |chunks| && plain == chunks[index] && last == (index == |chunks| - 1)
      && (last ==> closed) && x == SealOne(w, index, last, chunks[index])
  {
    var chunks := Chunks(p, w.size);
    var y := Sealing(w.key, Nonce(index, last), plain, header);
    assert y in sealed;
    assert SealedFrom(w, 0, chunks, closed, y);
    var k: nat :| 0 <= k < |chunks| && y == Sealing(w.key, Nonce(0 + k, k == |chunks| - 1), chunks[k], w.header)
             && (k == |chunks| - 1 ==> closed);
    NonceIsUnique(index, last, k, k == |chunks| - 1);
  }

  // What reading a body from a chunk on gives: what is left of the plaintext, or a beginning of it.
  ghost predicate Authentic(w: Suite, chunks: seq<Bytes>, closed: bool, index: nat, body: Bytes)
    requires w.size > 0 && index <= |chunks|
  {
    var (out, end) := ReadBody(w, index, body);
    var rest := chunks[index..];
    && out <= Flatten(rest)
    && (end == EOF ==> closed && rest != [] && body == SealAll(w, index, rest) && out == Flatten(rest))
  }

  // What is opened next of a body, and whether it ends there.
  function First(w: Suite, body: Bytes): Bytes {
    if IsLast(w, body) then body else body[..w.size + TAG_SIZE]
  }

  predicate IsLast(w: Suite, body: Bytes) {
    |body| <= w.size + TAG_SIZE
  }

  predicate Opens(w: Suite, index: nat, body: Bytes) {
    |body| >= TAG_SIZE && w.c.open(w.key, Nonce(index, IsLast(w, body)), First(w, body), w.header).Some?
  }

  // The body goes on with a chunk of the file, which is marked as it was sealed.
  ghost predicate GoesOn(w: Suite, chunks: seq<Bytes>, closed: bool, index: nat, body: Bytes) {
    && |body| >= TAG_SIZE && index < |chunks| && IsLast(w, body) == (index == |chunks| - 1)
    && (IsLast(w, body) ==> closed)
    && First(w, body) == w.c.seal(w.key, Nonce(index, IsLast(w, body)), chunks[index], w.header)
    && w.c.open(w.key, Nonce(index, IsLast(w, body)), First(w, body), w.header) == Some(chunks[index])
  }

  lemma OneMoreChunk(w: Suite, chunks: seq<Bytes>, closed: bool, index: nat, body: Bytes)
    requires w.size > 0 && GoesOn(w, chunks, closed, index, body) && !IsLast(w, body)
    requires Authentic(w, chunks, closed, index + 1, body[w.size + TAG_SIZE..])
    ensures Authentic(w, chunks, closed, index, body)
  {
    var rest := chunks[index..];
    assert rest[1..] == chunks[index + 1..];
    SealAllStep(w, index, rest);
    assert body == First(w, body) + body[w.size + TAG_SIZE..];
  }

  lemma NothingOpens(w: Suite, chunks: seq<Bytes>, closed: bool, index: nat, body: Bytes)
    requires w.size > 0 && index <= |chunks| && !Opens(w, index, body)
    ensures Authentic(w, chunks, closed, index, body)
  {
    assert IsLast(w, body) ==> body[..|body|] == body;
  }

  lemma LastChunk(w: Suite, chunks: seq<Bytes>, closed: bool, index: nat, body: Bytes)
    requires w.size > 0 && GoesOn(w, chunks, closed, index, body) && IsLast(w, body)
    ensures Authentic(w, chunks, closed, index, body)
  {
    assert chunks[index..] == [chunks[index]] && body[..|body|] == body;
  }

  lemma OpensItsChunk(w: Suite, p: Bytes, closed: bool, sealed: set<Sealing>, index: nat, body: Bytes)
    requires w.size > 0 && Ideal(w.c, sealed) && OneFile(w, p, closed, sealed) && index <= |Chunks(p, w.size)|
    requires Opens(w, index, body)
    ensures GoesOn(w, Chunks(p, w.size), closed, index, body)
  {
    var got := w.c.open(w.key, Nonce(index, IsLast(w, body)), First(w, body), w.header);
    OpensOnlyItsChunk(w, p, closed, sealed, w.header, index, IsLast(w, body), First(w, body), got.value);
  }

  // Wherever a body is read from, it goes on with the chunk that is due there, or nothing opens.
  ghost predicate OpensOnly(w: Suite, chunks: seq<Bytes>, closed: bool) {
    forall index: nat, body :: index <= |chunks| && Opens(w, index, body) ==> GoesOn(w, chunks, closed, index, body)
  }

  lemma {:induction false} ReadsOnly(w: Suite, chunks: seq<Bytes>, closed: bool, index: nat, body: Bytes)
    requires w.size > 0 && OpensOnly(w, chunks, closed) && index <= |chunks|
    ensures Authentic(w, chunks, closed, index, body)
    decreases |body|
  {
    if !Opens(w, index, body) {
      NothingOpens(w, chunks, closed, index, body);
    } else if IsLast(w, body) {
      LastChunk(w, chunks, closed, index, body);
    } else {
      ReadsOnly(w, chunks, closed, index + 1, body[w.size + TAG_SIZE..]);
      OneMoreChunk(w, chunks, closed, index, body);
    }
  }

  lemma BodyIsAuthentic(w: Suite, p: Bytes, closed: bool, sealed: set<Sealing>, index: nat, body: Bytes)
    requires w.size > 0 && Ideal(w.c, sealed) && OneFile(w, p, closed, sealed) && index <= |Chunks(p, w.size)|
    ensures Authentic(w, Chunks(p, w.size), closed, index, body)
  {
    var chunks := Chunks(p, w.size);
    forall i: nat, part | i <= |chunks| && Opens(w, i, part) ensures GoesOn(w, chunks, closed, i, part) {
      OpensItsChunk(w, p, closed, sealed, i, part);
    }
    ReadsOnly(w, chunks, closed, index, body);
  }

  // What the reader reports of a body from a chunk on: the end, or damage there or later.
  lemma {:induction false} FailsLater(s: Suite, index: nat, body: Bytes)
    requires s.size > 0 && index > 0
    ensures ReadBody(s, index, body).1 == EOF || ReadBody(s, index, body).1 == Failed(Corrupt)
    decreases |body|
  {
    if |body| > s.size + TAG_SIZE {
      FailsLater(s, index + 1, body[s.size + TAG_SIZE..]);
    }
  }

  lemma FailsFirst(s: Suite, body: Bytes)
    requires s.size > 0
    ensures var (out, end) := ReadBody(s, 0, body);
      if Opens(s, 0, body) then end == EOF || end == Failed(Corrupt) else out == [] && end == Failed(Passphrase)
  {
    assert |body| <= s.size + TAG_SIZE ==> body[..|body|] == body;
    if |body| > s.size + TAG_SIZE {
      FailsLater(s, 1, body[s.size + TAG_SIZE..]);
    }
  }

  lemma BodyIsRead(w: Suite, p: Bytes, sealed: set<Sealing>)
    requires w.size > 0 && Ideal(w.c, sealed) && OneFile(w, p, true, sealed)
    ensures ReadBody(w, 0, SealAll(w, 0, Chunks(p, w.size))) == (p, EOF)
  {
    var chunks := Chunks(p, w.size);
    ChunksFlatten(p, w.size);
    forall k | 0 <= k < |chunks|
      ensures Sealing(w.key, Nonce(0 + k, k == |chunks| - 1), chunks[k], w.header) in sealed
    {
      var x := Sealing(w.key, Nonce(0 + k, k == |chunks| - 1), chunks[k], w.header);
      assert SealedFrom(w, 0, chunks, true, x);
    }
    BodyRoundTrip(w, 0, chunks, sealed);
  }

  // The body begins with the file's first chunk, as that was sealed.
  ghost predicate BeginsRight(w: Suite, p: Bytes, body: Bytes)
    requires w.size > 0
  {
    var chunks := Chunks(p, w.size);
    && |body| >= TAG_SIZE && (|body| <= w.size + TAG_SIZE <==> |chunks| == 1)
    && (if |chunks| == 1 then body else body[..w.size + TAG_SIZE])
       == w.c.seal(w.key, Nonce(0, |chunks| == 1), chunks[0], w.header)
  }

  lemma OpensWhatBegins(w: Suite, p: Bytes, sealed: set<Sealing>, body: Bytes)
    requires w.size > 0 && Ideal(w.c, sealed) && OneFile(w, p, true, sealed)
    ensures Opens(w, 0, body) <==> BeginsRight(w, p, body)
  {
    var chunks := Chunks(p, w.size);
    if Opens(w, 0, body) {
      OpensItsChunk(w, p, true, sealed, 0, body);
    }
    if BeginsRight(w, p, body) {
      var x := Sealing(w.key, Nonce(0 + 0, 0 == |chunks| - 1), chunks[0], w.header);
      assert SealedFrom(w, 0, chunks, true, x) && x in sealed;
      assert x == Sealing(w.key, Nonce(0, IsLast(w, body)), chunks[0], w.header);
      assert w.c.open(w.key, Nonce(0, IsLast(w, body)), First(w, body), w.header) == Some(chunks[0]);
    }
  }

  /**
   What is reported of any body under the key of a file: the end for the file's own, the passphrase
   if already its first chunk is not the file's, and damage if that is, but something later is not.
   */
  lemma DamageIsTold(w: Suite, p: Bytes, sealed: set<Sealing>, body: Bytes)
    requires w.size > 0 && Ideal(w.c, sealed) && OneFile(w, p, true, sealed)
    ensures ReadBody(w, 0, body).1 ==
      if body == SealAll(w, 0, Chunks(p, w.size)) then EOF
      else if BeginsRight(w, p, body) then Failed(Corrupt)
      else Failed(Passphrase)
  {
    FailsFirst(w, body);
    OpensWhatBegins(w, p, sealed, body);
    BodyIsAuthentic(w, p, true, sealed, 0, body);
    assert Chunks(p, w.size)[0..] == Chunks(p, w.size);
    BodyIsRead(w, p, sealed);
  }

  // Nothing opens under a header that is not the file's own.
  lemma OtherHeaderFails(w: Suite, p: Bytes, closed: bool, sealed: set<Sealing>, r: Suite, body: Bytes)
    requires w.size > 0 && Ideal(w.c, sealed) && OneFile(w, p, closed, sealed)
    requires r.size > 0 && r.c == w.c && r.key == w.key && r.header != w.header
    ensures ReadBody(r, 0, body) == ([], Failed(Passphrase))
  {
    var n := if |body| < r.size + TAG_SIZE then |body| else r.size + TAG_SIZE;
    var last := |body| <= r.size + TAG_SIZE;
    if n >= TAG_SIZE {
      var got := w.c.open(w.key, Nonce(0, last), body[..n], r.header);
      if got.Some? {
        OpensOnlyItsChunk(w, p, closed, sealed, r.header, 0, last, body[..n], got.value);
      }
    }
  }

  // The suite of a file the writer writes.
  ghost function Written(c: Cipher, passphrase: string, iterations: nat, salt: Bytes): Suite
    requires |salt| == SALT_SIZE
  {
    Suite(c, c.derive(passphrase, salt, iterations), Header(iterations, salt, CHUNK_SIZE), CHUNK_SIZE)
  }

  /**
   Whoever reads any bytes to their end under a file's key has the file: not a
   byte of it was cut off, added, moved or changed, header and chunk
   boundaries included, and the writer was closed. Short of the end, what was
   handed out is a beginning of what was written.
   */
  lemma OnlyTheFileReadsToItsEnd(c: Cipher, passphrase: string, iterations: nat, salt: Bytes, p: Bytes, closed: bool,
                                 sealed: set<Sealing>, other: string, file: Bytes)
    requires |salt| == SALT_SIZE && 0 < iterations <= MAX_ITERATIONS && passphrase != ""
    requires Ideal(c, sealed) && OneFile(Written(c, passphrase, iterations, salt), p, closed, sealed)
    requires Open(c, other, file).0.Some? ==> Open(c, other, file).0.value.key == c.derive(passphrase, salt, iterations)
    ensures var (out, end) := ReadFile(c, other, file);
      && out <= p
      && (end == EOF ==> closed && file == File(Written(c, passphrase, iterations, salt), p) && out == p)
  {
    var w := Written(c, passphrase, iterations, salt);
    ChunksFlatten(p, w.size);
    var got := Open(c, other, file).0;
    if got.Some? {
      var r := got.value;
      var body := file[HEADER_SIZE..];
      assert file == file[..HEADER_SIZE] + body;
      if r.header != w.header {
        OtherHeaderFails(w, p, closed, sealed, r, body);
      } else {
        SameHeaderSameSuite(c, passphrase, iterations, salt, other, file);
        BodyIsAuthentic(w, p, closed, sealed, 0, body);
        assert Chunks(p, w.size)[0..] == Chunks(p, w.size);
      }
    }
  }

  lemma SameHeaderSameSuite(c: Cipher, passphrase: string, iterations: nat, salt: Bytes, other: string, file: Bytes)
    requires |salt| == SALT_SIZE && 0 < iterations <= MAX_ITERATIONS && passphrase != ""
    requires var r := Open(c, other, file).0;
      r.Some? && r.value.header == Header(iterations, salt, CHUNK_SIZE)
      && r.value.key == c.derive(passphrase, salt, iterations)
    ensures Open(c, other, file).0.value == Written(c, passphrase, iterations, salt)
  {
    var w := Written(c, passphrase, iterations, salt);
    HeaderRoundTrip(c, passphrase, iterations, salt, file[HEADER_SIZE..]);
    assert w.header + file[HEADER_SIZE..] == file;
  }

  /** What was written, closed, and not tampered with is read back, then the end. */
  lemma FileRoundTrip(c: Cipher, passphrase: string, iterations: nat, salt: Bytes, p: Bytes, sealed: set<Sealing>)
    requires |salt| == SALT_SIZE && 0 < iterations <= MAX_ITERATIONS && passphrase != ""
    requires Ideal(c, sealed) && OneFile(Written(c, passphrase, iterations, salt), p, true, sealed)
    ensures ReadFile(c, passphrase, File(Written(c, passphrase, iterations, salt), p)) == (p, EOF)
  {
    var w := Written(c, passphrase, iterations, salt);
    var body := SealAll(w, 0, Chunks(p, w.size));
    HeaderRoundTrip(c, passphrase, iterations, salt, body);
    assert File(w, p)[HEADER_SIZE..] == body;
    BodyIsRead(w, p, sealed);
  }

  // How many chunks a plaintext of n bytes has.
  function ChunkCount(n: nat): nat {
    if n == 0 then 1 else (n + CHUNK_SIZE - 1) / CHUNK_SIZE
  }

  lemma {:induction false} ChunksAreCounted(p: Bytes)
    ensures |Chunks(p, CHUNK_SIZE)| == ChunkCount(|p|)
    decreases |p|
  {
    if |p| > CHUNK_SIZE {
      ChunksAreCounted(p[CHUNK_SIZE..]);
    }
  }

  // The size of the file of n bytes.
  function FileSize(n: nat): nat {
    HEADER_SIZE + n + TAG_SIZE * ChunkCount(n)
  }

  /** The size of a file says how long its plaintext is. */
  lemma FileHasItsSize(s: Suite, p: Bytes, sealed: set<Sealing>)
    requires s.size == CHUNK_SIZE && |s.header| == HEADER_SIZE && Ideal(s.c, sealed)
    ensures |File(s, p)| == FileSize(|p|)
  {
    ChunksAreCounted(p);
    ChunksFlatten(p, CHUNK_SIZE);
    SealAllLength(s, 0, Chunks(p, CHUNK_SIZE), sealed);
  }

  // Division and remainder as the source's language rounds them, toward zero.
  function Quo(a: int, b: int): int
    requires b > 0
  {
    if a >= 0 then a / b else -(-a / b)
  }

  function Rem(a: int, b: int): int
    requires b > 0
  {
    a - b * Quo(a, b)
  }

  const LEAST := -0x8000_0000_0000_0000

  // What an integer of 64 bits holds of a number.
  function Wrapped(n: int): int {
    (n - LEAST) % 0x1_0000_0000_0000_0000 + LEAST
  }

  // The length of the plaintext of a file without its header.
  function PlainSizeOfBody(body: int): (n: Option<int>)
    ensures n.Some? ==> n.value >= 0
  {
    var full, rest := Quo(body, CHUNK_SIZE + TAG_SIZE), Rem(body, CHUNK_SIZE + TAG_SIZE);
    if body < TAG_SIZE then None
    else if rest == 0 then Some(full * CHUNK_SIZE)
    else if rest < TAG_SIZE || (rest == TAG_SIZE && full > 0) then None
    else Some(full * CHUNK_SIZE + rest - TAG_SIZE)
  }

  function PlainSize(encrypted: int): (n: Option<int>)
    ensures n.Some? ==> n.value >= 0
  {
    PlainSizeOfBody(Wrapped(encrypted - HEADER_SIZE))
  }

  lemma DividedBody(body: int, full: int, rest: int)
    requires full >= 0 && 0 <= rest < CHUNK_SIZE + TAG_SIZE && body == full * (CHUNK_SIZE + TAG_SIZE) + rest
    ensures Quo(body, CHUNK_SIZE + TAG_SIZE) == full && Rem(body, CHUNK_SIZE + TAG_SIZE) == rest
  {
    Calendar.Quotient(body, CHUNK_SIZE + TAG_SIZE, full);
  }

  // How many chunks there are, said without a division.
  lemma CountedBy(n: nat, k: int)
    requires n > 0
    ensures ChunkCount(n) == k <==> (k - 1) * CHUNK_SIZE < n <= k * CHUNK_SIZE
  {
    if (k - 1) * CHUNK_SIZE < n <= k * CHUNK_SIZE {
      Calendar.Quotient(n + CHUNK_SIZE - 1, CHUNK_SIZE, k);
    }
  }

  lemma BodyOfFile(n: nat)
    ensures PlainSizeOfBody(FileSize(n) - HEADER_SIZE) == Some(n)
  {
    if n > 0 {
      var k := ChunkCount(n);
      CountedBy(n, k);
      BodyOfChunks(n, k, n + TAG_SIZE * k);
    }
  }

  lemma BodyOfChunks(n: int, k: int, body: int)
    requires n > 0 && (k - 1) * CHUNK_SIZE < n <= k * CHUNK_SIZE && body == n + TAG_SIZE * k
    ensures PlainSizeOfBody(body) == Some(n)
  {
    var m := n - (k - 1) * CHUNK_SIZE;
    if m == CHUNK_SIZE {
      DividedBody(body, k, 0);
    } else {
      DividedBody(body, k - 1, m + TAG_SIZE);
    }
  }

  lemma ChunksOfBody(body: int, n: nat)
    requires PlainSizeOfBody(body) == Some(n) && n > 0
    ensures exists k :: (k - 1) * CHUNK_SIZE < n <= k * CHUNK_SIZE && body == n + TAG_SIZE * k
  {
    var full, rest := body / (CHUNK_SIZE + TAG_SIZE), body % (CHUNK_SIZE + TAG_SIZE);
    assert body == full * (CHUNK_SIZE + TAG_SIZE) + rest;
    DividedBody(body, full, rest);
    var k := if rest == 0 then full else full + 1;
    assert (k - 1) * CHUNK_SIZE < n <= k * CHUNK_SIZE && body == n + TAG_SIZE * k;
  }

  lemma BodyOfNothing(body: int)
    ensures PlainSizeOfBody(body) == Some(0) <==> body == TAG_SIZE
  {
    var full, rest := body / (CHUNK_SIZE + TAG_SIZE), body % (CHUNK_SIZE + TAG_SIZE);
    assert body == full * (CHUNK_SIZE + TAG_SIZE) + rest;
    if body >= 0 {
      DividedBody(body, full, rest);
    }
  }

  lemma BodyIsExact(body: int, n: nat)
    ensures PlainSizeOfBody(body) == Some(n) <==> body == FileSize(n) - HEADER_SIZE
  {
    BodyOfFile(n);
    if n == 0 {
      BodyOfNothing(body);
    } else if PlainSizeOfBody(body) == Some(n) {
      ChunksOfBody(body, n);
      var k :| (k - 1) * CHUNK_SIZE < n <= k * CHUNK_SIZE && body == n + TAG_SIZE * k;
      CountedBy(n, k);
    }
  }

  lemma WrappedBody(encrypted: int)
    requires LEAST <= encrypted <= -LEAST - 1
    ensures Wrapped(encrypted - HEADER_SIZE)
         == encrypted - HEADER_SIZE + if encrypted < LEAST + HEADER_SIZE then 0x1_0000_0000_0000_0000 else 0
  {
  }

  /**
   PlainSize answers exactly for the sizes a file can have, with the length of its plaintext; but
   for the sizes within a header of the least number, whose difference wraps around.
   */
  lemma PlainSizeIsExact(encrypted: int, n: nat)
    requires LEAST <= encrypted <= -LEAST - 1
    ensures PlainSize(encrypted) == Some(n) <==>
      FileSize(n) == encrypted + if encrypted < LEAST + HEADER_SIZE then 0x1_0000_0000_0000_0000 else 0
  {
    WrappedBody(encrypted);
    BodyIsExact(Wrapped(encrypted - HEADER_SIZE), n);
  }

  /** No two plaintext lengths give files of one size, and PlainSize finds the one that does. */
  lemma PlainSizeOfFile(n: nat)
    requires FileSize(n) <= -LEAST - 1
    ensures PlainSize(FileSize(n)) == Some(n)
  {
    PlainSizeIsExact(FileSize(n), n);
  }

  /** The least number, which is no size of a file, is answered. */
  lemma PlainSizeWraps()
    ensures PlainSize(LEAST) == Some(9221120786662719439)
  {
    WrappedBody(LEAST);
    assert FileSize(9221120786662719439) == LEAST + 0x1_0000_0000_0000_0000;
    PlainSizeIsExact(LEAST, 9221120786662719439);
  }
}
