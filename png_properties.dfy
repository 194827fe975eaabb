/** What the chunk walker computes, stated against an independent description of a PNG
    stream: a list of chunks that is encoded into bytes and then walked. */
module PngProperties {
  import opened Wrappers
  import opened PngText

  /** The four chunk types the walker looks at, as the bytes of a PNG stream holds them. */
  const TextType: seq<Byte> := [0x74, 0x45, 0x58, 0x74]
  const IntlTextType: seq<Byte> := [0x69, 0x54, 0x58, 0x74]
  const CompressedType: seq<Byte> := [0x7A, 0x54, 0x58, 0x74]
  const EndType: seq<Byte> := [0x49, 0x45, 0x4E, 0x44]

  /** A chunk as written to a stream: type bytes, payload, and a CRC that nobody checks. */
  datatype Chunk = Chunk(kind: seq<Byte>, data: seq<Byte>, crc: seq<Byte>)

  predicate WellFormed(c: Chunk)
  {
    |c.kind| == 4 && |c.data| < 0x1_0000_0000 && |c.crc| == 4
  }

  predicate AllWellFormed(cs: seq<Chunk>)
    decreases |cs|
  {
    cs == [] || (WellFormed(cs[0]) && AllWellFormed(cs[1..]))
  }

  /** The big-endian bytes of a 32-bit unsigned value. */
  function EncodeU32BE(n: nat): (bs: seq<Byte>)
    requires n < 0x1_0000_0000
    ensures |bs| == 4
  {
    [n / 0x100_0000, (n / 0x1_0000) % 0x100, (n / 0x100) % 0x100, n % 0x100]
  }

  function EncodeChunk(c: Chunk): (bs: seq<Byte>)
    requires WellFormed(c)
    ensures |bs| == |c.data| + Envelope
  {
    EncodeU32BE(|c.data|) + c.kind + c.data + c.crc
  }

  function EncodeChunks(cs: seq<Chunk>): seq<Byte>
    requires AllWellFormed(cs)
  {
    if cs == [] then [] else EncodeChunk(cs[0]) + EncodeChunks(cs[1..])
  }

  /** The chunks of a list as the walker should read them: in order, up to and including
      the first IEND. */
  function Listed(cs: seq<Chunk>): seq<Visit>
    decreases |cs|
  {
    if cs == [] then []
    else
      var v := Visit(Ascii(cs[0].kind), cs[0].data);
      if v.kind == "IEND" then [v] else [v] + Listed(cs[1..])
  }

  /** A rest of the buffer too short to hold a chunk header. */
  predicate Stops(tail: seq<Byte>)
  {
    |tail| < Envelope
  }

  /** The walk over the chunks `cs` and then `tail` ends there: at an IEND in the list, or
      at a rest that is too short for another chunk. */
  predicate Terminated(cs: seq<Chunk>, tail: seq<Byte>)
    decreases |cs|
  {
    if cs == [] then Stops(tail) else Ascii(cs[0].kind) == "IEND" || Terminated(cs[1..], tail)
  }

  /** The bytes `r` begin with the chunk `c` as the walker reads it: the length field holds
      the payload's length, then come the type bytes and the whole payload. */
  predicate StartsWith(r: seq<Byte>, c: Chunk)
  {
    |c.data| + Envelope <= |r| && ReadU32BE(r, 0) == |c.data|
    && r[4..8] == c.kind && r[8 .. 8 + |c.data|] == c.data
  }

  /** The chunks `cs` lie one after the other from `off`, and the walk stops within them: at
      an IEND among them, or where too few bytes follow the last one. */
  predicate LaidOut(buf: seq<Byte>, off: nat, cs: seq<Chunk>)
    decreases |cs|
  {
    if cs == [] then off + Envelope > |buf|
    else
      off <= |buf| && StartsWith(buf[off..], cs[0])
      && (Ascii(cs[0].kind) == "IEND" || LaidOut(buf, off + |cs[0].data| + Envelope, cs[1..]))
  }

  /** The type bytes decode to the type names the walker compares against. */
  lemma TypeNames()
    ensures Ascii(TextType) == "tEXt" && Ascii(IntlTextType) == "iTXt"
    ensures Ascii(CompressedType) == "zTXt" && Ascii(EndType) == "IEND"
  {
    assert Ascii(TextType) == [Ascii(TextType)[0], Ascii(TextType)[1], Ascii(TextType)[2], Ascii(TextType)[3]];
    assert Ascii(IntlTextType) == [Ascii(IntlTextType)[0], Ascii(IntlTextType)[1], Ascii(IntlTextType)[2], Ascii(IntlTextType)[3]];
    assert Ascii(CompressedType) == [Ascii(CompressedType)[0], Ascii(CompressedType)[1], Ascii(CompressedType)[2], Ascii(CompressedType)[3]];
    assert Ascii(EndType) == [Ascii(EndType)[0], Ascii(EndType)[1], Ascii(EndType)[2], Ascii(EndType)[3]];
  }

  /** Division by a constant power of two, from a quotient and remainder written out. */
  lemma DivMod(x: int, d: int, q: int, r: int)
    requires d == 0x100 || d == 0x1_0000 || d == 0x100_0000
    requires x == q * d + r && 0 <= r < d
    ensures x / d == q && x % d == r
  {
  }

  /** readUInt32BE reads back what the big-endian encoding wrote, */
  lemma ReadEncodedU32(n: nat)
    requires n < 0x1_0000_0000
    ensures ReadU32BE(EncodeU32BE(n), 0) == n
  {
    var b0, r0 := n / 0x100_0000, n % 0x100_0000;
    var b1, r1 := r0 / 0x1_0000, r0 % 0x1_0000;
    var b2, b3 := r1 / 0x100, r1 % 0x100;
    DivMod(n, 0x1_0000, b0 * 0x100 + b1, r1);
    DivMod(n, 0x100, (b0 * 0x100 + b1) * 0x100 + b2, b3);
    DivMod(n / 0x1_0000, 0x100, b0, b1);
    DivMod(n / 0x100, 0x100, b0 * 0x100 + b1, b2);
    assert EncodeU32BE(n) == [b0, b1, b2, b3];
  }

  /** and encoding a value read from four bytes gives back those bytes. */
  lemma EncodeReadU32(bs: seq<Byte>)
    requires |bs| == 4
    ensures EncodeU32BE(ReadU32BE(bs, 0)) == bs
  {
    var n := ReadU32BE(bs, 0);
    var b0, b1, b2, b3 := bs[0] as int, bs[1] as int, bs[2] as int, bs[3] as int;
    DivMod(n, 0x100_0000, b0, b1 * 0x1_0000 + b2 * 0x100 + b3);
    DivMod(n, 0x1_0000, b0 * 0x100 + b1, b2 * 0x100 + b3);
    DivMod(n, 0x100, b0 * 0x1_0000 + b1 * 0x100 + b2, b3);
    DivMod(n / 0x1_0000, 0x100, b0, b1);
    DivMod(n / 0x100, 0x100, b0 * 0x100 + b1, b2);
  }

  /** Writing keyword, zero byte and text, then splitting at the first zero byte, gives back
      the keyword and the text. */
  lemma SplitJoin(keyword: seq<Byte>, text: seq<Byte>)
    requires 0 !in keyword
    ensures SplitAtZero(keyword + [0] + text) == Some((keyword, text))
  {
    var data := keyword + [0] + text;
    assert data[|keyword|] == 0;
    IndexOfZeroFirst(data);
    var z := IndexOfZero(data).value;
    assert z <= |keyword|;
    assert data[..z] == keyword;
    assert data[z + 1..] == text;
  }

  /** An encoded chunk is read back as that chunk, and the bytes after it are what followed. */
  lemma HeaderOf(c: Chunk, rest: seq<Byte>)
    requires WellFormed(c)
    ensures StartsWith(EncodeChunk(c) + rest, c)
    ensures (EncodeChunk(c) + rest)[|c.data| + Envelope..] == rest
  {
    var enc := EncodeChunk(c);
    var r := enc + rest;
    assert r[..4] == enc[..4] == EncodeU32BE(|c.data|);
    ReadEncodedU32(|c.data|);
    assert ReadU32BE(r, 0) == ReadU32BE(r[..4], 0);
    assert r[4..8] == enc[4..8] == c.kind;
    assert r[8 .. 8 + |c.data|] == enc[8 .. 8 + |c.data|] == c.data;
    assert r[|enc|..] == rest;
  }

  /** The first chunk of a list, and the encoding of the others. */
  lemma Uncons(cs: seq<Chunk>)
    requires cs != [] && AllWellFormed(cs)
    ensures WellFormed(cs[0]) && AllWellFormed(cs[1..])
    ensures EncodeChunks(cs) == EncodeChunk(cs[0]) + EncodeChunks(cs[1..])
  {
  }

  /** The encoding of a non-empty list, seen from its first chunk. */
  lemma FirstChunkAt(buf: seq<Byte>, off: nat, cs: seq<Chunk>, tail: seq<Byte>)
    requires cs != [] && AllWellFormed(cs) && off <= |buf| && buf[off..] == EncodeChunks(cs) + tail
    ensures AllWellFormed(cs[1..]) && StartsWith(buf[off..], cs[0])
    ensures buf[off + |cs[0].data| + Envelope..] == EncodeChunks(cs[1..]) + tail
  {
    Uncons(cs);
    var more := EncodeChunks(cs[1..]) + tail;
    assert buf[off..] == EncodeChunk(cs[0]) + more;
    HeaderOf(cs[0], more);
    assert buf[off + |cs[0].data| + Envelope..] == buf[off..][|cs[0].data| + Envelope..];
  }

  /** An encoded chunk list, followed by a rest at which the walk ends, is laid out for the
      walker: each chunk is read at the offset the lengths before it put it at. */
  lemma {:induction false} EncodedLaidOut(buf: seq<Byte>, off: nat, cs: seq<Chunk>, tail: seq<Byte>)
    requires AllWellFormed(cs) && Terminated(cs, tail)
    requires off <= |buf| && buf[off..] == EncodeChunks(cs) + tail
    ensures LaidOut(buf, off, cs)
    decreases |cs|
  {
    if cs != [] {
      FirstChunkAt(buf, off, cs, tail);
      if Ascii(cs[0].kind) != "IEND" {
        EncodedLaidOut(buf, off + |cs[0].data| + Envelope, cs[1..], tail);
      }
    }
  }

  /** What the walker reads at `off` when the bytes from there begin with chunk `c`. */
  lemma ReadChunkAt(buf: seq<Byte>, off: nat, c: Chunk)
    requires off <= |buf| && StartsWith(buf[off..], c)
    ensures off + |c.data| + Envelope <= |buf| && ReadU32BE(buf, off) == |c.data|
    ensures ChunkType(buf, off) == Ascii(c.kind) && Payload(buf, off) == c.data
  {
    var r := buf[off..];
    assert buf[off] == r[0] && buf[off + 1] == r[1] && buf[off + 2] == r[2] && buf[off + 3] == r[3];
    assert buf[off + 4 .. off + 8] == r[4..8];
    assert buf[off + 8 .. off + 8 + |c.data|] == r[8 .. 8 + |c.data|];
  }

  /** Reading chunks that are laid out visits exactly the listed chunks, in order, and ends at
      the first IEND or where too few bytes remain for a header. */
  lemma {:induction false} WalkLaidOut(buf: seq<Byte>, off: nat, cs: seq<Chunk>)
    requires LaidOut(buf, off, cs)
    ensures Visits(buf, off) == Listed(cs)
    decreases |cs|
  {
    if cs == [] {
      assert Visits(buf, off) == Listed(cs);
    } else {
      ReadChunkAt(buf, off, cs[0]);
      var kind := Ascii(cs[0].kind);
      if kind != "IEND" {
        var next := off + |cs[0].data| + Envelope;
        VisitsStep(buf, off, kind, next);
        WalkLaidOut(buf, next, cs[1..]);
        assert Visits(buf, off) == Listed(cs);
      } else {
        assert Visits(buf, off) == Listed(cs);
      }
    }
  }

  /** A buffer made of any 8 signature bytes, an encoded chunk list and a rest, where the walk
      ends within the list or at the rest: the walker reads the listed chunks, and its map is
      theirs handled in order from the empty map. */
  lemma WalkStream(sig: seq<Byte>, cs: seq<Chunk>, tail: seq<Byte>)
    requires |sig| == SignatureLength && AllWellFormed(cs) && Terminated(cs, tail)
    ensures Visits(sig + EncodeChunks(cs) + tail, SignatureLength) == Listed(cs)
    ensures forall dialect, utf8 :: Extracted(sig + EncodeChunks(cs) + tail, dialect, utf8) == Fold(map[], Listed(cs), dialect, utf8)
  {
    var buf := sig + EncodeChunks(cs) + tail;
    assert buf[SignatureLength..] == EncodeChunks(cs) + tail;
    EncodedLaidOut(buf, SignatureLength, cs, tail);
    WalkLaidOut(buf, SignatureLength, cs);
  }

  /** The walk ends at the first IEND: no chunk it reads before the last one is IEND. */
  lemma {:induction false} VisitsEndAtIend(buf: seq<Byte>, off: nat)
    ensures forall i :: 0 <= i < |Visits(buf, off)| - 1 ==> Visits(buf, off)[i].kind != "IEND"
    decreases |buf| - off
  {
    if off + Envelope <= |buf| && ChunkType(buf, off) != "IEND" {
      var kind := ChunkType(buf, off);
      var next := off + ReadU32BE(buf, off) + Envelope;
      VisitsStep(buf, off, kind, next);
      VisitsEndAtIend(buf, next);
    }
  }

  /** What the walker reads at `off` depends only on the bytes from `off` on. */
  lemma ChunkFromHere(a: seq<Byte>, b: seq<Byte>, off: nat)
    requires |a| == |b| && off + Envelope <= |a|
    requires forall i :: off <= i < |a| ==> a[i] == b[i]
    ensures ReadU32BE(a, off) == ReadU32BE(b, off)
    ensures ChunkType(a, off) == ChunkType(b, off)
    ensures Payload(a, off) == Payload(b, off)
  {
    var end := Min(off + 8 + ReadU32BE(a, off), |a|);
    assert a[off + 8 .. end] == b[off + 8 .. end];
  }

  /** Buffers of one length that agree from `off` on are read alike from `off`. */
  lemma {:induction false} SameRestSameWalk(a: seq<Byte>, b: seq<Byte>, off: nat)
    requires |a| == |b|
    requires forall i :: off <= i < |a| ==> a[i] == b[i]
    ensures Visits(a, off) == Visits(b, off)
    decreases |a| - off
  {
    if off + Envelope <= |a| {
      ChunkFromHere(a, b, off);
      var kind := ChunkType(a, off);
      if kind != "IEND" {
        var next := off + ReadU32BE(a, off) + Envelope;
        VisitsStep(a, off, kind, next);
        VisitsStep(b, off, kind, next);
        SameRestSameWalk(a, b, next);
      }
    }
  }

  /** The first eight bytes are never inspected: buffers that agree from offset 8 on give the
      same map. */
  lemma SignatureIgnored(a: seq<Byte>, b: seq<Byte>, dialect: Dialect, utf8: Utf8Decoder)
    requires |a| == |b|
    requires forall i :: SignatureLength <= i < |a| ==> a[i] == b[i]
    ensures Extracted(a, dialect, utf8) == Extracted(b, dialect, utf8)
  {
    SameRestSameWalk(a, b, SignatureLength);
  }

  /** A chunk whose length runs past the end of the buffer is still read, with the payload
      bytes that are there (including the bytes where its CRC should be), and is the last. */
  lemma TruncatedChunkContributes(buf: seq<Byte>, off: nat, n: nat, kind: seq<Byte>, partial: seq<Byte>)
    requires n < 0x1_0000_0000 && |kind| == 4 && 4 <= |partial| < n
    requires off <= |buf| && buf[off..] == EncodeU32BE(n) + kind + partial
    ensures Visits(buf, off) == [Visit(Ascii(kind), partial)]
  {
    var enc := EncodeU32BE(n) + kind + partial;
    var b := buf[off..];
    assert buf[off .. off + 4] == b[..4] == enc[..4] == EncodeU32BE(n);
    ReadEncodedU32(n);
    assert ReadU32BE(buf, off) == ReadU32BE(buf[off .. off + 4], 0);
    assert buf[off + 4 .. off + 8] == b[4..8] == enc[4..8] == kind;
    ChunkTypeAscii(buf, off);
    assert Payload(buf, off) == buf[off + 8..] == b[8..] == partial;
    var next := off + ReadU32BE(buf, off) + Envelope;
    if ChunkType(buf, off) != "IEND" {
      VisitsStep(buf, off, ChunkType(buf, off), next);
      assert Visits(buf, next) == [];
    }
  }

  /** Handling chunks none of which is zTXt gives the same map in both copies of the walker. */
  lemma {:induction false} FoldIgnoresDialect(chunks: Metadata, vs: seq<Visit>,
                                              inflate: seq<Byte> -> Option<seq<Byte>>, utf8: Utf8Decoder)
    requires forall i :: 0 <= i < |vs| ==> vs[i].kind != "zTXt"
    ensures Fold(chunks, vs, WithZtxt(inflate), utf8) == Fold(chunks, vs, TextOnly, utf8)
    decreases |vs|
  {
    if vs != [] {
      var next := ApplyChunk(chunks, vs[0].kind, vs[0].data, TextOnly, utf8);
      assert ApplyChunk(chunks, vs[0].kind, vs[0].data, WithZtxt(inflate), utf8) == next;
      FoldIgnoresDialect(next, vs[1..], inflate, utf8);
    }
  }

  /** On a buffer whose walk reads no zTXt chunk, the extended walker of test-metadata.js and
      the runtime walker of src/main.js build the same map. */
  lemma DialectsAgree(buf: seq<Byte>, inflate: seq<Byte> -> Option<seq<Byte>>, utf8: Utf8Decoder)
    requires forall i :: 0 <= i < |Visits(buf, SignatureLength)| ==> Visits(buf, SignatureLength)[i].kind != "zTXt"
    ensures Extracted(buf, WithZtxt(inflate), utf8) == Extracted(buf, TextOnly, utf8)
  {
    FoldIgnoresDialect(map[], Visits(buf, SignatureLength), inflate, utf8);
  }

  /** Two chunks, the first of which is not IEND, are both read, and handled in turn. */
  lemma ListedPair(chunks: Metadata, c1: Chunk, c2: Chunk, dialect: Dialect, utf8: Utf8Decoder)
    requires Ascii(c1.kind) != "IEND"
    ensures Listed([c1, c2]) == [Visit(Ascii(c1.kind), c1.data), Visit(Ascii(c2.kind), c2.data)]
    ensures Fold(chunks, Listed([c1, c2]), dialect, utf8)
         == ApplyChunk(ApplyChunk(chunks, Ascii(c1.kind), c1.data, dialect, utf8), Ascii(c2.kind), c2.data, dialect, utf8)
  {
    var v1, v2 := Visit(Ascii(c1.kind), c1.data), Visit(Ascii(c2.kind), c2.data);
    assert [c1, c2][1..] == [c2] && [c2][1..] == [];
    assert Listed([c2]) == [v2];
    FoldCons(chunks, v1, [v2], dialect, utf8);
    FoldCons(ApplyChunk(chunks, v1.kind, v1.data, dialect, utf8), v2, [], dialect, utf8);
  }

  /** A stream of two chunks, the first not IEND, where the walk ends at the second or at the
      rest after it: the map is the two chunks handled in turn from the empty map. */
  lemma PairStream(sig: seq<Byte>, c1: Chunk, c2: Chunk, tail: seq<Byte>, dialect: Dialect, utf8: Utf8Decoder)
    requires |sig| == SignatureLength && WellFormed(c1) && WellFormed(c2)
    requires Ascii(c1.kind) != "IEND" && (Ascii(c2.kind) == "IEND" || Stops(tail))
    ensures AllWellFormed([c1, c2])
    ensures Extracted(sig + EncodeChunks([c1, c2]) + tail, dialect, utf8)
         == ApplyChunk(ApplyChunk(map[], Ascii(c1.kind), c1.data, dialect, utf8), Ascii(c2.kind), c2.data, dialect, utf8)
  {
    assert [c1, c2][1..] == [c2] && [c2][1..] == [];
    assert AllWellFormed([c1, c2]) && Terminated([c1, c2], tail);
    WalkStream(sig, [c1, c2], tail);
    ListedPair(map[], c1, c2, dialect, utf8);
  }

  /** A tEXt payload written as keyword, zero byte and text stores the text under the keyword. */
  lemma TextPayload(chunks: Metadata, keyword: seq<Byte>, text: seq<Byte>, dialect: Dialect, utf8: Utf8Decoder)
    requires 0 !in keyword
    ensures ApplyChunk(chunks, Ascii(TextType), keyword + [0] + text, dialect, utf8)
         == Store(chunks, Ascii(keyword), utf8(text))
  {
    TypeNames();
    SplitJoin(keyword, text);
  }

  /** A tEXt chunk with keyword K and text T, then IEND: the map is exactly K -> T, whatever
      bytes follow IEND. */
  lemma TextChunkRecorded(sig: seq<Byte>, keyword: seq<Byte>, text: seq<Byte>, crc: seq<Byte>,
                          endCrc: seq<Byte>, rest: seq<Byte>, dialect: Dialect, utf8: Utf8Decoder)
    requires |sig| == SignatureLength && |crc| == 4 && |endCrc| == 4
    requires 0 !in keyword && |keyword| + 1 + |text| < 0x1_0000_0000 && Ascii(keyword) != ProtoKey
    ensures Extracted(sig + EncodeChunks([Chunk(TextType, keyword + [0] + text, crc), Chunk(EndType, [], endCrc)])
                      + rest, dialect, utf8)
         == map[Ascii(keyword) := utf8(text)]
  {
    var c, e := Chunk(TextType, keyword + [0] + text, crc), Chunk(EndType, [], endCrc);
    TypeNames();
    PairStream(sig, c, e, rest, dialect, utf8);
    TextPayload(map[], keyword, text, dialect, utf8);
  }

  /** Two tEXt chunks with the same keyword: the later text wins. */
  lemma LaterChunkWins(sig: seq<Byte>, keyword: seq<Byte>, first: seq<Byte>, second: seq<Byte>,
                       crc: seq<Byte>, tail: seq<Byte>, dialect: Dialect, utf8: Utf8Decoder)
    requires |sig| == SignatureLength && |crc| == 4 && Stops(tail)
    requires 0 !in keyword && Ascii(keyword) != ProtoKey
    requires |keyword| + 1 + |first| < 0x1_0000_0000 && |keyword| + 1 + |second| < 0x1_0000_0000
    ensures Extracted(sig + EncodeChunks([Chunk(TextType, keyword + [0] + first, crc),
                                          Chunk(TextType, keyword + [0] + second, crc)]) + tail, dialect, utf8)
         == map[Ascii(keyword) := utf8(second)]
  {
    var c1, c2 := Chunk(TextType, keyword + [0] + first, crc), Chunk(TextType, keyword + [0] + second, crc);
    TypeNames();
    PairStream(sig, c1, c2, tail, dialect, utf8);
    var k := Ascii(keyword);
    var once: Metadata := map[k := utf8(first)];
    TextPayload(map[], keyword, first, dialect, utf8);
    TextPayload(once, keyword, second, dialect, utf8);
    assert once[k := utf8(second)] == map[k := utf8(second)];
  }

  /** Handling two lists in a row is handling their concatenation. */
  lemma {:induction false} FoldAppend(m: Metadata, a: seq<Visit>, b: seq<Visit>, dialect: Dialect, utf8: Utf8Decoder)
    ensures Fold(m, a + b, dialect, utf8) == Fold(Fold(m, a, dialect, utf8), b, dialect, utf8)
    decreases |a|
  {
    if a == [] {
      assert a + b == b;
    } else {
      assert (a + b)[1..] == a[1..] + b;
      FoldAppend(ApplyChunk(m, a[0].kind, a[0].data, dialect, utf8), a[1..], b, dialect, utf8);
    }
  }

  /** A chunk that cannot write `key`: it is not a text type, its payload has no zero byte, or
      its keyword decodes to something else. */
  predicate Untouched(v: Visit, key: string)
  {
    (v.kind != "tEXt" && v.kind != "iTXt" && v.kind != "zTXt")
    || SplitAtZero(v.data).None? || Ascii(SplitAtZero(v.data).value.0) != key
  }

  /** A chunk that cannot write `key` leaves its entry as it was. */
  lemma ApplyKeeps(m: Metadata, v: Visit, key: string, dialect: Dialect, utf8: Utf8Decoder)
    requires Untouched(v, key)
    ensures var r := ApplyChunk(m, v.kind, v.data, dialect, utf8);
            (key in r <==> key in m) && (key in m ==> r[key] == m[key])
  {
  }

  /** Chunks none of which can write `key` leave its entry as it was. */
  lemma {:induction false} KeyKept(m: Metadata, vs: seq<Visit>, key: string, dialect: Dialect, utf8: Utf8Decoder)
    requires forall i :: 0 <= i < |vs| ==> Untouched(vs[i], key)
    ensures var r := Fold(m, vs, dialect, utf8);
            (key in r <==> key in m) && (key in m ==> r[key] == m[key])
    decreases |vs|
  {
    if vs != [] {
      ApplyKeeps(m, vs[0], key, dialect, utf8);
      KeyKept(ApplyChunk(m, vs[0].kind, vs[0].data, dialect, utf8), vs[1..], key, dialect, utf8);
    }
  }

  /** Last write wins: a tEXt or iTXt chunk with keyword K and text T, whatever came before it,
      leaves K -> T when no chunk after it writes K. */
  lemma LastWriteWins(m: Metadata, before: seq<Visit>, kind: string, keyword: seq<Byte>, text: seq<Byte>,
                      after: seq<Visit>, dialect: Dialect, utf8: Utf8Decoder)
    requires kind == "tEXt" || kind == "iTXt"
    requires 0 !in keyword && Ascii(keyword) != ProtoKey
    requires forall i :: 0 <= i < |after| ==> Untouched(after[i], Ascii(keyword))
    ensures var r := Fold(m, before + [Visit(kind, keyword + [0] + text)] + after, dialect, utf8);
            Ascii(keyword) in r && r[Ascii(keyword)] == utf8(text)
  {
    var v := Visit(kind, keyword + [0] + text);
    var mid := Fold(m, before, dialect, utf8);
    FoldAppend(m, before + [v], after, dialect, utf8);
    FoldAppend(m, before, [v], dialect, utf8);
    FoldCons(mid, v, [], dialect, utf8);
    SplitJoin(keyword, text);
    var written := ApplyChunk(mid, kind, v.data, dialect, utf8);
    assert written == mid[Ascii(keyword) := utf8(text)];
    KeyKept(written, after, Ascii(keyword), dialect, utf8);
  }

  /** Last write wins in a whole stream: when the chunks the walker reads contain a text chunk
      with keyword K and text T and no later chunk writes K, the map holds K -> T. */
  lemma StreamLastWriteWins(sig: seq<Byte>, cs: seq<Chunk>, tail: seq<Byte>, before: seq<Visit>, kind: string,
                            keyword: seq<Byte>, text: seq<Byte>, after: seq<Visit>, dialect: Dialect, utf8: Utf8Decoder)
    requires |sig| == SignatureLength && AllWellFormed(cs) && Terminated(cs, tail)
    requires Listed(cs) == before + [Visit(kind, keyword + [0] + text)] + after
    requires kind == "tEXt" || kind == "iTXt"
    requires 0 !in keyword && Ascii(keyword) != ProtoKey
    requires forall i :: 0 <= i < |after| ==> Untouched(after[i], Ascii(keyword))
    ensures var r := Extracted(sig + EncodeChunks(cs) + tail, dialect, utf8);
            Ascii(keyword) in r && r[Ascii(keyword)] == utf8(text)
  {
    WalkStream(sig, cs, tail);
    LastWriteWins(map[], before, kind, keyword, text, after, dialect, utf8);
  }

  /** A text chunk whose keyword decodes to "__proto__" records nothing. */
  lemma ProtoKeywordIgnored(chunks: Metadata, keyword: seq<Byte>, text: seq<Byte>, dialect: Dialect, utf8: Utf8Decoder)
    requires 0 !in keyword && Ascii(keyword) == ProtoKey
    ensures ApplyChunk(chunks, Ascii(TextType), keyword + [0] + text, dialect, utf8) == chunks
  {
    TextPayload(chunks, keyword, text, dialect, utf8);
  }

  /** iTXt payloads are handled exactly as tEXt payloads, in either copy of the walker. */
  lemma TextKindsAlike(chunks: Metadata, data: seq<Byte>, dialect: Dialect, utf8: Utf8Decoder)
    ensures ApplyChunk(chunks, Ascii(IntlTextType), data, dialect, utf8) == TextEntry(chunks, data, utf8)
    ensures ApplyChunk(chunks, Ascii(TextType), data, dialect, utf8) == TextEntry(chunks, data, utf8)
  {
    TypeNames();
  }

  /** A chunk of any type other than tEXt, iTXt and zTXt leaves the map as it was. */
  lemma OtherKindsIgnored(chunks: Metadata, kind: string, data: seq<Byte>, dialect: Dialect, utf8: Utf8Decoder)
    requires kind != "tEXt" && kind != "iTXt" && kind != "zTXt"
    ensures ApplyChunk(chunks, kind, data, dialect, utf8) == chunks
  {
  }

  /** The runtime copy does not look at zTXt chunks. */
  lemma RuntimeIgnoresZtxt(chunks: Metadata, data: seq<Byte>, utf8: Utf8Decoder)
    ensures ApplyChunk(chunks, Ascii(CompressedType), data, TextOnly, utf8) == chunks
  {
    TypeNames();
  }

  /** A payload with no zero byte has no keyword, so no chunk type records anything for it. */
  lemma UnsplitPayloadIgnored(chunks: Metadata, kind: string, data: seq<Byte>, dialect: Dialect, utf8: Utf8Decoder)
    requires 0 !in data
    ensures ApplyChunk(chunks, kind, data, dialect, utf8) == chunks
  {
    SplitAtZeroParts(data);
  }

  /** A zTXt chunk whose compression method is not 0, or that has no method byte at all,
      records nothing, in either copy of the walker. */
  lemma CompressedNonDeflateIgnored(chunks: Metadata, keyword: seq<Byte>, rest: seq<Byte>,
                                    dialect: Dialect, utf8: Utf8Decoder)
    requires 0 !in keyword && (rest == [] || rest[0] != 0)
    ensures ApplyChunk(chunks, "zTXt", keyword + [0] + rest, dialect, utf8) == chunks
  {
    SplitJoin(keyword, rest);
  }

  /** A zTXt chunk with method 0 stores the decoded inflated text under its keyword when the
      bytes after the method byte inflate, and nothing when inflating fails. */
  lemma CompressedInflated(chunks: Metadata, keyword: seq<Byte>, compressed: seq<Byte>,
                           inflate: seq<Byte> -> Option<seq<Byte>>, utf8: Utf8Decoder)
    requires 0 !in keyword
    ensures ApplyChunk(chunks, "zTXt", keyword + [0] + ([0] + compressed), WithZtxt(inflate), utf8)
         == match inflate(compressed)
            case None => chunks
            case Some(inflated) => Store(chunks, Ascii(keyword), utf8(inflated))
  {
    SplitJoin(keyword, [0] + compressed);
    assert ([0] + compressed)[1..] == compressed;
  }

  /** A zTXt chunk that fails to inflate does not end the walk: a tEXt chunk after it is
      still recorded, and the failed keyword is not. */
  lemma InflateFailureContinues(sig: seq<Byte>, zkey: seq<Byte>, compressed: seq<Byte>,
                                keyword: seq<Byte>, text: seq<Byte>, crc: seq<Byte>, tail: seq<Byte>,
                                inflate: seq<Byte> -> Option<seq<Byte>>, utf8: Utf8Decoder)
    requires |sig| == SignatureLength && |crc| == 4 && Stops(tail)
    requires 0 !in zkey && |zkey| + 2 + |compressed| < 0x1_0000_0000 && inflate(compressed) == None
    requires 0 !in keyword && |keyword| + 1 + |text| < 0x1_0000_0000 && Ascii(keyword) != ProtoKey
    ensures Extracted(sig + EncodeChunks([Chunk(CompressedType, zkey + [0] + ([0] + compressed), crc),
                                          Chunk(TextType, keyword + [0] + text, crc)]) + tail,
                      WithZtxt(inflate), utf8)
         == map[Ascii(keyword) := utf8(text)]
  {
    var c1 := Chunk(CompressedType, zkey + [0] + ([0] + compressed), crc);
    var c2 := Chunk(TextType, keyword + [0] + text, crc);
    var dialect := WithZtxt(inflate);
    TypeNames();
    PairStream(sig, c1, c2, tail, dialect, utf8);
    CompressedInflated(map[], zkey, compressed, inflate, utf8);
    TextPayload(map[], keyword, text, dialect, utf8);
  }
}
