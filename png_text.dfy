/** The PNG text-chunk walker: `extractPNGText` in src/main.js (tEXt and iTXt only) and its
    extended copy in test-metadata.js (tEXt, iTXt and zTXt). Both walk the buffer with one
    offset cursor; here they share a single walker and differ only in the `Dialect`. */
module PngText {
  import opened Wrappers

  type Byte = b: nat | b < 256

  /** The object the walker fills in: decoded keyword to decoded text. */
  type Metadata = map<string, string>

  /** The UTF-8 decoder of the runtime (Buffer.toString('utf-8')), supplied by the caller. */
  type Utf8Decoder = seq<Byte> -> string

  /** Which copy of the walker runs: the runtime one, or the one that also inflates zTXt
      payloads with the supplied zlib inflate (None when inflating throws). */
  datatype Dialect = TextOnly | WithZtxt(inflate: seq<Byte> -> Option<seq<Byte>>)

  /** A chunk header is a 4-byte length, a 4-byte type; a 4-byte CRC follows the payload. */
  const Envelope: nat := 12
  /** The walk starts right after the 8-byte signature, which is never inspected. */
  const SignatureLength: nat := 8

  /** Assigning a string to the property "__proto__" of a plain object changes nothing. */
  const ProtoKey: string := "__proto__"

  function Min(a: int, b: int): int { if a <= b then a else b }

  /** Node's 'ascii' decoding of one byte: the high bit is dropped. */
  function AsciiChar(b: Byte): char
  {
    (b % 128) as char
  }

  /** Node's 'ascii' decoding of a byte sequence, char by char. */
  function Ascii(bs: seq<Byte>): (s: string)
    ensures |s| == |bs|
  {
    seq(|bs|, i requires 0 <= i < |bs| => AsciiChar(bs[i]))
  }

  /** Buffer.readUInt32BE: the unsigned big-endian 32-bit value at `off`. */
  function ReadU32BE(buf: seq<Byte>, off: nat): (n: nat)
    requires off + 4 <= |buf|
    ensures n < 0x1_0000_0000
  {
    buf[off] as int * 0x100_0000 + buf[off + 1] as int * 0x1_0000 + buf[off + 2] as int * 0x100 + buf[off + 3]
  }

  /** Buffer.slice(start, end) for start <= |buf|: the end is clamped to the buffer's end. */
  function Slice(buf: seq<Byte>, start: nat, end: nat): (r: seq<Byte>)
    requires start <= |buf|
    ensures |r| == if end <= start then 0 else Min(end, |buf|) - start
  {
    if end <= start then [] else buf[start .. Min(end, |buf|)]
  }

  /** The type of the chunk at `off`: its four type bytes decoded as 'ascii'. */
  function ChunkType(buf: seq<Byte>, off: nat): (s: string)
    requires off + 8 <= |buf|
  {
    [AsciiChar(buf[off + 4]), AsciiChar(buf[off + 5]), AsciiChar(buf[off + 6]), AsciiChar(buf[off + 7])]
  }

  /** That is the 'ascii' decoding of the four type bytes. */
  lemma ChunkTypeAscii(buf: seq<Byte>, off: nat)
    requires off + 8 <= |buf|
    ensures ChunkType(buf, off) == Ascii(buf[off + 4 .. off + 8])
  {
  }

  /** The payload of the chunk at `off`: `length` bytes after the header, truncated at the end
      of the buffer when the length overruns it. */
  function Payload(buf: seq<Byte>, off: nat): seq<Byte>
    requires off + Envelope <= |buf|
  {
    Slice(buf, off + 8, off + 8 + ReadU32BE(buf, off))
  }

  /** Buffer.indexOf(0): the index of the first zero byte, None for -1. */
  function IndexOfZero(data: seq<Byte>): (r: Option<nat>)
    ensures r.Some? ==> r.value < |data|
  {
    if data == [] then None
    else if data[0] == 0 then Some(0)
    else match IndexOfZero(data[1..])
      case None => None
      case Some(i) => Some(i + 1)
  }

  /** indexOf finds the first zero byte, and reports -1 exactly when there is none. */
  lemma {:induction false} IndexOfZeroFirst(data: seq<Byte>)
    ensures IndexOfZero(data).Some? ==> data[IndexOfZero(data).value] == 0
    ensures IndexOfZero(data).Some? ==> forall j :: 0 <= j < IndexOfZero(data).value ==> data[j] != 0
    ensures IndexOfZero(data).None? <==> 0 !in data
  {
    if data != [] && data[0] != 0 {
      IndexOfZeroFirst(data[1..]);
      assert data == [data[0]] + data[1..];
    }
  }

  /** A text payload split at its first zero byte into keyword bytes and the bytes after. */
  function SplitAtZero(data: seq<Byte>): (r: Option<(seq<Byte>, seq<Byte>)>)
  {
    match IndexOfZero(data)
    case None => None
    case Some(z) => Some((data[..z], data[z + 1..]))
  }

  /** The split exists exactly when there is a zero byte; the keyword holds none, and keyword,
      zero byte and rest make up the payload. */
  lemma SplitAtZeroParts(data: seq<Byte>)
    ensures SplitAtZero(data).Some? <==> 0 in data
    ensures SplitAtZero(data).Some? ==>
              var (keyword, rest) := SplitAtZero(data).value;
              data == keyword + [0] + rest && 0 !in keyword
  {
    IndexOfZeroFirst(data);
    if SplitAtZero(data).Some? {
      var z := IndexOfZero(data).value;
      assert data == data[..z] + [0] + data[z + 1..];
    }
  }

  /** `chunks[key] = value` on a plain object. */
  function Store(chunks: Metadata, key: string, value: string): Metadata
  {
    if key == ProtoKey then chunks else chunks[key := value]
  }

  /** A tEXt or iTXt payload: keyword before the first zero byte, text after it. */
  function TextEntry(chunks: Metadata, data: seq<Byte>, utf8: Utf8Decoder): Metadata
  {
    match SplitAtZero(data)
    case None => chunks
    case Some((keyword, text)) => Store(chunks, Ascii(keyword), utf8(text))
  }

  /** A zTXt payload: keyword, zero byte, compression method, compressed text. Only method 0
      (deflate) is inflated, and a failed inflate records nothing. */
  function CompressedEntry(chunks: Metadata, data: seq<Byte>, inflate: seq<Byte> -> Option<seq<Byte>>,
                           utf8: Utf8Decoder): Metadata
  {
    match SplitAtZero(data)
    case None => chunks
    case Some((keyword, rest)) =>
      if |rest| > 0 && rest[0] == 0 then
        match inflate(rest[1..])
        case None => chunks
        case Some(inflated) => Store(chunks, Ascii(keyword), utf8(inflated))
      else chunks
  }

  /** What one chunk of type `kind` with payload `data` does to the map. */
  function ApplyChunk(chunks: Metadata, kind: string, data: seq<Byte>, dialect: Dialect, utf8: Utf8Decoder): Metadata
  {
    if kind == "tEXt" || kind == "iTXt" then TextEntry(chunks, data, utf8)
    else if kind == "zTXt" && dialect.WithZtxt? then CompressedEntry(chunks, data, dialect.inflate, utf8)
    else chunks
  }

  /** A chunk as the walker reads it: its type decoded as 'ascii', and its payload. */
  datatype Visit = Visit(kind: string, data: seq<Byte>)

  /** The chunks the cursor reads from `off`, in order: none when fewer than 12 bytes remain;
      otherwise the chunk there, and after it (unless it is IEND) the chunks from length + 12
      bytes further on. */
  function Visits(buf: seq<Byte>, off: nat): seq<Visit>
    decreases |buf| - off
  {
    if off + Envelope > |buf| then []
    else
      var v := Visit(ChunkType(buf, off), Payload(buf, off));
      if v.kind == "IEND" then [v] else [v] + Visits(buf, off + ReadU32BE(buf, off) + Envelope)
  }

  /** The map after handling the chunks `vs` one after the other, starting from `chunks`. */
  function Fold(chunks: Metadata, vs: seq<Visit>, dialect: Dialect, utf8: Utf8Decoder): Metadata
    decreases |vs|
  {
    if vs == [] then chunks
    else Fold(ApplyChunk(chunks, vs[0].kind, vs[0].data, dialect, utf8), vs[1..], dialect, utf8)
  }

  /** The whole walk of a buffer: the chunks read from offset 8, handled from an empty map. */
  function Extracted(buf: seq<Byte>, dialect: Dialect, utf8: Utf8Decoder): Metadata
  {
    Fold(map[], Visits(buf, SignatureLength), dialect, utf8)
  }

  /** One step of the cursor: a chunk other than IEND is read, then the chunks after it. */
  lemma VisitsStep(buf: seq<Byte>, off: nat, kind: string, next: nat)
    requires off + Envelope <= |buf| && kind == ChunkType(buf, off) && kind != "IEND"
    requires next == off + ReadU32BE(buf, off) + Envelope
    ensures Visits(buf, off) == [Visit(kind, Payload(buf, off))] + Visits(buf, next)
  {
  }

  /** Handling a chunk and then the rest is handling the list that starts with it. */
  lemma FoldCons(chunks: Metadata, v: Visit, vs: seq<Visit>, dialect: Dialect, utf8: Utf8Decoder)
    ensures Fold(chunks, [v] + vs, dialect, utf8) == Fold(ApplyChunk(chunks, v.kind, v.data, dialect, utf8), vs, dialect, utf8)
  {
    assert ([v] + vs)[1..] == vs;
  }

  /** The walk from `off` past a chunk other than IEND: the map after it, walked on from the
      next chunk. */
  lemma FoldStep(buf: seq<Byte>, off: nat, before: Metadata, kind: string, after: Metadata, next: nat,
                 dialect: Dialect, utf8: Utf8Decoder)
    requires off + Envelope <= |buf| && kind == ChunkType(buf, off) && kind != "IEND"
    requires after == ApplyChunk(before, kind, Payload(buf, off), dialect, utf8)
    requires next == off + ReadU32BE(buf, off) + Envelope
    ensures Fold(before, Visits(buf, off), dialect, utf8) == Fold(after, Visits(buf, next), dialect, utf8)
  {
    VisitsStep(buf, off, kind, next);
    FoldCons(before, Visit(kind, Payload(buf, off)), Visits(buf, next), dialect, utf8);
  }

  /** The walk from `off` at an IEND chunk: the map after it. */
  lemma FoldEnd(buf: seq<Byte>, off: nat, before: Metadata, kind: string, after: Metadata,
                dialect: Dialect, utf8: Utf8Decoder)
    requires off + Envelope <= |buf| && kind == ChunkType(buf, off) && kind == "IEND"
    requires after == ApplyChunk(before, kind, Payload(buf, off), dialect, utf8)
    ensures Fold(before, Visits(buf, off), dialect, utf8) == after
  {
    var v := Visit(kind, Payload(buf, off));
    assert Visits(buf, off) == [v] + [];
    FoldCons(before, v, [], dialect, utf8);
  }

  /** The tEXt/iTXt branch as the code runs it, step by step; what `TextEntry` does with each
      payload is stated by PngProperties.TextPayload and PngProperties.UnsplitPayloadIgnored. */
  method RecordText(chunks: Metadata, data: seq<Byte>, utf8: Utf8Decoder) returns (next: Metadata)
    ensures next == TextEntry(chunks, data, utf8)
  {
    next := chunks;
    var nullIndex := IndexOfZero(data);
    if nullIndex.Some? {
      var keyword := Ascii(data[..nullIndex.value]);
      var text := utf8(data[nullIndex.value + 1..]);
      next := Store(next, keyword, text);
    }
  }

  /** The zTXt branch as the code runs it, step by step: the byte after the keyword's zero byte
      is the compression method. What `CompressedEntry` does with each payload is stated by
      PngProperties.CompressedInflated, PngProperties.CompressedNonDeflateIgnored and
      PngProperties.UnsplitPayloadIgnored. */
  method RecordCompressed(chunks: Metadata, data: seq<Byte>, inflate: seq<Byte> -> Option<seq<Byte>>,
                          utf8: Utf8Decoder) returns (next: Metadata)
    ensures next == CompressedEntry(chunks, data, inflate, utf8)
  {
    next := chunks;
    var nullIndex := IndexOfZero(data);
    if nullIndex.Some? {
      var keyword := Ascii(data[..nullIndex.value]);
      if nullIndex.value + 1 < |data| && data[nullIndex.value + 1] == 0 {
        var compressed := data[nullIndex.value + 2..];
        var inflated := inflate(compressed);
        if inflated.Some? {
          next := Store(next, keyword, utf8(inflated.value));
        }
      }
    }
  }

  /** The body of the loop for one chunk: the branches on its type. */
  method RecordChunk(chunks: Metadata, buf: seq<Byte>, offset: nat, length: nat, kind: string,
                     dialect: Dialect, utf8: Utf8Decoder) returns (next: Metadata)
    requires offset + Envelope <= |buf| && length == ReadU32BE(buf, offset)
    ensures next == ApplyChunk(chunks, kind, Payload(buf, offset), dialect, utf8)
    ensures kind == "tEXt" || kind == "iTXt" ==> next == TextEntry(chunks, Payload(buf, offset), utf8)
    ensures kind == "zTXt" && dialect.WithZtxt? ==> next == CompressedEntry(chunks, Payload(buf, offset), dialect.inflate, utf8)
    ensures kind != "tEXt" && kind != "iTXt" && (kind != "zTXt" || dialect.TextOnly?) ==> next == chunks
  {
    next := chunks;
    if kind == "tEXt" || kind == "iTXt" {
      var data := Slice(buf, offset + 8, offset + 8 + length);
      next := RecordText(chunks, data, utf8);
    } else if kind == "zTXt" && dialect.WithZtxt? {
      var data := Slice(buf, offset + 8, offset + 8 + length);
      next := RecordCompressed(chunks, data, dialect.inflate, utf8);
    }
  }

  /** The cursor loop shared by both copies of `extractPNGText`. */
  method Walk(buf: seq<Byte>, dialect: Dialect, utf8: Utf8Decoder) returns (chunks: Metadata)
    ensures chunks == Extracted(buf, dialect, utf8)
  {
    chunks := map[];
    var offset: nat := SignatureLength;
    while offset < |buf|
      invariant Fold(chunks, Visits(buf, offset), dialect, utf8) == Extracted(buf, dialect, utf8)
      decreases |buf| - offset
    {
      if offset + Envelope > |buf| {
        break;
      }
      var length := ReadU32BE(buf, offset);
      var kind := ChunkType(buf, offset);
      ghost var at, before := offset, chunks;
      chunks := RecordChunk(chunks, buf, offset, length, kind, dialect, utf8);
      offset := offset + length + Envelope;
      if kind == "IEND" {
        FoldEnd(buf, at, before, kind, chunks, dialect, utf8);
        break;
      }
      FoldStep(buf, at, before, kind, chunks, offset, dialect, utf8);
    }
  }

  /** `extractPNGText` of src/main.js: the runtime walker, tEXt and iTXt only. */
  method ExtractPngText(buf: seq<Byte>, utf8: Utf8Decoder) returns (chunks: Metadata)
    ensures chunks == Extracted(buf, TextOnly, utf8)
  {
    chunks := Walk(buf, TextOnly, utf8);
  }

  /** `extractPNGText` of test-metadata.js: the walker that also inflates zTXt chunks. */
  method ExtractPngTextWithZtxt(buf: seq<Byte>, utf8: Utf8Decoder, inflate: seq<Byte> -> Option<seq<Byte>>)
    returns (chunks: Metadata)
    ensures chunks == Extracted(buf, WithZtxt(inflate), utf8)
  {
    chunks := Walk(buf, WithZtxt(inflate), utf8);
  }
}
