# pnginfo-sorter, modelled in Dafny

pnginfo-sorter is a desktop tool that sorts PNG images, such as those written by image-generation
front ends, into folders. The sort is driven by the text metadata embedded in each image. The tool
has two parts: a main process that reads PNG text chunks and copies files, and a renderer page
that holds the dropped files and the rules list and runs the sort. This project models both parts
and proves what they compute.

- `wrappers.dfy` (module `Wrappers`): the `Option` type.
- `png_text.dfy` (module `PngText`): the chunk walker `extractPNGText`.
  - It has one cursor loop, `Walk`, with a `Dialect` switch. `TextOnly` is the runtime copy in
    `src/main.js`, which handles `tEXt` and `iTXt` only. `WithZtxt(inflate)` is the extended copy
    in `test-metadata.js`, which also inflates `zTXt`.
  - The loop is proved against a specification in two parts:
    - `Visits`: the chunks the cursor reads, as a list. Reading starts at offset 8, stops when
      fewer than 12 bytes remain, advances by length + 12, and stops after `IEND`.
    - `Fold`: those chunks applied one by one to the keyword map.
  - Two Node behaviours are written out:
    - `Buffer.slice` clamps its end to the buffer's end (`Slice`).
    - `'ascii'` decoding clears each byte's high bit (`Ascii`, `AsciiChar`).
  - Assigning to the key `"__proto__"` of a plain object stores nothing (`Store`).
- `png_properties.dfy` (module `PngProperties`): a PNG stream described independently, as a list
  of chunks that is encoded to bytes.
  - The main lemma: walking the encoding reads exactly the listed chunks, up to the first `IEND`
    (`WalkStream`).
  - Corollaries: last write wins, at any position in any stream (`StreamLastWriteWins`); a payload with no zero byte records nothing
    (`UnsplitPayloadIgnored`); iTXt is handled as tEXt and other types change nothing; a failed
    inflate keeps the walk going; the signature bytes are ignored; a truncated chunk still
    contributes its partial payload; the two copies agree when there is no `zTXt`.
- `text.dfy` (module `Text`): the string functions the renderer uses.
  - `toLowerCase` for ASCII letters, `includes`, and `trim` over the ECMAScript white-space set.
  - The text `JSON.stringify` writes for one object member.
- `sorter.dfy` (module `Sorter`): the renderer as a class. Its fields are `files`, `rules` and
  the state of the execute control.
  - Methods: `HandleFiles`, add rule, delete rule, and the execute handler.
  - The execute handler's inner loop (`RouteFile`) is proved against `Route`, and `Route` is
    characterised in both directions.
  - The counters the handler keeps are proved to partition the files.

A chunk that starts with at least 12 bytes left is still read, even when its length overruns the
buffer. `Buffer.slice` clamps its end (`src/main.js:45`), so the truncated payload, CRC bytes
included, is handled like any other (`PngProperties.TruncatedChunkContributes`), and the walk ends
after it. With fewer than 12 bytes left the walk stops before reading the chunk
(`src/main.js:39`).

## Model

| member | source | states |
|---|---|---|
| PngText.ReadU32BE | src/main.js:41 | the length field is an unsigned 32-bit value read big-endian from the four bytes at the cursor |
| PngText.AsciiChar | src/main.js:42 | defines Node's 'ascii' decoding of one byte: the char whose code is the byte with its high bit cleared |
| PngText.Ascii | src/main.js:49 | 'ascii' decoding of a byte range, char by char, with one char per byte |
| PngText.Payload | src/main.js:45 | defines the chunk's data: the `length` bytes after the 8-byte header, cut short at the buffer's end |
| PngText.IndexOfZero | src/main.js:46 | defines `indexOf(0)`, with None for -1; a found index lies inside the payload |
| PngText.Slice | src/main.js:45 | a slice is empty when its end is not after its start; otherwise its length runs from the start to the end clamped to the buffer's end |
| PngText.IndexOfZeroFirst | src/main.js:46-48 | indexOf(0) returns the first zero byte: earlier bytes are non-zero, and -1 is returned exactly when the payload has no zero byte |
| PngText.SplitAtZero | src/main.js:46-50 | defines the split of a payload into the bytes before its first zero byte and the bytes after it |
| PngText.SplitAtZeroParts | src/main.js:46-50 | a payload splits exactly when it has a zero byte; the keyword has no zero byte, and keyword, zero byte and text make up the payload |
| PngText.Store | src/main.js:51 | defines `chunks[keyword] = text` on a plain object: the key `__proto__` stores nothing, any other key is set to the text |
| PngText.TextEntry | src/main.js:44-53 | defines the tEXt/iTXt branch on the map: a payload with a zero byte stores utf-8(text) under ascii(keyword), one without stores nothing |
| PngText.CompressedEntry | test-metadata.js:39-58 | defines the zTXt branch on the map: keyword, zero byte, method byte 0, then inflated and decoded; anything else stores nothing |
| PngText.ApplyChunk | test-metadata.js:19-59 | defines what one chunk does to the map by its type: tEXt and iTXt as text, zTXt only in the extended copy, every other type nothing |
| PngText.Visits | src/main.js:38-57 | defines the chunks the cursor reads from an offset: none when fewer than 12 bytes remain, else the chunk there and, unless it is IEND, those from length + 12 bytes on |
| PngText.Fold | src/main.js:38-57 | defines the map after handling a list of chunks in order |
| PngText.Extracted | src/main.js:33-63 | defines the walk's result: the chunks read from offset 8, handled from the empty map |
| PngText.ChunkTypeAscii | src/main.js:42 | the chunk type is the 'ascii' decoding of the four bytes at offset + 4 |
| PngText.VisitsStep | src/main.js:55-56 | a chunk other than IEND is read, and reading goes on at offset + length + 12 |
| PngText.FoldCons | src/main.js:38-57 | handling a chunk and then the rest equals handling the list that starts with that chunk |
| PngText.FoldStep | src/main.js:44-56 | after a chunk other than IEND, the rest of the walk continues from the next chunk with the updated map |
| PngText.FoldEnd | src/main.js:55-56 | an IEND chunk is handled and ends the walk |
| PngText.RecordText | src/main.js:44-52 | the tEXt/iTXt branch stores utf-8(text) under ascii(keyword), with the split at the first zero byte; a payload with no zero byte stores nothing |
| PngText.RecordCompressed | test-metadata.js:39-58 | the zTXt branch: method byte 0 inflates the bytes after it and stores the decoded result; any other method byte or none stores nothing; a failed inflate stores nothing |
| PngText.RecordChunk | test-metadata.js:19-59 | the branches on the chunk type: tEXt and iTXt both give `TextEntry`; zTXt gives `CompressedEntry` in the extended copy; any other type, and zTXt in the runtime copy, leaves the map unchanged |
| PngText.Walk | src/main.js:33-63 | the cursor loop returns the map obtained by handling, in order, the chunks read from offset 8 |
| PngText.ExtractPngText | src/main.js:33-63 | the runtime walker, which handles only tEXt and iTXt |
| PngText.ExtractPngTextWithZtxt | test-metadata.js:4-69 | the extended walker, which also handles zTXt |
| PngProperties.TypeNames | src/main.js:42-44 | the type bytes of tEXt, iTXt, zTXt and IEND decode to the names the walker compares against |
| PngProperties.ReadEncodedU32 | src/main.js:41 | readUInt32BE reads back any 32-bit value written big-endian |
| PngProperties.EncodeReadU32 | src/main.js:41 | writing big-endian the value read from four bytes gives back those bytes |
| PngProperties.SplitJoin | src/main.js:46-50 | a keyword with no zero byte, followed by a zero byte and a text, splits back into that keyword and that text |
| PngProperties.HeaderOf | src/main.js:41-45 | an encoded chunk is read back with its own length, type and payload, and whatever follows it begins right after it |
| PngProperties.FirstChunkAt | src/main.js:41-55 | inside an encoded list, the first chunk is read at the cursor and the rest of the list begins length + 12 bytes on |
| PngProperties.EncodedLaidOut | src/main.js:38-56 | an encoded chunk list that ends at an IEND or at a short rest lies at the offsets the cursor visits |
| PngProperties.ReadChunkAt | src/main.js:41-45 | where the bytes begin with a chunk, the walker reads that chunk's length, type and whole payload |
| PngProperties.WalkLaidOut | src/main.js:38-57 | reading laid-out chunks visits exactly the listed chunks, in order, up to and including the first IEND |
| PngProperties.WalkStream | src/main.js:33-63 | for any signature, an encoded chunk list and a rest where the walk stops: the walker reads the listed chunks, and its map is those chunks handled from the empty map |
| PngProperties.VisitsEndAtIend | src/main.js:56 | no chunk the walk reads before its last one is IEND |
| PngProperties.ChunkFromHere | src/main.js:41-45 | what is read at the cursor depends only on the bytes from the cursor on |
| PngProperties.SameRestSameWalk | src/main.js:38-57 | buffers that agree from the cursor on are read alike from there |
| PngProperties.SignatureIgnored | src/main.js:35 | the first 8 bytes are never inspected: buffers that differ only there give the same map |
| PngProperties.TruncatedChunkContributes | src/main.js:45 | a chunk that starts with at least 12 bytes left and whose length overruns the buffer is still read, with the bytes that are there (CRC bytes included), and it is the last chunk read |
| PngProperties.FoldIgnoresDialect | test-metadata.js:19-59 | handling chunks none of which is zTXt gives the same map in both copies |
| PngProperties.DialectsAgree | test-metadata.js:11-63 | on a buffer whose walk reads no zTXt chunk, both copies of extractPNGText return the same map |
| PngProperties.ListedPair | src/main.js:55-56 | two chunks, the first not IEND, are both read and handled in turn |
| PngProperties.PairStream | src/main.js:33-63 | a stream of two chunks yields the map of the two handled in turn from the empty map |
| PngProperties.TextPayload | src/main.js:44-52 | a tEXt payload of keyword, zero byte and text stores utf-8(text) under ascii(keyword) |
| PngProperties.TextChunkRecorded | src/main.js:44-56 | a tEXt chunk followed by IEND gives exactly the map keyword -> text, whatever bytes follow IEND |
| PngProperties.LaterChunkWins | src/main.js:51 | an instance: a stream of two tEXt chunks with the same keyword leaves the later text |
| PngProperties.FoldAppend | src/main.js:38-57 | handling two lists of chunks in a row is handling their concatenation |
| PngProperties.Untouched | src/main.js:44-52 | defines a chunk that cannot write a key: not a text type, no zero byte in its payload, or another keyword |
| PngProperties.ApplyKeeps | src/main.js:44-52 | a chunk that cannot write a key leaves its entry (present or absent, and its value) as it was |
| PngProperties.KeyKept | src/main.js:38-57 | a list of chunks none of which can write a key leaves its entry as it was |
| PngProperties.LastWriteWins | src/main.js:51 | a tEXt or iTXt chunk with keyword K and text T, after any chunks and from any map, leaves K -> T when no later chunk writes K |
| PngProperties.StreamLastWriteWins | src/main.js:33-63 | in any encoded stream, when the chunks the walker reads contain a text chunk K -> T and no later one writes K, the result maps K to T |
| PngProperties.ProtoKeywordIgnored | src/main.js:51 | a text chunk whose keyword is "__proto__" records nothing |
| PngProperties.TextKindsAlike | test-metadata.js:19-38 | an iTXt payload is handled exactly as a tEXt payload, in either copy |
| PngProperties.OtherKindsIgnored | src/main.js:44-53 | a chunk of any type other than tEXt, iTXt and zTXt leaves the map unchanged |
| PngProperties.RuntimeIgnoresZtxt | src/main.js:44 | the runtime copy leaves the map unchanged on a zTXt chunk |
| PngProperties.UnsplitPayloadIgnored | src/main.js:46-48 | a payload with no zero byte records nothing, whatever the chunk type and copy |
| PngProperties.CompressedNonDeflateIgnored | test-metadata.js:45-47 | a zTXt chunk with a non-zero compression method, or no method byte, records nothing |
| PngProperties.CompressedInflated | test-metadata.js:47-56 | with method 0, the bytes after the method byte are inflated; success stores the decoded text under the keyword, failure stores nothing |
| PngProperties.InflateFailureContinues | test-metadata.js:49-62 | a zTXt chunk that fails to inflate does not stop the walk: a later tEXt chunk is still recorded, and the failed keyword is absent |
| Text.LowerIsLower | src/renderer.js:156 | toLowerCase leaves no capital letter, keeps lower-case strings as they are, and is idempotent |
| Text.LowerConcat | src/renderer.js:156 | lower-casing a concatenation lower-cases each part |
| Text.LowerSlice | src/renderer.js:156 | lower-casing commutes with slicing |
| Text.LowerChar | src/renderer.js:156 | defines `toLowerCase` on one char: A–Z map to a–z, every other char is kept |
| Text.Lower | src/renderer.js:156 | `toLowerCase` on a string, char by char; the result has the input's length |
| Text.IsLower | src/renderer.js:156 | defines a string with no A–Z capital |
| Text.OccursAt | src/renderer.js:161 | defines an occurrence of the needle at an index of the haystack |
| Text.IsSubstring | src/renderer.js:161 | defines an occurrence of the needle at some index |
| Text.OccursShift | src/renderer.js:161 | an occurrence in the tail of a string is an occurrence in the string, one index later |
| Text.Includes | src/renderer.js:161 | `s.includes(p)` is true exactly when `p` occurs somewhere in `s` |
| Text.LowerOccurs | src/renderer.js:156-161 | an occurrence survives lower-casing both strings |
| Text.SubstringTrans | src/renderer.js:156-161 | an occurrence inside an occurrence is an occurrence |
| Text.MiddleOccurs | src/renderer.js:161 | the middle part of a concatenation occurs in it |
| Text.TrimStart | src/renderer.js:87-88 | the input without its leading white space: a suffix of the input, all removed chars are white space, and it does not start with white space |
| Text.TrimEnd | src/renderer.js:87-88 | the input without its trailing white space, in the same sense |
| Text.TrimBlank | src/renderer.js:87-90 | trim gives the empty (falsy) string exactly when the input is all white space |
| Text.TrimIdempotent | src/renderer.js:87-88 | trimming a trimmed string changes nothing |
| Text.IsSpace | src/renderer.js:87-88 | defines the chars `trim` removes: the ECMAScript WhiteSpace and LineTerminator chars |
| Text.Trim | src/renderer.js:87-88 | defines `trim` as removing leading, then trailing white space |
| Text.PlainJsonChar | src/renderer.js:156 | defines a char `JSON.stringify` writes as itself in a string: no quote, backslash or control char |
| Text.NeedsNoEscape | src/renderer.js:156 | defines a string all of whose chars need no escape |
| Text.Member | src/renderer.js:156 | the text written for an object member contains its key and its value |
| Sorter.Blob | src/renderer.js:156 | the text matched against is the lower-cased serialisation, which has no capital letter |
| Sorter.Matches | src/renderer.js:161 | defines a match: the lower-cased keyword occurs in the blob |
| Sorter.Route | src/renderer.js:160-173 | defines the rule loop from rule i: a match with a successful copy sorts, a thrown copy fails the file, a failed copy or no match goes on, and past the last rule the file is unsorted |
| Sorter.PassesOn | src/renderer.js:161-171 | defines a rule the loop goes past: no match, or a copy that reported failure |
| Sorter.OutcomeOf | src/renderer.js:153-181 | defines one file's outcome: failed when the read threw, else its route from rule 0 |
| Sorter.CountSorted | src/renderer.js:166 | defines the number of sorted outcomes |
| Sorter.CountUnsorted | src/renderer.js:177 | defines the number of unsorted outcomes |
| Sorter.CountFailed | src/renderer.js:179-181 | defines the number of files abandoned by a throw |
| Sorter.RouteSorted | src/renderer.js:160-168 | a file goes to the rule at j exactly when that rule matches, its copy succeeds, and every earlier rule either does not match or failed to copy |
| Sorter.RouteUnsorted | src/renderer.js:160-178 | a file is copied nowhere exactly when every rule either does not match or failed to copy |
| Sorter.RouteFile | src/renderer.js:158-173 | the inner loop tries the rules in order: it stops at the first copy that succeeds or throws, and goes on after a failed copy |
| Sorter.CountsPartition | src/renderer.js:150-181 | each file is counted at most once, as sorted, as unsorted, or (when a call threw) in neither; so sorted + unsorted <= number of files |
| Sorter.CountsWithoutFailures | src/renderer.js:175-178 | when no call threw, sorted + unsorted == number of files |
| Sorter.WithRule | src/renderer.js:90-91 | add appends exactly one rule, at the end, when both trimmed inputs are non-empty; otherwise the list is unchanged |
| Sorter.AddedRuleTrimmed | src/renderer.js:87-91 | an added rule's strings carry no surrounding white space, and a keyword input made only of white space adds nothing |
| Sorter.Without | src/renderer.js:122 | splice(index, 1) removes exactly the rule at index and keeps the others in order (as a multiset, only that rule is gone); an index past the end changes nothing |
| Sorter.Sorter.ControlCurrent | src/renderer.js:74 | defines the execute control as current: disabled exactly when there are no files or no rules, as lines 74, 102 and 128 set it |
| Sorter.Sorter.constructor | src/renderer.js:1-2 | at start-up there are no files, the rules are the saved ones, and the execute control is disabled |
| Sorter.Sorter.HandleFiles | src/renderer.js:69-75 | the dropped files replace the list, the rules are kept, and the control is disabled exactly when there are no files or no rules |
| Sorter.Sorter.AddRule | src/renderer.js:86-106 | the rule list becomes `WithRule` of the trimmed inputs, the files are kept, and the control stays current |
| Sorter.Sorter.DeleteRule | src/renderer.js:121-129 | the rule list becomes `Without` the index, the files are kept, and the control is recomputed |
| Sorter.Sorter.Execute | src/renderer.js:138-185 | it refuses without files or without rules; otherwise each file's outcome is its route (or abandonment when the read threw), in file order, and the two counters count the sorted and the unsorted outcomes; no field changes |
| Sorter.FragmentMatches | src/renderer.js:156-161 | with a serialiser that writes every member, a rule whose keyword occurs (ignoring case) in a metadata key or value matches the file |
| Sorter.EmptyKeywordMatches | src/renderer.js:161 | a rule with an empty keyword matches every file |
| Sorter.MatchIgnoresCase | src/renderer.js:156-161 | matching is case-insensitive: keywords that lower-case alike match the same files, and metadata whose serialisations lower-case alike are matched by the same rules; lower-casing the blob again changes nothing |
| Sorter.ListsMembers | src/renderer.js:156 | defines the one assumption about `JSON.stringify`: every member whose key and value need no escape appears as `"key":"value"` |

## Left out

- The Electron shell (window, app lifecycle, IPC plumbing, `src/preload.js`) and the folder
  dialog are left out: they hold no logic.
- Filesystem access is left out. The file read becomes the `MetadataReader` parameter, which returns
  None when the call throws; the main process already answers `{}` when `readFileSync` fails.
  The directory creation and copy in the sort-file handler become the `Copier` parameter.
- Sorter.Copier: it is a function of (path, folder), so two attempts with the same pair give the
  same answer, whereas the filesystem need not. `MetadataReader` and `Copier` are also independent
  of each other, whereas in the program they share the filesystem. A copy (`src/main.js:77`) can
  overwrite a file later in the batch, when both files have the same name and the rule's folder is
  the later file's directory. That file's read (`src/renderer.js:155`) then sees the new bytes.
  `Sorter.Sorter.Execute` gives each file `OutcomeOf` its own read only because the two are
  independent.
- `zlib.inflateSync` is a parameter of the `WithZtxt` dialect: None stands for the throw that the
  code catches. UTF-8 decoding is a parameter too (`Utf8Decoder`), so replacement characters are
  not modelled.
- `JSON.stringify` is the `Serializer` parameter. The only thing assumed about it is
  `ListsMembers`: each member whose key and value need no escaping is written as
  `"key":"value"`. Escaping and member order are not modelled.
- Text.Lower: lower-cases A–Z only. Unicode case mapping (for example a capital letter that
  lower-cases to two chars) is not modelled.
- The DOM is left out: event wiring, the rule-list rendering, alerts, the log textarea and
  timestamps. The error messages of failed copies are logged only, so the model does not keep them.
- `localStorage` is left out. The saved rules are the constructor's argument, and saving after a
  change is not modelled.
- The theme toggle is left out.
- Sorter.Sorter.constructor: the execute control starts disabled. Its initial state comes from
  `index.html`, which is not part of this model.
- Sorter.Sorter.DeleteRule: takes the index as it is when the button is pressed. The page
  re-renders the list after every change, so the index a delete button captured is always
  current.
- `async`/`await`: each awaited call is one sequential step. Handlers that run while the execute
  handler awaits (`src/renderer.js:155`, `162`) are not modelled: a rule added or deleted
  mid-batch, or a second execute click. The rule loop at line 160 reads the live array that `push`
  and `splice` change in place; the model takes the rules as fixed for a whole run.
- PngText.Walk: the walkers' outer try/catch (`src/main.js:37`, `58-60`; `test-metadata.js:10`,
  `64-66`) has no counterpart, because `Utf8Decoder` is total. `data.toString('utf-8', …)` throws
  once its result would exceed the engine's maximum string length. The walk then returns the map
  built so far; the model instead goes on as if the decode had succeeded.
- Console output in both walkers is left out, and so is the test script body of
  `test-metadata.js` (lines 72-88).
- The walker's offsets are JavaScript numbers. They stay below 2^53 for any buffer, so they are
  modelled as unbounded integers.
