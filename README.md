# SMAF chunk payload decoders in Dafny

This project models the payload decoders of three chunk kinds of a SMAF
(mobile ringtone) file reader, and the display form of the score-track
sequence type enum. Properties are proved on the model.

Each chunk owns a header with a 32-bit signature and a declared payload size.
Its `Read` method pulls the payload from a byte reader.

- **Data chunk** (`DataChunks`). A strict read of exactly `Size` bytes.
  When the code type is 0, the payload is a stream of tag-length-value
  records. The code type is the low byte of the signature. Each record is a
  two-byte tag, a two-byte big-endian length, then that many value bytes. The
  records build a tag→text map, and fifteen named option fields are read out
  of that map.
- **MMMG EXVO chunk** (`ExvoChunks`). A read that never looks at how many
  bytes arrived. If the payload starts with `FF F0`, the bytes after the
  marker go to an exclusive-message sub-decoder. The sub-decoder gets a byte
  budget of `len - 2`, and the budget must end at exactly 0.
- **Seek-and-phrase-info chunk** (`SeekPhraseInfoChunks`). A strict read and
  nothing else.
- **Score track sequence type** (`ScoreTrackSequenceTypes`). Renders any
  value as `<label>(0x<hex>)`, using Go's `%02X`. `MarshalJSON` is that string
  as a JSON string literal. `Formatting` models `%02X` and `json.Marshal` of a
  string.

Shared parts:

- `Base` holds the byte type, the error value, `Result`/`Outcome` and the
  chunk header.
- `Reading` holds the reader. It is a class with the bytes still available
  (`Pending`) and a flag (`Broken`) that makes the next read fail. One read
  into a buffer of length `k` either fails and delivers nothing, or copies
  `min(k, available)` bytes into the front of the buffer. The rest of the
  buffer keeps its zeros from `make`.

Each chunk is a class. Its fields are the ones the source assigns, and its
`Read` method states the chunk's whole new state. The properties are stated
on pure functions that those methods are proved against, and in lemmas about
those functions:

- `StrictRead` specifies the strict read.
- `OptionRecords.Parse`, `OptionMap`, `Project` and `DecodeOptions` specify
  the record scan.
- `ExvoRead` specifies the EXVO chunk's read.

Two external functions become parameters, so every property holds for all of
their behaviours:

- the Shift-JIS text decoder (`decode: seq<byte> -> string`);
- the exclusive sub-decoder (`ExclusiveDecoder`, which maps the bytes and a
  budget to the new budget and a success flag).

Behaviour of the Go code that the model keeps as written:

- The EXVO read ignores the byte count, so a short read goes unnoticed
  (lemma `ShortReadGoesUnnoticed`).
- All three `Read` methods assign `Stream` before they fail, and the model
  keeps it so.
- A record whose length runs past the payload, and an EXVO payload shorter
  than the marker, is a Go index/slice panic. The model reports both as the
  single error `IndexOutOfRange`; see "Left out" for what this changes.

The code indexes `Stream[0]` and `Stream[1]` with Go's short-circuit `&&`.
So an empty payload, or a lone `FF`, is out of range, but a lone byte other
than `FF` is simply "no marker" (lemma `SmallPayloads`).

## Model

| member | source | states |
|---|---|---|
| `Reading.Reader.Read` | smaf/chunk/data.go:55-56 | a read fails and delivers nothing, or copies min(len(p), available) bytes into the front of `p`; the reader moves past what it delivered |
| `Reading.StrictRead` | smaf/chunk/data.go:55-62 | a strict read succeeds exactly when the reader works and at least `Size` bytes are available; on success the payload is the first `Size` bytes; a reader error gives ReadFailed and a short read gives ShortRead |
| `DataChunks.CodeTypeOf` | smaf/chunk/data.go:40-42 | `Signature & 255` is `Signature mod 256`, so it lies in 0..255 |
| `DataChunks.DataChunk.CodeType` | smaf/chunk/data.go:40-42 | the chunk's code type is its signature mod 256, in 0..255 |
| `Base.Zeros` | smaf/chunk/data.go:55 | the buffer `make` allocates has length `n` and every byte 0 |
| `DataChunks.DataChunk.constructor` | smaf/chunk/data.go:13-34 | a new chunk has an empty stream, `HasOptions` false and every option field empty |
| `DataChunks.DataChunk.Traverse` | smaf/chunk/data.go:36-38 | the chunks `fn` is called with: exactly this chunk, once; the model takes no visitor and returns that list |
| `DataChunks.DataChunk.Read` | smaf/chunk/data.go:54-93 | `Stream` is the buffer of `Size` bytes the reader filled; a read error or a short read fails and leaves the options alone; on success `Stream` is the first `Size` bytes; the options are touched only when the code type is 0, where a well-formed record stream sets `HasOptions` and `Options == DecodeOptions(Stream)`, and any other stream fails |
| `DataChunks.VendorOnly` | smaf/chunk/data.go:66-90 | the payload `VN`, length 3, `abc` gives Vendor = decode(`abc`) and every other field "" |
| `OptionRecords.BigEndian16` | smaf/chunk/data.go:69 | the length field is below 65536; its high byte is `n / 256` and its low byte is `n % 256` |
| `OptionRecords.Parse` | smaf/chunk/data.go:66-72 | a record that does not fit in the rest of the payload fails with IndexOutOfRange, the model's stand-in for the source's slice panic |
| `OptionRecords.Key` | smaf/chunk/data.go:67 | the map key of a record has two characters, the first with the code of the first tag byte and the second with the code of the second |
| `OptionRecords.ParseThenEncode` | smaf/chunk/data.go:66-74 | the parsed records tile the payload exactly: each has a length below 65536, and re-encoding tag, big-endian length and raw value gives back the payload |
| `OptionRecords.EncodeThenParse` | smaf/chunk/data.go:66-72 | any list of records with lengths below 65536 parses back from its encoding |
| `OptionRecords.OptionMap` | smaf/chunk/data.go:64-73 | every record's tag is a key; every key is the tag of some record; the last record's tag maps to its decoded value |
| `OptionRecords.OptionMapLastWins` | smaf/chunk/data.go:73 | the map's keys are exactly the tags that occur; a repeated tag keeps the decoded value of its last record |
| `OptionRecords.Lookup` | smaf/chunk/data.go:76-90 | `options[tag]` is the stored value when the tag is present and "" when it is absent |
| `OptionRecords.Project` | smaf/chunk/data.go:76-90 | field k of the options is the map's value for the k-th fixed tag (VN, CN, CA, ST, AN, WW, SW, AW, CR, GR, MI, CD, UD, ES, VC), or "" when absent |
| `OptionRecords.UnknownTagIgnored` | smaf/chunk/data.go:76-90 | a tag outside the fifteen changes no field |
| `OptionRecords.DecodeOptions` | smaf/chunk/data.go:63-90 | the options decode exactly when the payload parses; otherwise the error is IndexOutOfRange; on success field k is the map's value for the k-th tag, or "" |
| `OptionRecords.DecodedField` | smaf/chunk/data.go:64-90 | for a well-formed payload, each field is the decoded value of the last record with its tag, or "" when no record has it |
| `OptionRecords.ScanOptions` | smaf/chunk/data.go:64-74 | the cursor loop returns a map exactly when the payload parses; the map is the last-write-wins map of the parsed records; otherwise it fails with IndexOutOfRange |
| `ExvoChunks.TestMarker` | smaf/chunk/mmmg_exvo.go:43-45 | the marker is present iff the payload has at least two bytes, `FF` then `F0`; the test is out of range iff the payload is empty or a lone `FF` |
| `ExvoChunks.ExclusiveOutcome` | smaf/chunk/mmmg_exvo.go:46-55 | the sub-decoder runs on `Stream[2:]` with budget `len - 2`; success iff it succeeds and leaves budget 0; its error gives ExclusiveFailed, a nonzero budget gives ExclusiveSizeMismatch |
| `ExvoChunks.ExvoRead` | smaf/chunk/mmmg_exvo.go:37-56 | the stream always has `Size` bytes, the delivered ones padded with zeros; a reader error fails; with no marker the read succeeds and `Exclusive` is unchanged; with the marker, `Exclusive` is set before the sub-decode and the verdict is `ExclusiveOutcome` |
| `ExvoChunks.MarkedSuccessSpendsBudget` | smaf/chunk/mmmg_exvo.go:46-55 | on the marker path `Exclusive` is set, and the read succeeds iff the sub-decoder succeeds and spends its whole budget |
| `ExvoChunks.ShortReadGoesUnnoticed` | smaf/chunk/mmmg_exvo.go:38-42 | a reader that delivers nothing still gives a successful read of an all-zero payload |
| `ExvoChunks.SmallPayloads` | smaf/chunk/mmmg_exvo.go:43 | a size-0 payload and a lone `FF` are out of range; a lone `00` is accepted |
| `ExvoChunks.MMMGEXVOChunk.constructor` | smaf/chunk/mmmg_exvo.go:16-20 | a new chunk has an empty stream and no exclusive message |
| `ExvoChunks.MMMGEXVOChunk.Traverse` | smaf/chunk/mmmg_exvo.go:22-24 | the chunks `fn` is called with: exactly this chunk, once; the model takes no visitor and returns that list |
| `ExvoChunks.MMMGEXVOChunk.Read` | smaf/chunk/mmmg_exvo.go:37-56 | the new stream, exclusive field and verdict are those of `ExvoRead` on the reader's old state; the reader moves past what it delivered |
| `SeekPhraseInfoChunks.SeekPhraseInfoChunk.constructor` | smaf/chunk/seekphraseinfo.go:12-15 | a new chunk has an empty stream |
| `SeekPhraseInfoChunks.SeekPhraseInfoChunk.Traverse` | smaf/chunk/seekphraseinfo.go:17-19 | the chunks `fn` is called with: exactly this chunk, once; the model takes no visitor and returns that list |
| `SeekPhraseInfoChunks.SeekPhraseInfoChunk.Read` | smaf/chunk/seekphraseinfo.go:29-39 | `Stream` always has `Size` bytes; a reader error fails with ReadFailed; fewer than `Size` bytes fails with ShortRead; on success `Stream` is exactly the first `Size` available bytes |
| `Formatting.HexDigitsRoundTrip` | smaf/enums/scoretracksequencetype.go:25 | the hexadecimal numeral of n reads back as n and has no leading zero |
| `Formatting.FormatX02` | smaf/enums/scoretracksequencetype.go:25 | `%02X` gives at least two characters, and the first is a minus sign exactly when the value is negative |
| `Formatting.FormatX02Meaning` | smaf/enums/scoretracksequencetype.go:25 | `%02X` of a value ≥ 0 gives at least two uppercase hex digits that read back as the value, with no zero before the last two; of a negative value, a minus sign and the digits of its magnitude |
| `Formatting.JsonEscape` | smaf/enums/scoretracksequencetype.go:29 | a character is copied unchanged exactly when JSON needs no escape for it; any other becomes a backslash escape of at least two characters |
| `Formatting.JsonQuote` | smaf/enums/scoretracksequencetype.go:29 | `json.Marshal` of a string starts and ends with a double quote and is at least two characters longer than the string |
| `Formatting.JsonQuotePlain` | smaf/enums/scoretracksequencetype.go:28-30 | a string with no character that JSON escapes marshals to itself between double quotes |
| `ScoreTrackSequenceTypes.Label` | smaf/enums/scoretracksequencetype.go:10-24 | the label is StreamSequence exactly for 0, Subsequence exactly for 1, and undefined for every other value |
| `ScoreTrackSequenceTypes.String` | smaf/enums/scoretracksequencetype.go:17-26 | every value renders, as its label, then `(0x`, then hex, then `)` |
| `ScoreTrackSequenceTypes.HexPartReadsBack` | smaf/enums/scoretracksequencetype.go:25 | for a value ≥ 0 the part between `0x` and `)` has at least two uppercase hex digits, reads back as the value, and has no zero before the last two |
| `ScoreTrackSequenceTypes.KnownStrings` | smaf/enums/scoretracksequencetype.go:12-25 | String(0) is `StreamSequence(0x00)`, String(1) is `Subsequence(0x01)`, String(0x7F) is `undefined(0x7F)` |
| `ScoreTrackSequenceTypes.StringIsJsonPlain` | smaf/enums/scoretracksequencetype.go:28-30 | no character of a display form needs JSON escaping |
| `ScoreTrackSequenceTypes.MarshalJSON` | smaf/enums/scoretracksequencetype.go:28-30 | the JSON form is the display form between double quotes |

## Left out

- `DataChunks.DataChunk.Read`: states a stronger behaviour than the source for a record that runs past the payload. The Go code panics there (an index/slice out of range at smaf/chunk/data.go:67-71). The model returns the error `IndexOutOfRange`, and the chunk keeps its `Stream` and its old options.
- `OptionRecords.ScanOptions`: likewise returns `IndexOutOfRange` where the Go loop panics.
- `ExvoChunks.MMMGEXVOChunk.Read`: likewise returns `IndexOutOfRange` where Go panics on `Stream[0]`/`Stream[1]` (an empty payload, or a lone `FF`). No check is added that the source does not make: short reads and small sizes behave as in the code.
- The visitor passed to `Traverse`. Each `Traverse` returns the list of chunks the visitor would be called with; what the visitor does is not modelled.
- The `String()` methods of the three chunks. They only compose output of formatting helpers that are not part of this model.
- The Shift-JIS decoder. It is the parameter `decode`, with no properties assumed.
- The exclusive sub-decoder's internals and the message tree it builds. It is the parameter `sub`; the model keeps only the budget it returns and its success flag. `NewExclusive(false)` is kept as the value `NewExclusive(false)`.
- Real `io.Reader` behaviour: partial reads below what is available, data delivered together with an error, and `io.EOF` on an exhausted reader. A failing read here delivers nothing.
- Chunk header reading and dispatch by signature. The header type is not part of this model; it is a record with a `bv32` signature and a `nat` size.
- Error wrapping with stack traces and the exact error messages. Every failure is one `Error` value.
- JSON escape spelling for characters the display form never contains. Control characters other than `\n`, `\r` and `\t` are written `\u00xx`, which is Go's spelling before 1.22, where `\b` and `\f` became two-character escapes. The general `encoding/json` library is not modelled. `MarshalJSON` returns the text, since its error is always nil.
- The enum's Go `int` is modelled as the 64-bit subrange of Dafny's `int`. The EXVO budget `rest` and the `CodeType` result are unbounded integers, because no value there comes near 64 bits.
