# Medley Sound object tools, modelled in Dafny

Medley Sound keeps its songs in an MSOB object: a header holds four relative
vectors, to the score, track, instrument and wave tables. Four reserved
vectors follow, expected to be zero, then two flag bytes: "names included"
and "partial tables". Each table is a list of vectors to the category's
records. A full table has 255 slots. A partial table carries its slot count
in the byte in front of it.

This project models three tools that work on these files:

- **The MSOB-to-PVMS converter** (`PvmsEncoder`).
  - It finds the "MSOB" magic and drops what precedes it.
  - It re-serialises every record the four tables reach into a PVMS project file: "PVMS", a `WAV2`, `INS:`, `TRK:` and `SCO:` chunk, then "END.".
  - The helpers for flags, vectors, tables and the magic search are shared with the decoder and live in `Msob`.
- **The MSOB decoder** (`MsobDecoder`).
  - From the same magic search it builds a report: the header fields (the magic's position, the four table pointers and the two flags), a warning for each non-zero reserved vector and, when names are included, a listing of each category's defined entries.
  - The decoder reads the four tables to make the listings. The report does not hold the tables, and the decoder never prints them.
  - The model holds the report as values. It does not model the printed text.
- **Agreement of the two** (`ToolAgreement`): the converter and the decoder resolve the same table for every category.
- **The raw-sample wrapper** (`SampleHeader`).
  - It cuts or pads 8-bit sample data.
  - It frames the data as an AmigaDOS hunk: HUNK_UNIT, an empty name, HUNK_CODE, a longword count, the data.

Python behaviour is modelled explicitly:
- a negative index counts from the end (`Msob.ByteAt`);
- a slice past the end is cut short (`MsobDecoder.Slice`);
- extending a name variable that was never assigned is an error (`Outcomes.Fault.UnboundName`).

Each loop the tools run is a Dafny method with invariants, proved equal to a specification function. The properties are proved about those functions.

Quirks of the code that the model keeps:
- Slot `i` of a table is the vector at `table + 4*i`, so the first four bytes of a table are never read.
- The converter writes score, track and instrument records only when the table has more than one slot, and wave records when it has at least one.
- When names are not included, the converter makes up a name only for scores and tracks. For instruments and waves it extends a name variable that was never assigned, so the first defined instrument or wave record aborts the conversion (`PvmsEncoder.ChunkFails`). A names-stripped project with a wave named "Wave  1" cannot be produced.
- A synthesised name writes the index as Python's `f'{i:2x}'`: lower-case hex, padded on the left with a space (" 1").
- When the magic is not at the start of the file, both tools keep `buf[base:-1]`, which also drops the last byte of the file (`Msob.Rebase`).
- A wave name with no zero byte among its first 15 bytes is listed by 15 bytes, not 16 (`MsobDecoder.FullWaveNameTruncated`).
- A partial table whose pointer is null takes its count from the last byte of the file and reads the header vectors as its slots (`Msob.NullPartialTable`).

## Model

| member | source | states |
|---|---|---|
| Bytes.BE32 | tools/mso2pvms.py:14 | the vector read as an unsigned big-endian longword, below 2^32 |
| Bytes.BE16 | tools/mso2pvms.py:155 | the wave length read as an unsigned big-endian word, below 2^16 |
| Bytes.ToBE16Inverse | tools/mso2pvms.py:62 | writing an index as four hex digits and reading it back gives the index |
| Bytes.Hex2Padded | tools/mso2pvms.py:87 | the two-character hex field starts with a space exactly when the index is below 16 |
| Bytes.Hex2Injective | tools/mso2pvms.py:87 | distinct indices give distinct hex fields |
| Msob.GetPointer | tools/mso2pvms.py:12-17 | 0 exactly when the stored vector is 0; otherwise the vector's position plus the stored value |
| Msob.VectorResolves | tools/mso2pvms.py:12-17 | storing the distance to a later target makes the vector resolve to that target |
| Msob.ByteAtWraps | tools/mso2pvms.py:47 | Python indexing: index `k - len` reads the same byte as `k`, and index -1 reads the last byte |
| Msob.MagicIndexSpec | tools/mso2pvms.py:32-39 | the search result is -1 exactly when there is no match; otherwise it is the least position holding "MSOB" |
| Msob.HuntMagic | tools/msodecode.py:32-39 | the scan over the first `n` positions returns the least match, or -1 exactly when none exists; a match never runs past the end |
| Msob.Rebase | tools/mso2pvms.py:193-194 | a magic at a positive offset keeps `buf[base:-1]`: the bytes from the magic on, without the last byte |
| Msob.NullPartialTable | tools/msodecode.py:21-28 | a null partial table takes its count from the last byte of the buffer, and its slots are the vectors at 4, 8, ... |
| Msob.SlotsUpToCells | tools/msodecode.py:27-28 | cell `i-1` of the slot list is the vector at `table + 4*i` |
| Msob.TableShape | tools/msodecode.py:20-29 | a decoded table is the count followed by exactly `count` resolved slots; a full table has 256 cells |
| Msob.GetTable | tools/msodecode.py:20-29 | the reader's loop builds exactly the decoded table, and returns `[0]` for an empty partial table |
| Msob.NonNullBounds | tools/msodecode.py:79-84 | every index a table walk visits is a non-null cell in range |
| Msob.NonNullAscending | tools/msodecode.py:79-84 | a table walk visits its indices in strictly ascending order |
| Msob.NonNullComplete | tools/msodecode.py:79-84 | a table walk visits every non-null cell |
| PvmsEncoder.VectorOffset | tools/mso2pvms.py:44 | each category's table vector is one of the header offsets 4, 8, 12, 16 |
| PvmsEncoder.VectorOffsetDistinct | tools/mso2pvms.py:44 | no two categories share a header offset |
| ToolAgreement.TablesAgree | tools/msodecode.py:55-58 | for every category the converter resolves the same table pointer as the decoder reports, under the same partial flag, and so decodes the same table |
| PvmsEncoder.ChunkPrefixDeclares | tools/mso2pvms.py:42 | each chunk's six-byte start declares that category's header size (0x7a, 0x32, 0x20, 0x1c) |
| PvmsEncoder.SynthName | tools/mso2pvms.py:87 | a synthesised score or track name is 16 bytes long |
| PvmsEncoder.SynthNameInjective | tools/mso2pvms.py:116 | synthesised names of distinct indices differ |
| PvmsEncoder.TrackLen | tools/mso2pvms.py:120-123 | the track stream length is at least 2 and lies inside the buffer |
| PvmsEncoder.TrackLenSpec | tools/mso2pvms.py:120-123 | the length is even, ends with the word 0x8000, and no earlier word is 0x8000 |
| PvmsEncoder.ScanTrackLen | tools/mso2pvms.py:120-123 | the word-by-word scan computes exactly that length |
| PvmsEncoder.BodyMatchesHeaderSize | tools/mso2pvms.py:42-164 | each record body is its chunk's declared header size (lines 42, 71, 100, 134) less the 16 name bytes, plus the track or wave payload: 106 bytes for instruments (line 64), 34 for scores (line 93), 16 plus the stream for tracks (lines 126-127) and 12 plus the cycle data for waves (lines 158-164) |
| PvmsEncoder.TrackBodyParts | tools/mso2pvms.py:126-127 | a track body is 4 zero bytes, the stream length, 8 zero bytes and FF FF, then the stream |
| PvmsEncoder.TrackBodyDelimited | tools/mso2pvms.py:120-127 | in the output, a track's length field equals its stream length; the stream ends with 0x8000 and holds no earlier end word |
| PvmsEncoder.WaveBodyDelimited | tools/mso2pvms.py:154-164 | a wave body is a zero pointer and the copied cycle size and dummy byte, then the flag, fragment factor and octave in reverse order, a pad, and exactly cycle-size bytes of data |
| PvmsEncoder.EmitBody | tools/mso2pvms.py:64-164 | the body writer produces the specified body for each category: the instrument copy (line 64), the score copy (line 93), the scanned track (lines 120-127) and the reordered wave (lines 154-164) |
| PvmsEncoder.Name | tools/mso2pvms.py:57-61 | a record name is always 16 bytes, copied or synthesised |
| PvmsEncoder.EntryLayout | tools/mso2pvms.py:62-64 | a record is its index as a big-endian word, its 16-byte name, then its body |
| PvmsEncoder.EmitEntry | tools/mso2pvms.py:57-64 | the loop body writes exactly that record |
| PvmsEncoder.Visits | tools/mso2pvms.py:51-58 | a table walk can fail only by extending an unassigned name |
| PvmsEncoder.Chunk | tools/mso2pvms.py:41-68 | a chunk can fail only by extending an unassigned name |
| PvmsEncoder.WalkTable | tools/mso2pvms.py:51-64 | the slot loop appends the records of the visited cells in order, or fails at the first defined cell whose name cannot be synthesised |
| PvmsEncoder.CreateChunk | tools/mso2pvms.py:41-68 | each chunk writer produces exactly the specified chunk (one method for the four `create*Data` functions) |
| PvmsEncoder.VisitsNonNull | tools/mso2pvms.py:51-56 | with nameable records, the walk visits exactly the non-null cells in ascending order |
| PvmsEncoder.ChunkRecords | tools/mso2pvms.py:50-67 | a chunk is its prefix, then the records of every non-null slot in index order, then FF FF; a table at or below the threshold gives prefix + FF FF |
| PvmsEncoder.VisitsFail | tools/mso2pvms.py:149-150 | without names, an instrument or wave walk fails exactly when it meets a defined cell |
| PvmsEncoder.ChunkFails | tools/mso2pvms.py:142-150 | without names, an instrument or wave chunk fails exactly when its table is over the threshold and holds a defined slot; otherwise it is empty |
| PvmsEncoder.ChunkFrame | tools/mso2pvms.py:42-67 | every chunk starts with its prefix and ends with FF FF |
| PvmsEncoder.Pvms | tools/mso2pvms.py:171-178 | the project can fail only by extending an unassigned name |
| PvmsEncoder.PvmsOutcome | tools/mso2pvms.py:171-178 | the project succeeds exactly when all four chunks do; otherwise it is the failure of the first chunk, in the order wave, instrument, track, score, that fails |
| PvmsEncoder.PvmsLayout | tools/mso2pvms.py:171-178 | a successful project is "PVMS" + wave + instrument + track + score + "END.", and each chunk can be cut back out |
| PvmsEncoder.CreatePVMS | tools/mso2pvms.py:171-178 | the writer produces exactly the specified project |
| PvmsEncoder.Convert | tools/mso2pvms.py:189-196 | fails with a missing magic exactly when no position holds "MSOB"; any other failure is an unassigned name; otherwise converts the rebased object |
| MsobDecoder.Slice | tools/msodecode.py:83 | a Python slice has the full length when it fits, and is otherwise cut at the end of the buffer |
| MsobDecoder.SliceBytes | tools/msodecode.py:83 | each byte of a slice is the buffer byte at the same offset from its start |
| MsobDecoder.ReservedMembers | tools/msodecode.py:63-66 | a warning is issued exactly for each reserved vector that is not zero, with its offset and value |
| MsobDecoder.ReservedAscending | tools/msodecode.py:63-66 | the warnings come in ascending offset order |
| MsobDecoder.CheckReserved | tools/msodecode.py:63-66 | the loop over offsets 20, 24, 28, 32 collects exactly those warnings |
| MsobDecoder.NameListSpec | tools/msodecode.py:79-84 | a name listing has one entry per non-null cell, in order, each with its index and the 16-byte slice at its pointer |
| MsobDecoder.ListNames | tools/msodecode.py:79-100 | the score, track and instrument listing loops produce exactly that listing |
| MsobDecoder.WaveNameLen | tools/msodecode.py:107-110 | the wave-name scan stops at a position from 0 to 15 inside the buffer |
| MsobDecoder.WaveNameLenSpec | tools/msodecode.py:107-110 | the name is nonzero bytes up to the first zero among positions 0..14; without one it is cut at 15 |
| MsobDecoder.FullWaveNameTruncated | tools/msodecode.py:107-110 | a name of sixteen nonzero bytes is listed by its first fifteen |
| MsobDecoder.ScanWaveName | tools/msodecode.py:107-110 | the scan loop computes exactly that stopping position |
| MsobDecoder.WaveListSpec | tools/msodecode.py:104-112 | the wave listing has one entry per non-null cell, in order, each described from its record |
| MsobDecoder.DescribeWave | tools/msodecode.py:106-111 | a wave entry holds the scanned name and the slices at +16..18, +20, +21 and +22 |
| MsobDecoder.ListWaves | tools/msodecode.py:104-112 | the wave listing loop produces exactly the wave listing |
| MsobDecoder.ObjectReport | tools/msodecode.py:55-77 | the report carries the magic's position and both flags, read by `getBoolean` (lines 6-9) from bytes 36 and 37: a flag is set exactly when its byte is nonzero; without names all four listings are empty |
| MsobDecoder.DecodeObject | tools/msodecode.py:55-112 | the decoder's steps after the magic produce exactly the specified report |
| MsobDecoder.DecodeMsob | tools/msodecode.py:42-53 | fails exactly when none of the first `n` positions holds the magic, and the failure is the missing magic; otherwise reports on the object rebased to the first match |
| SampleHeader.HunkStartFields | tools/add_sample_header.py:9 | the 12-byte prefix is the longwords HUNK_UNIT (0x3E7), 0 and HUNK_CODE (0x3E9) |
| SampleHeader.SignedBE32 | tools/add_sample_header.py:36 | a longword read as two's complement, non-negative exactly when the top bit is clear |
| SampleHeader.PackSigned32Inverse | tools/add_sample_header.py:36 | reading back a signed big-endian longword gives the packed number |
| SampleHeader.PaddedData | tools/add_sample_header.py:20-30 | over 32768 bytes, the data is cut to the first 32768; otherwise it grows by `len % 4` bytes, keeps the input as a prefix and is followed by zeros only |
| SampleHeader.Hunk | tools/add_sample_header.py:32-37 | the output is 16 bytes longer than the data, starts with the hunk prefix, holds `len // 4` as a signed count, then the data |
| SampleHeader.WrapSample | tools/add_sample_header.py:20-37 | the wrapper as written produces the hunk of the padded data |
| SampleHeader.WrapSampleKeepsData | tools/add_sample_header.py:22-37 | the output keeps the input (or its first 32768 bytes) right after the count, followed only by zeros |
| SampleHeader.PaddedCountMatchesIff | tools/add_sample_header.py:26-32 | as written, the count matches the data length exactly when the input length modulo 4 is 0 or 2 |
| SampleHeader.PaddedOverflowsMax | tools/add_sample_header.py:26-32 | as written, a 32767-byte sample is padded to 32770 bytes under a count of 8192 |
| SampleHeader.AlignedData | tools/add_sample_header.py:26-30 | with the intended padding, the data keeps the input as a prefix and grows by fewer than 4 zero bytes |
| SampleHeader.AlignedHunkCounts | tools/add_sample_header.py:26-32 | with the intended padding, the data is whole longwords, at most 32768 bytes, and the count describes it exactly |
| SampleHeader.WrapSampleAligned | tools/add_sample_header.py:20-37 | the corrected wrapper produces the hunk of the aligned data |

## Left out

- tools/pvms2mso.py is not part of this model. It checks the "PVMS" magic and does nothing further.
- File reading and writing, `argparse`, `sys.argv` and `sys.exit` are not modelled. A missing magic becomes the result `Err(MagicNotFound)`.
- The printed diagnostics are not modelled, including the undefined-slot notices and the truncation warning. They do not change any output.
- Text decoding of names for display is not modelled (latin-1 in the converter and the wave listing, UTF-8 in the other listings). The decoder's report keeps the raw bytes. So the model does not capture the abort on a name that is not valid UTF-8.
- Msob.GetPointer: requires all four bytes of the vector inside the buffer. Python would read a shorter slice as a smaller number, or fail on an empty one.
- Msob.GetTable: requires every slot of the table inside the buffer (`TableReadable`), for the same reason.
- PvmsEncoder.CreateChunk: requires every read of a record to lie inside the buffer (`ChunkReadable`), where Python would copy a truncated slice.
- PvmsEncoder.CreateChunk: requires a track stream to end in 0x8000 inside the buffer, where Python would loop forever.
- PvmsEncoder.CreateChunk: requires a track stream to be shorter than 0x10000 bytes. For longer streams Python's hex conversion would fail (an odd number of digits) or write a wider length field (six digits).
- PvmsEncoder.CreateChunk: when names cannot be synthesised (instruments and waves without names), requires all `count` slots of the table inside the buffer. The source aborts at the first defined slot and reads no slot after it, so the model says nothing about a file whose table runs past the end beyond that slot.
- PvmsEncoder.CreatePVMS: requires each chunk to be readable only when every earlier chunk succeeds (`PvmsReadable`), since the writer stops at the first chunk that fails. Within a chunk the CreateChunk preconditions above apply.
- PvmsEncoder.Convert: requires the rebased object to be readable (`ConvertReadable`), for the same reasons as CreatePVMS.
- MsobDecoder.DecodeMsob: requires the object to be at least 38 bytes, its tables readable and every wave name's scan inside the buffer (`DecodeReadable`). Python would fail, or read a short vector, on such input.
- The musical meaning of instrument, score, track and wave payloads is not modelled. They are copied as opaque byte ranges.

## Findings

| source | as written | input that shows it | evidently intended | confidence | as-written member | corrected member |
|---|---|---|---|---|---|---|
| tools/add_sample_header.py:27-29 | pads with `len % 4` zero bytes | a 5-byte sample gives 6 data bytes under a count of 1; a 32767-byte sample gives 32770 bytes, over the 32 KiB maximum | pad with `4 - len % 4` zero bytes so the data is whole longwords | high; not executed | SampleHeader.PaddedCountMatchesIff | SampleHeader.AlignedHunkCounts |
