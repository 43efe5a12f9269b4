/** The MSOB-to-PVMS converter: every record the object form's four category
    tables reach is re-serialised into one tagged chunk per category. */
module PvmsEncoder {
  import opened Bytes
  import opened Outcomes
  import opened Msob

  datatype Category = Score | Track | Instrument | Wave

  /** Header offset of the vector to the category's table. */
  function VectorOffset(c: Category): (off: int)
    ensures off in {4, 8, 12, 16}
  {
    match c
    case Score => 4
    case Track => 8
    case Instrument => 12
    case Wave => 16
  }

  /** Each category has a vector of its own: no two share a header offset. */
  lemma VectorOffsetDistinct(c: Category, d: Category)
    ensures VectorOffset(c) == VectorOffset(d) <==> c == d
  {
  }

  /** The declared per-record header size of the category's chunk. */
  function HeaderSize(c: Category): int {
    match c
    case Score => 0x32
    case Track => 0x20
    case Instrument => 0x7a
    case Wave => 0x1c
  }

  /** The chunk's fixed six-byte start: its tag and the header size. */
  function ChunkPrefix(c: Category): (r: seq<byte>)
    ensures |r| == 6
  {
    match c
    case Score => [0x53, 0x43, 0x4f, 0x3a, 0x00, 0x32]       // "SCO:" 0x0032
    case Track => [0x54, 0x52, 0x4b, 0x3a, 0x00, 0x20]       // "TRK:" 0x0020
    case Instrument => [0x49, 0x4e, 0x53, 0x3a, 0x00, 0x7a]  // "INS:" 0x007a
    case Wave => [0x57, 0x41, 0x56, 0x32, 0x00, 0x1c]        // "WAV2" 0x001c
  }

  /** The header size a chunk declares is the category's. */
  lemma ChunkPrefixDeclares(c: Category)
    ensures BE16(ChunkPrefix(c), 4) == HeaderSize(c)
  {
  }

  /** The project file's magic "PVMS" and its terminator "END.". */
  const PvmsMagic: seq<byte> := [0x50, 0x56, 0x4d, 0x53]
  const PvmsEnd: seq<byte> := [0x45, 0x4e, 0x44, 0x2e]

  /** The name prefixes "Score " and "Track ". */
  const ScorePrefix: seq<byte> := [0x53, 0x63, 0x6f, 0x72, 0x65, 0x20]
  const TrackPrefix: seq<byte> := [0x54, 0x72, 0x61, 0x63, 0x6b, 0x20]

  /** The chunk's end marker. */
  const EndOfChunk: seq<byte> := [0xFF, 0xFF]

  /** Records are written only when the slot count exceeds this: one for
      scores, tracks and instruments, zero for waves. */
  function Threshold(c: Category): int {
    if c == Wave then 0 else 1
  }

  /** Synthesising a name fails for instruments and waves: the source extends
      a name variable that was never assigned. */
  predicate NameFails(c: Category, names: bool) {
    !names && (c == Instrument || c == Wave)
  }

  /** The synthesised name `"<Category> <index in hex>"`, zero-filled to 16
      bytes, for the two categories where synthesis succeeds. */
  function SynthName(c: Category, i: int): (r: seq<byte>)
    requires 1 <= i <= 255 && (c == Score || c == Track)
    ensures |r| == 16
  {
    (if c == Score then ScorePrefix else TrackPrefix) + Hex2(i) + Zeros(8)
  }

  /** Synthesised names tell the indices apart. */
  lemma SynthNameInjective(c: Category, i: int, j: int)
    requires 1 <= i <= 255 && 1 <= j <= 255 && (c == Score || c == Track)
    requires SynthName(c, i) == SynthName(c, j)
    ensures i == j
  {
    var p := if c == Score then ScorePrefix else TrackPrefix;
    assert SynthName(c, i)[6..8] == (p + Hex2(i) + Zeros(8))[6..8] == Hex2(i);
    assert SynthName(c, j)[6..8] == (p + Hex2(j) + Zeros(8))[6..8] == Hex2(j);
    Hex2Injective(i, j);
  }

  // ---------------------------------------------------------------------
  // Track event streams

  /** The word at `p` is the end-of-track word 0x8000. */
  predicate IsTrackEnd(buf: seq<byte>, p: nat)
    requires p + 2 <= |buf|
  {
    buf[p] == 0x80 && buf[p + 1] == 0x00
  }

  /** Stepping by words from `p`, an end-of-track word is met inside the buffer. */
  predicate Terminated(buf: seq<byte>, p: nat)
    decreases |buf| - p
  {
    p + 2 <= |buf| && (IsTrackEnd(buf, p) || Terminated(buf, p + 2))
  }

  /** Bytes from `p` up to and including the first end-of-track word. */
  function TrackLen(buf: seq<byte>, p: nat): (n: nat)
    requires Terminated(buf, p)
    ensures 2 <= n && p + n <= |buf|
    decreases |buf| - p
  {
    if IsTrackEnd(buf, p) then 2 else 2 + TrackLen(buf, p + 2)
  }

  /** The measured stream is whole words, ends with the end-of-track word
      and holds no earlier one. */
  lemma {:induction false} TrackLenSpec(buf: seq<byte>, p: nat)
    requires Terminated(buf, p)
    ensures TrackLen(buf, p) % 2 == 0 && IsTrackEnd(buf, p + TrackLen(buf, p) - 2)
    ensures forall w :: 0 <= w && 2 * w + 2 < TrackLen(buf, p) ==> !IsTrackEnd(buf, p + 2 * w)
    decreases |buf| - p
  {
    if !IsTrackEnd(buf, p) {
      TrackLenSpec(buf, p + 2);
      forall w | 1 <= w && 2 * w + 2 < TrackLen(buf, p)
        ensures !IsTrackEnd(buf, p + 2 * w)
      {
        assert p + 2 * w == (p + 2) + 2 * (w - 1);
      }
    }
  }

  /** The scan for the end-of-track word. */
  method ScanTrackLen(buf: seq<byte>, p: nat) returns (n: nat)
    requires Terminated(buf, p)
    ensures n == TrackLen(buf, p)
  {
    n := 0;
    while !IsTrackEnd(buf, p + n)
      invariant n % 2 == 0
      invariant Terminated(buf, p + n)
      invariant TrackLen(buf, p) == n + TrackLen(buf, p + n)
      decreases |buf| - n
    {
      n := n + 2;
    }
    n := n + 2;
  }

  // ---------------------------------------------------------------------
  // Record bodies: what follows the index and the name

  /** The reads of the category's body at `d` lie inside the buffer, and a
      track's length fits its 16-bit field. */
  predicate BodyReadable(buf: seq<byte>, c: Category, d: nat) {
    match c
    case Score => d + 34 <= |buf|
    case Instrument => d + 106 <= |buf|
    case Track => Terminated(buf, d) && TrackLen(buf, d) < 0x1_0000
    case Wave => d + 8 <= |buf| && d + 8 + BE16(buf, d) <= |buf|
  }

  /** A track record body: four zero bytes, the stream length, eight zero
      bytes, FF FF, then the event stream including its end word. */
  function TrackBody(buf: seq<byte>, d: nat): (r: seq<byte>)
    requires BodyReadable(buf, Track, d)
  {
    var n := TrackLen(buf, d);
    Zeros(4) + ToBE16(n) + Zeros(8) + [0xFF, 0xFF] + buf[d..d + n]
  }

  /** A wave record body: a zero pointer, the cycle size and the dummy byte
      copied, the double-buffer flag, fragment factor and octave in reverse
      source order, a pad byte, then the cycle data. */
  function WaveBody(buf: seq<byte>, d: nat): (r: seq<byte>)
    requires BodyReadable(buf, Wave, d)
  {
    Zeros(4) + buf[d..d + 4] + [buf[d + 6], buf[d + 5], buf[d + 4], 0] + buf[d + 8..d + 8 + BE16(buf, d)]
  }

  /** The body of a record of category `c` whose fixed block starts at `d`. */
  function Body(buf: seq<byte>, c: Category, d: nat): (r: seq<byte>)
    requires BodyReadable(buf, c, d)
  {
    match c
    case Score => buf[d..d + 34]
    case Instrument => buf[d..d + 106]
    case Track => TrackBody(buf, d)
    case Wave => WaveBody(buf, d)
  }

  /** Every record's fixed part after the name is the declared header size
      less the 16 name bytes; tracks and waves add their variable payload. */
  lemma BodyMatchesHeaderSize(buf: seq<byte>, c: Category, d: nat)
    requires BodyReadable(buf, c, d)
    ensures |Body(buf, c, d)| == HeaderSize(c) - 16 +
      (match c
       case Score => 0
       case Instrument => 0
       case Track => TrackLen(buf, d)
       case Wave => BE16(buf, d))
  {
    if c == Track {
      TrackLenSpec(buf, d);
    }
  }

  /** A track body is its sixteen header bytes followed by the stream. */
  lemma TrackBodyParts(buf: seq<byte>, d: nat)
    requires BodyReadable(buf, Track, d)
    ensures |TrackBody(buf, d)| == 16 + TrackLen(buf, d)
    ensures TrackBody(buf, d)[4..6] == ToBE16(TrackLen(buf, d)) && TrackBody(buf, d)[14..16] == EndOfChunk
    ensures TrackBody(buf, d)[16..] == buf[d..d + TrackLen(buf, d)]
  {
  }

  /** A copy of a measured stream placed behind `h` header bytes keeps its
      end word last and no earlier one on a word boundary. */
  lemma StreamCopied(r: seq<byte>, h: nat, buf: seq<byte>, d: nat, n: nat)
    requires 2 <= n && d + n <= |buf| && |r| == h + n && r[h..] == buf[d..d + n]
    requires IsTrackEnd(buf, d + n - 2)
    requires forall w :: 0 <= w && 2 * w + 2 < n ==> !IsTrackEnd(buf, d + 2 * w)
    ensures IsTrackEnd(r, |r| - 2)
    ensures forall w :: 0 <= w && h + 2 * w + 2 < |r| ==> !IsTrackEnd(r, h + 2 * w)
  {
    assert r[|r| - 2] == buf[d + n - 2] && r[|r| - 1] == buf[d + n - 1];
    forall w | 0 <= w && h + 2 * w + 2 < |r|
      ensures !IsTrackEnd(r, h + 2 * w)
    {
      assert r[h + 2 * w] == buf[d + 2 * w] && r[h + 2 * w + 1] == buf[d + 2 * w + 1];
      assert !IsTrackEnd(buf, d + 2 * w);
    }
  }

  /** A track record is self-describing: its length field gives the length of
      the stream behind the header, and that stream ends at its first
      end-of-track word. */
  lemma TrackBodyDelimited(buf: seq<byte>, d: nat)
    requires BodyReadable(buf, Track, d)
    ensures |TrackBody(buf, d)| >= 18 && BE16(TrackBody(buf, d), 4) == |TrackBody(buf, d)| - 16
    ensures TrackBody(buf, d)[14..16] == EndOfChunk && IsTrackEnd(TrackBody(buf, d), |TrackBody(buf, d)| - 2)
    ensures forall w :: 0 <= w && 18 + 2 * w < |TrackBody(buf, d)| ==> !IsTrackEnd(TrackBody(buf, d), 16 + 2 * w)
  {
    TrackLenSpec(buf, d);
    TrackBodyParts(buf, d);
    var n := TrackLen(buf, d);
    ToBE16Inverse(n);
    assert BE16(TrackBody(buf, d), 4) == BE16(ToBE16(n), 0) by {
      assert TrackBody(buf, d)[4] == ToBE16(n)[0] && TrackBody(buf, d)[5] == ToBE16(n)[1];
    }
    StreamCopied(TrackBody(buf, d), 16, buf, d, n);
  }

  /** A wave record is self-describing: the copied cycle size gives the length
      of the cycle data behind the twelve fixed bytes. */
  lemma WaveBodyDelimited(buf: seq<byte>, d: nat)
    requires BodyReadable(buf, Wave, d)
    ensures var r := WaveBody(buf, d);
      |r| >= 12 && BE16(r, 4) == |r| - 12 && r[..4] == Zeros(4) &&
      r[8] == buf[d + 6] && r[9] == buf[d + 5] && r[10] == buf[d + 4] && r[11] == 0 &&
      r[12..] == buf[d + 8..d + 8 + BE16(buf, d)]
  {
    var r := WaveBody(buf, d);
    assert r[4] == buf[d] && r[5] == buf[d + 1];
  }

  /** Computes a record body, scanning a track for its end word. */
  method EmitBody(buf: seq<byte>, c: Category, d: nat) returns (r: seq<byte>)
    requires BodyReadable(buf, c, d)
    ensures r == Body(buf, c, d)
  {
    match c
    case Score =>
      r := buf[d..d + 34];
    case Instrument =>
      r := buf[d..d + 106];
    case Track =>
      var trkLen := ScanTrackLen(buf, d);
      r := Zeros(4) + ToBE16(trkLen) + Zeros(8) + [0xFF, 0xFF] + buf[d..d + trkLen];
    case Wave =>
      var waveLen := BE16(buf, d);
      r := Zeros(4) + buf[d..d + 4] + [buf[d + 6], buf[d + 5], buf[d + 4]] + Zeros(1)
         + buf[d + 8..d + 8 + waveLen];
  }

  // ---------------------------------------------------------------------
  // Records and chunks

  /** Where a record's fixed block starts: after its 16-byte name when names
      are included. */
  function BodyStart(names: bool, data: nat): nat {
    if names then data + 16 else data
  }

  /** The reads of a record at `data` lie inside the buffer. */
  predicate EntryReadable(buf: seq<byte>, c: Category, names: bool, data: nat) {
    (names ==> data + 16 <= |buf|) && BodyReadable(buf, c, BodyStart(names, data))
  }

  /** The record's name: copied when names are included, else synthesised. */
  function Name(buf: seq<byte>, c: Category, names: bool, i: int, data: nat): (r: seq<byte>)
    requires 1 <= i <= 255 && !NameFails(c, names) && EntryReadable(buf, c, names, data)
    ensures |r| == 16
  {
    if names then buf[data..data + 16] else SynthName(c, i)
  }

  /** One record: the big-endian index, the name, the body. */
  function Entry(buf: seq<byte>, c: Category, names: bool, i: int, data: nat): (r: seq<byte>)
    requires 1 <= i <= 255 && !NameFails(c, names) && EntryReadable(buf, c, names, data)
  {
    ToBE16(i) + Name(buf, c, names, i, data) + Body(buf, c, BodyStart(names, data))
  }

  /** A record starts with its index as a big-endian word, then its 16-byte
      name, then its body. */
  lemma EntryLayout(buf: seq<byte>, c: Category, names: bool, i: int, data: nat)
    requires 1 <= i <= 255 && !NameFails(c, names) && EntryReadable(buf, c, names, data)
    ensures var r := Entry(buf, c, names, i, data);
      |r| >= 18 && r[..2] == ToBE16(i) && BE16(r, 0) == i &&
      r[2..18] == Name(buf, c, names, i, data) &&
      r[18..] == Body(buf, c, BodyStart(names, data))
  {
    var r := Entry(buf, c, names, i, data);
    assert r[0] == ToBE16(i)[0] && r[1] == ToBE16(i)[1];
  }

  /** Cell `k` of the decoded table `t` is a defined slot whose record can be
      read and named. */
  predicate RecordReadable(buf: seq<byte>, c: Category, names: bool, t: seq<nat>, k: nat) {
    1 <= k < |t| && k <= 255 && !NameFails(c, names) && t[k] != 0 && EntryReadable(buf, c, names, t[k])
  }

  /** When names can be had, the record of every defined cell of `t` can be
      read; otherwise no record is read at all. */
  predicate SlotsReadable(buf: seq<byte>, c: Category, names: bool, t: seq<nat>) {
    !NameFails(c, names) ==>
      forall k {:trigger EntryReadable(buf, c, names, t[k])} :: 1 <= k < |t| && t[k] != 0 ==> EntryReadable(buf, c, names, t[k])
  }

  /** Every index in `xs` addresses a record that can be read. */
  predicate IndicesReadable(buf: seq<byte>, c: Category, names: bool, t: seq<nat>, xs: seq<nat>) {
    forall j :: 0 <= j < |xs| ==> RecordReadable(buf, c, names, t, xs[j])
  }

  /** The record written for cell `k` (nothing when it cannot be read). */
  function Record(buf: seq<byte>, c: Category, names: bool, t: seq<nat>, k: nat): seq<byte> {
    if RecordReadable(buf, c, names, t, k) then Entry(buf, c, names, k, t[k]) else []
  }

  /** The records of the listed indices, in list order. */
  function RecordsOf(buf: seq<byte>, c: Category, names: bool, t: seq<nat>, xs: seq<nat>): seq<byte>
    decreases |xs|
  {
    if xs == [] then [] else Record(buf, c, names, t, xs[0]) + RecordsOf(buf, c, names, t, xs[1..])
  }

  /** The chunk writer's walk over the cells `i..` of the table `t`: the
      indices of the defined cells, in order; the walk stops with
      UnboundName at the first defined cell whose record name cannot be
      synthesised. */
  function Visits(c: Category, names: bool, t: seq<nat>, i: nat): (r: Result<seq<nat>>)
    ensures r.Err? ==> r.fault == UnboundName
    decreases |t| - i
  {
    if i >= |t| then Ok([])
    else if t[i] == 0 then Visits(c, names, t, i + 1)
    else if NameFails(c, names) then Err(UnboundName)
    else
      var rest :- Visits(c, names, t, i + 1);
      Ok([i] + rest)
  }

  /** What a walk leaves behind `start`: the records of the visited indices,
      or the walk's failure. */
  function Emitted(buf: seq<byte>, c: Category, names: bool, t: seq<nat>, start: seq<byte>, v: Result<seq<nat>>)
    : Result<seq<byte>>
  {
    match v
    case Ok(xs) => Ok(start + RecordsOf(buf, c, names, t, xs))
    case Err(f) => Err(f)
  }

  /** The table pointer of the category, taken from the header. */
  function TablePointer(buf: seq<byte>, c: Category): nat
    requires |buf| >= 38
  {
    GetPointer(buf, VectorOffset(c))
  }

  /** All reads the converter makes for the category's chunk lie inside the
      buffer (byte 37 selects partial tables, byte 36 included names). */
  predicate ChunkReadable(buf: seq<byte>, c: Category) {
    |buf| >= 38 &&
    var tp := TablePointer(buf, c);
    var partial := buf[37] != 0;
    (partial ==> tp - 1 < |buf|) &&
    (TableCount(buf, tp, partial) > Threshold(c) ==>
      TableReadable(buf, tp, partial) && SlotsReadable(buf, c, buf[36] != 0, Table(buf, tp, partial)))
  }

  /** The chunk of category `c`: prefix, the records of the table cells the
      walk visits, FF FF. */
  function Chunk(buf: seq<byte>, c: Category): (r: Result<seq<byte>>)
    requires ChunkReadable(buf, c)
    ensures r.Err? ==> r.fault == UnboundName
  {
    var tp := TablePointer(buf, c);
    var partial := buf[37] != 0;
    var names := buf[36] != 0;
    if TableCount(buf, tp, partial) > Threshold(c) then
      var t := Table(buf, tp, partial);
      var xs :- Visits(c, names, t, 1);
      Ok(ChunkPrefix(c) + RecordsOf(buf, c, names, t, xs) + EndOfChunk)
    else Ok(ChunkPrefix(c) + EndOfChunk)
  }

  /** One pass of the chunk writer's loop, seen on the output: a null cell
      adds nothing, a defined cell whose name cannot be had fails, any other
      adds its record. */
  lemma EmitStep(buf: seq<byte>, c: Category, names: bool, t: seq<nat>, out: seq<byte>, i: nat)
    requires 1 <= i < |t| <= 256 && SlotsReadable(buf, c, names, t)
    ensures t[i] == 0 ==>
      Emitted(buf, c, names, t, out, Visits(c, names, t, i)) == Emitted(buf, c, names, t, out, Visits(c, names, t, i + 1))
    ensures t[i] != 0 && NameFails(c, names) ==>
      Emitted(buf, c, names, t, out, Visits(c, names, t, i)) == Err(UnboundName)
    ensures t[i] != 0 && !NameFails(c, names) ==>
      EntryReadable(buf, c, names, t[i]) &&
      Emitted(buf, c, names, t, out, Visits(c, names, t, i)) ==
      Emitted(buf, c, names, t, out + Entry(buf, c, names, i, t[i]), Visits(c, names, t, i + 1))
  {
    if t[i] != 0 && !NameFails(c, names) {
      assert RecordReadable(buf, c, names, t, i);
      var e := Entry(buf, c, names, i, t[i]);
      var v := Visits(c, names, t, i + 1);
      if v.Ok? {
        assert ([i] + v.value)[1..] == v.value;
        assert RecordsOf(buf, c, names, t, [i] + v.value) == e + RecordsOf(buf, c, names, t, v.value);
        AppendAssoc(out, e, RecordsOf(buf, c, names, t, v.value));
      }
    }
  }

  /** Writes the record of slot `i`, whose vector resolved to `data`: the
      index, the name (copied, advancing past it, or synthesised), the body. */
  method EmitEntry(buf: seq<byte>, c: Category, i: nat, data: nat) returns (e: seq<byte>)
    requires |buf| >= 38 && 1 <= i <= 255
    requires !NameFails(c, buf[36] != 0) && EntryReadable(buf, c, buf[36] != 0, data)
    ensures e == Entry(buf, c, buf[36] != 0, i, data)
  {
    var name;
    var d := data;
    if !GetBoolean(buf, 36) {
      name := SynthName(c, i);
    } else {
      name := buf[d..d + 16];
      d := d + 16;
    }
    var body := EmitBody(buf, c, d);
    e := ToBE16(i) + name + body;
  }

  /** The chunk writer's loop over the slots `1..count` of the table at `tp`,
      appending the record of each defined slot to `outBuf`; `t` is the
      table as decoded. */
  method WalkTable(buf: seq<byte>, c: Category, tp: nat, count: int, outBuf: seq<byte>, ghost t: seq<nat>)
    returns (r: Result<seq<byte>>)
    requires |buf| >= 38 && 0 <= count <= 255 && |t| == count + 1
    requires tp + 4 * count + 4 <= |buf|
    requires forall k {:trigger Slot(buf, tp, k)} :: 1 <= k <= count ==> t[k] == Slot(buf, tp, k)
    requires SlotsReadable(buf, c, buf[36] != 0, t)
    ensures r == Emitted(buf, c, buf[36] != 0, t, outBuf, Visits(c, buf[36] != 0, t, 1))
  {
    var names := GetBoolean(buf, 36);
    var out := outBuf;
    var pntr: int := tp;
    var i := 1;
    while i <= count
      invariant 1 <= i <= count + 1 && pntr == tp + 4 * i - 4
      invariant Emitted(buf, c, names, t, out, Visits(c, names, t, i)) ==
                Emitted(buf, c, names, t, outBuf, Visits(c, names, t, 1))
    {
      pntr := pntr + 4; // the slots are walked sequentially
      assert pntr == tp + 4 * i;
      var data := GetPointer(buf, pntr);
      assert data == Slot(buf, tp, i) == t[i];
      EmitStep(buf, c, names, t, out, i);
      if data != 0 {
        if NameFails(c, names) {
          return Err(UnboundName);
        }
        var e := EmitEntry(buf, c, i, data);
        out := out + e;
      }
      i := i + 1;
    }
    assert out + [] == out;
    return Ok(out);
  }

  /** A table with more slots than the threshold meets the loop's demands. */
  lemma WalkReady(buf: seq<byte>, c: Category)
    requires ChunkReadable(buf, c)
    requires TableCount(buf, TablePointer(buf, c), buf[37] != 0) > Threshold(c)
    ensures var tp := TablePointer(buf, c);
      var count := TableCount(buf, tp, buf[37] != 0);
      var t := Table(buf, tp, buf[37] != 0);
      |t| == count + 1 && tp + 4 * count + 4 <= |buf| &&
      (forall k {:trigger Slot(buf, tp, k)} :: 1 <= k <= count ==> t[k] == Slot(buf, tp, k))
  {
    TableShape(buf, TablePointer(buf, c), buf[37] != 0);
  }

  /** The converter's chunk writer (`createScoData`, `createTrkData`,
      `createInsData`, `createWavData`). */
  method CreateChunk(buf: seq<byte>, c: Category) returns (r: Result<seq<byte>>)
    requires ChunkReadable(buf, c)
    ensures r == Chunk(buf, c)
  {
    var outBuf := ChunkPrefix(c);
    var pntr: int := GetPointer(buf, VectorOffset(c));
    var count: int := 255;
    if GetBoolean(buf, 37) {
      count := ByteAt(buf, pntr - 1);
    }
    if count > Threshold(c) {
      WalkReady(buf, c);
      outBuf :- WalkTable(buf, c, pntr, count, outBuf, Table(buf, pntr, buf[37] != 0));
    }
    outBuf := outBuf + EndOfChunk;
    return Ok(outBuf);
  }

  // ---------------------------------------------------------------------
  // What a chunk holds

  /** With synthesisable names, the walk visits exactly the non-null cells of
      the table, in ascending order. */
  lemma {:induction false} VisitsNonNull(c: Category, names: bool, t: seq<nat>, i: nat)
    requires !NameFails(c, names) && 1 <= |t| && |t| == t[0] + 1
    ensures Visits(c, names, t, i) == Ok(NonNull(t, i))
    decreases |t| - i
  {
    if i < |t| {
      VisitsNonNull(c, names, t, i + 1);
      if t[i] == 0 {
        assert NonNull(t, i) == [] + NonNull(t, i + 1) == NonNull(t, i + 1);
      }
    }
  }

  /** The non-null cells of a table whose records can be read address
      readable records. */
  lemma NonNullReadable(buf: seq<byte>, c: Category, names: bool, t: seq<nat>)
    requires !NameFails(c, names) && 1 <= |t| <= 256 && |t| == t[0] + 1 && SlotsReadable(buf, c, names, t)
    ensures IndicesReadable(buf, c, names, t, NonNull(t, 1))
  {
    NonNullBounds(t, 1);
  }

  /** With synthesisable names, a chunk is its prefix, the records of the
      non-null cells of the table as the decoder reads it, in ascending
      index order, and FF FF; each of those cells addresses a readable
      record. A table with no more slots than the threshold yields the bare
      prefix and FF FF. */
  lemma ChunkRecords(buf: seq<byte>, c: Category)
    requires ChunkReadable(buf, c) && !NameFails(c, buf[36] != 0)
    ensures var tp := TablePointer(buf, c);
      var partial := buf[37] != 0;
      TableCount(buf, tp, partial) <= Threshold(c) ==> Chunk(buf, c) == Ok(ChunkPrefix(c) + EndOfChunk)
    ensures var tp := TablePointer(buf, c);
      var partial := buf[37] != 0;
      var names := buf[36] != 0;
      TableCount(buf, tp, partial) > Threshold(c) ==>
        IndicesReadable(buf, c, names, Table(buf, tp, partial), NonNull(Table(buf, tp, partial), 1)) &&
        Chunk(buf, c) == Ok(ChunkPrefix(c) + RecordsOf(buf, c, names, Table(buf, tp, partial), NonNull(Table(buf, tp, partial), 1)) + EndOfChunk)
  {
    var tp := TablePointer(buf, c);
    var partial := buf[37] != 0;
    if TableCount(buf, tp, partial) > Threshold(c) {
      TableShape(buf, tp, partial);
      var t := Table(buf, tp, partial);
      VisitsNonNull(c, buf[36] != 0, t, 1);
      NonNullReadable(buf, c, buf[36] != 0, t);
    }
  }

  /** Walking cells `i..` when names cannot be synthesised fails exactly when
      one of them is defined, and otherwise visits nothing. */
  lemma {:induction false} VisitsFail(c: Category, names: bool, t: seq<nat>, i: nat)
    requires NameFails(c, names)
    ensures Visits(c, names, t, i).Err? <==> exists k :: i <= k < |t| && t[k] != 0
    ensures Visits(c, names, t, i).Ok? ==> Visits(c, names, t, i).value == []
    decreases |t| - i
  {
    if i < |t| && t[i] == 0 {
      VisitsFail(c, names, t, i + 1);
    }
  }

  /** With names that cannot be synthesised (instruments and waves of a file
      without names), the chunk fails exactly when its table has more slots
      than the threshold and one of them is defined; otherwise it is empty. */
  lemma ChunkFails(buf: seq<byte>, c: Category)
    requires ChunkReadable(buf, c) && NameFails(c, buf[36] != 0)
    ensures Chunk(buf, c).Err? <==>
      TableCount(buf, TablePointer(buf, c), buf[37] != 0) > Threshold(c) &&
      exists k :: 1 <= k <= TableCount(buf, TablePointer(buf, c), buf[37] != 0) &&
        TablePointer(buf, c) + 4 * k + 4 <= |buf| && Slot(buf, TablePointer(buf, c), k) != 0
    ensures Chunk(buf, c).Ok? ==> Chunk(buf, c).value == ChunkPrefix(c) + EndOfChunk
  {
    var tp := TablePointer(buf, c);
    var partial := buf[37] != 0;
    if TableCount(buf, tp, partial) > Threshold(c) {
      TableShape(buf, tp, partial);
      VisitsFail(c, buf[36] != 0, Table(buf, tp, partial), 1);
    }
  }

  /** A chunk starts with its tag and header size and ends with FF FF. */
  lemma ChunkFrame(buf: seq<byte>, c: Category)
    requires ChunkReadable(buf, c)
    ensures Chunk(buf, c).Ok? ==>
      var r := Chunk(buf, c).value;
      |r| >= 8 && r[..6] == ChunkPrefix(c) && r[|r| - 2..] == EndOfChunk
  {
  }

  // ---------------------------------------------------------------------
  // The whole project file

  /** The reads of the chunks the writer reaches lie inside the buffer: it
      stops at the first chunk that fails, so a later chunk need only be
      readable when every earlier one succeeds. */
  predicate PvmsReadable(buf: seq<byte>) {
    ChunkReadable(buf, Wave) &&
    (Chunk(buf, Wave).Ok? ==>
      ChunkReadable(buf, Instrument) &&
      (Chunk(buf, Instrument).Ok? ==>
        ChunkReadable(buf, Track) &&
        (Chunk(buf, Track).Ok? ==> ChunkReadable(buf, Score))))
  }

  /** The project file: "PVMS", the wave, instrument, track and score chunks,
      "END."; the first chunk that fails decides the outcome otherwise. */
  function Pvms(buf: seq<byte>): (r: Result<seq<byte>>)
    requires PvmsReadable(buf)
    ensures r.Err? ==> r.fault == UnboundName
  {
    var w :- Chunk(buf, Wave);
    var i :- Chunk(buf, Instrument);
    var t :- Chunk(buf, Track);
    var s :- Chunk(buf, Score);
    Ok(PvmsMagic + w + i + t + s + PvmsEnd)
  }

  /** The project succeeds exactly when all four chunks do; otherwise it is
      the failure of the first chunk that fails. */
  lemma PvmsOutcome(buf: seq<byte>)
    requires PvmsReadable(buf)
    ensures Pvms(buf).Ok? <==>
      Chunk(buf, Wave).Ok? && Chunk(buf, Instrument).Ok? && Chunk(buf, Track).Ok? && Chunk(buf, Score).Ok?
    ensures Chunk(buf, Wave).Err? ==> Pvms(buf) == Chunk(buf, Wave)
    ensures Chunk(buf, Wave).Ok? && Chunk(buf, Instrument).Err? ==> Pvms(buf) == Chunk(buf, Instrument)
    ensures Chunk(buf, Wave).Ok? && Chunk(buf, Instrument).Ok? && Chunk(buf, Track).Err? ==>
      Pvms(buf) == Chunk(buf, Track)
    ensures Chunk(buf, Wave).Ok? && Chunk(buf, Instrument).Ok? && Chunk(buf, Track).Ok? && Chunk(buf, Score).Err? ==>
      Pvms(buf) == Chunk(buf, Score)
  {
  }

  /** `out` is "PVMS", the four chunks in the given order, then "END.". */
  predicate Framed(out: seq<byte>, wav: seq<byte>, ins: seq<byte>, trk: seq<byte>, sco: seq<byte>) {
    var i1 := 4 + |wav|;
    var i2 := i1 + |ins|;
    var i3 := i2 + |trk|;
    |out| == i3 + |sco| + 4 &&
    out[..4] == PvmsMagic && out[4..i1] == wav && out[i1..i2] == ins &&
    out[i2..i3] == trk && out[i3..|out| - 4] == sco && out[|out| - 4..] == PvmsEnd
  }

  /** The four chunks can be cut back out of their concatenation. */
  lemma FramedParts(wav: seq<byte>, ins: seq<byte>, trk: seq<byte>, sco: seq<byte>)
    ensures Framed(PvmsMagic + wav + ins + trk + sco + PvmsEnd, wav, ins, trk, sco)
  {
    SixParts(PvmsMagic, wav, ins, trk, sco, PvmsEnd);
  }

  /** A successful project is "PVMS", the four chunks in order, "END.". */
  lemma PvmsLayout(buf: seq<byte>)
    requires PvmsReadable(buf) && Pvms(buf).Ok?
    ensures Chunk(buf, Wave).Ok? && Chunk(buf, Instrument).Ok? && Chunk(buf, Track).Ok? && Chunk(buf, Score).Ok?
    ensures Framed(Pvms(buf).value, Chunk(buf, Wave).value, Chunk(buf, Instrument).value,
                   Chunk(buf, Track).value, Chunk(buf, Score).value)
  {
    PvmsOutcome(buf);
    var wav := Chunk(buf, Wave).value;
    var ins := Chunk(buf, Instrument).value;
    var trk := Chunk(buf, Track).value;
    var sco := Chunk(buf, Score).value;
    assert Pvms(buf).value == PvmsMagic + wav + ins + trk + sco + PvmsEnd;
    FramedParts(wav, ins, trk, sco);
  }

  /** The converter's writer of the whole project file. */
  method CreatePVMS(buf: seq<byte>) returns (r: Result<seq<byte>>)
    requires PvmsReadable(buf)
    ensures r == Pvms(buf)
  {
    var outBuf := PvmsMagic;
    var wav :- CreateChunk(buf, Wave);
    outBuf := outBuf + wav;
    var ins :- CreateChunk(buf, Instrument);
    outBuf := outBuf + ins;
    var trk :- CreateChunk(buf, Track);
    outBuf := outBuf + trk;
    var sco :- CreateChunk(buf, Score);
    outBuf := outBuf + sco;
    outBuf := outBuf + PvmsEnd;
    return Ok(outBuf);
  }

  /** The converter's input is readable once rebased to its magic. */
  predicate ConvertReadable(inBytes: seq<byte>) {
    var base := MagicIndex(inBytes, |inBytes|, 0);
    base >= 0 ==> MagicAt(inBytes, base) && PvmsReadable(Rebase(inBytes, base))
  }

  /** The converter's main path: find the magic, drop what precedes it (and
      the last byte), convert. It fails only on a missing magic or on a name
      it cannot synthesise. */
  method Convert(inBytes: seq<byte>) returns (r: Result<seq<byte>>)
    requires ConvertReadable(inBytes)
    ensures r.Err? && r.fault == MagicNotFound <==> forall i :: 0 <= i < |inBytes| ==> !MagicAt(inBytes, i)
    ensures r.Err? && r.fault != MagicNotFound ==> r.fault == UnboundName
    ensures var base := MagicIndex(inBytes, |inBytes|, 0);
      base >= 0 ==> MagicAt(inBytes, base) && r == Pvms(Rebase(inBytes, base))
  {
    var msoMagic := HuntMagic(inBytes, |inBytes|);
    if msoMagic < 0 {
      return Err(MagicNotFound);
    }
    var buf := inBytes;
    if msoMagic > 0 { // drop the bytes in front of the object
      buf := inBytes[msoMagic..|inBytes| - 1];
    }
    assert buf == Rebase(inBytes, msoMagic);
    r := CreatePVMS(buf);
  }
}
