/** The MSOB decoder: finds the object in a file, reads its header, reports
    reserved vectors that are not zero, decodes the four category tables and,
    when the object carries names, lists the defined entries of each. */
module MsobDecoder {
  import opened Bytes
  import opened Outcomes
  import opened Msob

  /** Python's slice `buf[lo:hi]` for `lo <= hi`: cut short at the end. */
  function Slice(buf: seq<byte>, lo: nat, hi: nat): (r: seq<byte>)
    requires lo <= hi
    ensures hi <= |buf| ==> |r| == hi - lo
    ensures |r| <= hi - lo && (|r| < hi - lo ==> lo + |r| == |buf| || lo >= |buf|)
  {
    if lo >= |buf| then [] else if hi >= |buf| then buf[lo..] else buf[lo..hi]
  }

  /** The slice holds the bytes it stands for. */
  lemma SliceBytes(buf: seq<byte>, lo: nat, hi: nat)
    requires lo <= hi
    ensures forall k :: 0 <= k < |Slice(buf, lo, hi)| ==> lo + k < |buf| && Slice(buf, lo, hi)[k] == buf[lo + k]
  {
    var r := Slice(buf, lo, hi);
    forall k | 0 <= k < |r|
      ensures lo + k < |buf| && r[k] == buf[lo + k]
    {
      if hi >= |buf| {
        assert r == buf[lo..];
      } else {
        assert r == buf[lo..hi];
      }
    }
  }

  // ---------------------------------------------------------------------
  // Reserved vectors

  /** The header's four reserved vectors, expected to be zero. */
  const ReservedOffsets: seq<nat> := [20, 24, 28, 32]

  /** A reserved vector found nonzero: where, and what it holds. */
  datatype ReservedWarning = ReservedWarning(offset: nat, value: nat)

  /** The warning, if any, for the reserved vector at position `k` of the list. */
  function WarningAt(buf: seq<byte>, k: nat): seq<ReservedWarning>
    requires |buf| >= 36 && k < 4
  {
    var off := ReservedOffsets[k];
    if BE32(buf, off) != 0 then [ReservedWarning(off, BE32(buf, off))] else []
  }

  /** The warnings for the reserved vectors from position `from` of the list on. */
  function Reserved(buf: seq<byte>, from: nat): seq<ReservedWarning>
    requires |buf| >= 36
    decreases 4 - from
  {
    if from >= 4 then [] else WarningAt(buf, from) + Reserved(buf, from + 1)
  }

  /** A warning is issued exactly for each reserved vector that is not zero,
      carrying its offset and value. */
  lemma {:induction false} ReservedMembers(buf: seq<byte>, from: nat)
    requires |buf| >= 36
    ensures forall w :: w in Reserved(buf, from) <==>
      exists k :: from <= k < 4 && w.offset == ReservedOffsets[k] && w.value == BE32(buf, ReservedOffsets[k]) && w.value != 0
    decreases 4 - from
  {
    if from < 4 {
      ReservedMembers(buf, from + 1);
      var off := ReservedOffsets[from];
      var rest := Reserved(buf, from + 1);
      var r := Reserved(buf, from);
      if BE32(buf, off) != 0 {
        assert r == [ReservedWarning(off, BE32(buf, off))] + rest;
      } else {
        assert r == rest;
      }
    }
  }

  /** The warnings come in ascending offset order, none before the offset
      the listing starts from. */
  lemma {:induction false} ReservedAscending(buf: seq<byte>, from: nat)
    requires |buf| >= 36
    ensures forall a, b :: 0 <= a < b < |Reserved(buf, from)| ==> Reserved(buf, from)[a].offset < Reserved(buf, from)[b].offset
    ensures forall a :: 0 <= a < |Reserved(buf, from)| ==> Reserved(buf, from)[a].offset >= 20 + 4 * from
    decreases 4 - from
  {
    if from < 4 {
      ReservedAscending(buf, from + 1);
      assert forall k :: 0 <= k < 4 ==> ReservedOffsets[k] == 20 + 4 * k;
      var off := ReservedOffsets[from];
      var rest := Reserved(buf, from + 1);
      var r := Reserved(buf, from);
      if BE32(buf, off) != 0 {
        assert r == [ReservedWarning(off, BE32(buf, off))] + rest;
        forall a | 1 <= a < |r|
          ensures r[a] == rest[a - 1]
        {
        }
      } else {
        assert r == rest;
      }
    }
  }

  /** The decoder's check of the reserved vectors. */
  method CheckReserved(buf: seq<byte>) returns (warnings: seq<ReservedWarning>)
    requires |buf| >= 36
    ensures warnings == Reserved(buf, 0)
  {
    warnings := [];
    for k := 0 to 4
      invariant warnings + Reserved(buf, k) == Reserved(buf, 0)
    {
      var i := ReservedOffsets[k];
      var j := BE32(buf, i);
      var here := if j != 0 then [ReservedWarning(i, j)] else [];
      assert here == WarningAt(buf, k);
      AppendAssoc(warnings, here, Reserved(buf, k + 1));
      warnings := warnings + here;
    }
  }

  // ---------------------------------------------------------------------
  // Name listings

  /** An entry of a score, track or instrument listing: its index and the
      16 bytes of its name. */
  datatype NameEntry = NameEntry(index: nat, name: seq<byte>)

  /** The entry for cell `i`, whose pointer is `p`: the index and the
      16-byte slice at `p`. */
  function NameAt(buf: seq<byte>, i: nat, p: nat): NameEntry {
    NameEntry(i, Slice(buf, p, p + 16))
  }

  /** The listing of the defined cells `i..` of the table `t`: the index and
      the 16 bytes at the cell's pointer. */
  function NameList(buf: seq<byte>, t: seq<nat>, i: nat): seq<NameEntry>
    decreases |t| - i
  {
    if i >= |t| then []
    else (if t[i] != 0 then [NameAt(buf, i, t[i])] else []) + NameList(buf, t, i + 1)
  }

  /** One step of a name listing and of the index list it follows. */
  lemma NameListStep(buf: seq<byte>, t: seq<nat>, i: nat)
    requires |t| >= 1 && |t| == t[0] + 1 && i < |t|
    ensures t[i] != 0 ==> NameList(buf, t, i) == [NameAt(buf, i, t[i])] + NameList(buf, t, i + 1) &&
                          NonNull(t, i) == [i] + NonNull(t, i + 1)
    ensures t[i] == 0 ==> NameList(buf, t, i) == NameList(buf, t, i + 1) && NonNull(t, i) == NonNull(t, i + 1)
  {
    if t[i] == 0 {
      assert NonNull(t, i) == [] + NonNull(t, i + 1);
    }
  }

  /** A listing names the non-null cells of the table, in ascending order,
      each with the 16 bytes its pointer addresses. */
  lemma {:induction false} NameListSpec(buf: seq<byte>, t: seq<nat>, i: nat)
    requires |t| >= 1 && |t| == t[0] + 1
    ensures |NameList(buf, t, i)| == |NonNull(t, i)|
    ensures forall a :: 0 <= a < |NameList(buf, t, i)| ==>
      i <= NonNull(t, i)[a] < |t| && t[NonNull(t, i)[a]] != 0 &&
      NameList(buf, t, i)[a] == NameAt(buf, NonNull(t, i)[a], t[NonNull(t, i)[a]])
    decreases |t| - i
  {
    NonNullBounds(t, i);
    if i < |t| {
      NameListSpec(buf, t, i + 1);
      NameListStep(buf, t, i);
      var rest := NameList(buf, t, i + 1);
      var idx := NonNull(t, i + 1);
      var r := NameList(buf, t, i);
      var xs := NonNull(t, i);
      forall a | 0 <= a < |r|
        ensures r[a] == NameAt(buf, xs[a], t[xs[a]])
      {
        if t[i] != 0 && a > 0 {
          assert r[a] == rest[a - 1] && xs[a] == idx[a - 1];
        } else if t[i] == 0 {
          assert r[a] == rest[a] && xs[a] == idx[a];
        }
      }
    }
  }

  /** The decoder's listing loop for scores, tracks and instruments. */
  method ListNames(buf: seq<byte>, t: seq<nat>) returns (names: seq<NameEntry>)
    requires |t| >= 1 && |t| == t[0] + 1
    ensures names == NameList(buf, t, 1)
  {
    names := [];
    var i := 1;
    while i <= t[0]
      invariant 1 <= i <= |t|
      invariant names + NameList(buf, t, i) == NameList(buf, t, 1)
    {
      var here := [];
      if t[i] != 0 {
        var p := t[i];
        here := [NameEntry(i, Slice(buf, p, p + 16))];
      }
      NameListStep(buf, t, i);
      assert NameList(buf, t, i) == here + NameList(buf, t, i + 1);
      AppendAssoc(names, here, NameList(buf, t, i + 1));
      names := names + here;
      i := i + 1;
    }
  }

  // ---------------------------------------------------------------------
  // Wave listing

  /** The scan for the end of a wave name reads positions `p + j`, `p + j + 1`,
      ... up to the first zero byte or position `p + 15`, all inside the buffer. */
  predicate ScanReadable(buf: seq<byte>, p: nat, j: nat)
    decreases 16 - j
  {
    j <= 15 && p + j < |buf| && (buf[p + j] != 0 && j < 15 ==> ScanReadable(buf, p, j + 1))
  }

  /** Where the scan from `j` stops: at the first zero byte, or at 15. */
  function WaveNameLen(buf: seq<byte>, p: nat, j: nat): (n: nat)
    requires ScanReadable(buf, p, j)
    ensures j <= n <= 15 && p + n < |buf|
    decreases 16 - j
  {
    if buf[p + j] == 0 || j == 15 then j else WaveNameLen(buf, p, j + 1)
  }

  /** The scan stops at the first zero byte among positions `j..14`; without
      one it stops at 15, whatever byte 15 holds. */
  lemma {:induction false} WaveNameLenSpec(buf: seq<byte>, p: nat, j: nat)
    requires ScanReadable(buf, p, j)
    ensures forall q :: p + j <= q < p + WaveNameLen(buf, p, j) ==> buf[q] != 0
    ensures WaveNameLen(buf, p, j) < 15 ==> buf[p + WaveNameLen(buf, p, j)] == 0
    decreases 16 - j
  {
    if buf[p + j] != 0 && j < 15 {
      WaveNameLenSpec(buf, p, j + 1);
    }
  }

  /** A name of sixteen nonzero bytes is listed by its first fifteen only. */
  lemma {:induction false} FullWaveNameTruncated(buf: seq<byte>, p: nat, j: nat)
    requires j <= 15 && p + 16 <= |buf| && forall q :: p <= q < p + 16 ==> buf[q] != 0
    ensures ScanReadable(buf, p, j) && WaveNameLen(buf, p, j) == 15
    decreases 15 - j
  {
    assert buf[p + j] != 0;
    if j < 15 {
      FullWaveNameTruncated(buf, p, j + 1);
    }
  }

  /** The decoder's scan for the end of a wave name. */
  method ScanWaveName(buf: seq<byte>, p: nat) returns (j: nat)
    requires ScanReadable(buf, p, 0)
    ensures j == WaveNameLen(buf, p, 0)
  {
    j := 0;
    while true
      invariant j <= 15 && ScanReadable(buf, p, j) && WaveNameLen(buf, p, j) == WaveNameLen(buf, p, 0)
      decreases 15 - j
    {
      if buf[p + j] == 0 {
        break;
      }
      if j == 15 {
        break;
      }
      j := j + 1;
    }
  }

  /** An entry of the wave listing: index, name, and the raw bytes of the
      cycle size, octave, fragment factor and double-buffer flag. */
  datatype WaveEntry = WaveEntry(index: nat, name: seq<byte>, cycleSize: seq<byte>, octave: seq<byte>,
                                 fragFactor: seq<byte>, isDoubleBufd: seq<byte>)

  /** The wave entry of index `i` whose record is at `p`. */
  function WaveAt(buf: seq<byte>, i: nat, p: nat): WaveEntry
    requires ScanReadable(buf, p, 0)
  {
    var j := WaveNameLen(buf, p, 0);
    WaveEntry(i, buf[p..p + j], Slice(buf, p + 16, p + 18), Slice(buf, p + 20, p + 21),
              Slice(buf, p + 21, p + 22), Slice(buf, p + 22, p + 23))
  }

  /** Every defined cell of the wave table addresses a name the scan can read. */
  predicate WavesReadable(buf: seq<byte>, t: seq<nat>) {
    forall k {:trigger ScanReadable(buf, t[k], 0)} :: 1 <= k < |t| && t[k] != 0 ==> ScanReadable(buf, t[k], 0)
  }

  /** The wave listing of the defined cells `i..` of the table `t`. */
  function WaveList(buf: seq<byte>, t: seq<nat>, i: nat): seq<WaveEntry>
    requires WavesReadable(buf, t)
    decreases |t| - i
  {
    if i >= |t| then []
    else (if i >= 1 && t[i] != 0 then [WaveAt(buf, i, t[i])] else []) + WaveList(buf, t, i + 1)
  }

  /** One step of the wave listing and of the index list it follows. */
  lemma WaveListStep(buf: seq<byte>, t: seq<nat>, i: nat)
    requires |t| >= 1 && |t| == t[0] + 1 && 1 <= i < |t| && WavesReadable(buf, t)
    ensures t[i] != 0 ==> WaveList(buf, t, i) == [WaveAt(buf, i, t[i])] + WaveList(buf, t, i + 1) &&
                          NonNull(t, i) == [i] + NonNull(t, i + 1)
    ensures t[i] == 0 ==> WaveList(buf, t, i) == WaveList(buf, t, i + 1) && NonNull(t, i) == NonNull(t, i + 1)
  {
    if t[i] == 0 {
      assert NonNull(t, i) == [] + NonNull(t, i + 1);
    }
  }

  /** The wave listing describes the non-null cells of the table, in
      ascending order, each by the record its pointer addresses. */
  lemma {:induction false} WaveListSpec(buf: seq<byte>, t: seq<nat>, i: nat)
    requires |t| >= 1 && |t| == t[0] + 1 && 1 <= i && WavesReadable(buf, t)
    ensures |WaveList(buf, t, i)| == |NonNull(t, i)|
    ensures forall a :: 0 <= a < |WaveList(buf, t, i)| ==>
      i <= NonNull(t, i)[a] < |t| && t[NonNull(t, i)[a]] != 0 &&
      WaveList(buf, t, i)[a] == WaveAt(buf, NonNull(t, i)[a], t[NonNull(t, i)[a]])
    decreases |t| - i
  {
    NonNullBounds(t, i);
    if i < |t| {
      WaveListSpec(buf, t, i + 1);
      WaveListStep(buf, t, i);
      var rest := WaveList(buf, t, i + 1);
      var idx := NonNull(t, i + 1);
      var r := WaveList(buf, t, i);
      var xs := NonNull(t, i);
      forall a | 0 <= a < |r|
        ensures r[a] == WaveAt(buf, xs[a], t[xs[a]])
      {
        if t[i] != 0 && a > 0 {
          assert r[a] == rest[a - 1] && xs[a] == idx[a - 1];
        } else if t[i] == 0 {
          assert r[a] == rest[a] && xs[a] == idx[a];
        }
      }
    }
  }

  /** The wave entry as the decoder's listing loop puts it together. */
  method DescribeWave(buf: seq<byte>, i: nat, p: nat) returns (w: WaveEntry)
    requires ScanReadable(buf, p, 0)
    ensures w == WaveAt(buf, i, p)
  {
    var j := ScanWaveName(buf, p);
    var name := buf[p..p + j];
    w := WaveEntry(i, name, Slice(buf, p + 16, p + 18), Slice(buf, p + 20, p + 21),
                   Slice(buf, p + 21, p + 22), Slice(buf, p + 22, p + 23));
  }

  /** The decoder's wave listing loop. */
  method ListWaves(buf: seq<byte>, t: seq<nat>) returns (waves: seq<WaveEntry>)
    requires |t| >= 1 && |t| == t[0] + 1 && WavesReadable(buf, t)
    ensures waves == WaveList(buf, t, 1)
  {
    waves := [];
    var i := 1;
    while i <= t[0]
      invariant 1 <= i <= |t|
      invariant waves + WaveList(buf, t, i) == WaveList(buf, t, 1)
    {
      var here := [];
      if t[i] != 0 {
        assert ScanReadable(buf, t[i], 0);
        var w := DescribeWave(buf, i, t[i]);
        here := [w];
      }
      WaveListStep(buf, t, i);
      assert WaveList(buf, t, i) == here + WaveList(buf, t, i + 1);
      AppendAssoc(waves, here, WaveList(buf, t, i + 1));
      waves := waves + here;
      i := i + 1;
    }
  }

  // ---------------------------------------------------------------------
  // The whole report

  /** The decoded header: the magic's position in the file, the four table
      pointers and the two flags. */
  datatype Header = Header(base: nat, scoTable: nat, trkTable: nat, insTable: nat, wavTable: nat,
                           names: bool, partTables: bool)

  /** What the decoder reports: the header, the reserved-vector warnings and
      the four listings. */
  datatype Report = Report(header: Header, reserved: seq<ReservedWarning>, scores: seq<NameEntry>,
                           tracks: seq<NameEntry>, instruments: seq<NameEntry>, waves: seq<WaveEntry>)

  /** Every read the decoder makes of the rebased object lies inside it. */
  predicate ObjectReadable(buf: seq<byte>) {
    |buf| >= 38 &&
    var partial := buf[37] != 0;
    TableReadable(buf, GetPointer(buf, 4), partial) && TableReadable(buf, GetPointer(buf, 8), partial) &&
    TableReadable(buf, GetPointer(buf, 12), partial) && TableReadable(buf, GetPointer(buf, 16), partial) &&
    (buf[36] != 0 ==> WavesReadable(buf, Table(buf, GetPointer(buf, 16), partial)))
  }

  /** The report on the object `buf`, found at `base` in the file. */
  function ObjectReport(buf: seq<byte>, base: nat): (r: Report)
    requires ObjectReadable(buf)
    ensures r.header.base == base && (r.header.names <==> buf[36] != 0) && (r.header.partTables <==> buf[37] != 0)
    ensures !r.header.names ==> r.scores == [] && r.tracks == [] && r.instruments == [] && r.waves == []
  {
    var names := buf[36] != 0;
    var partial := buf[37] != 0;
    var header := Header(base, GetPointer(buf, 4), GetPointer(buf, 8), GetPointer(buf, 12), GetPointer(buf, 16),
                         names, partial);
    Report(header, Reserved(buf, 0),
           if names then NameList(buf, Table(buf, header.scoTable, partial), 1) else [],
           if names then NameList(buf, Table(buf, header.trkTable, partial), 1) else [],
           if names then NameList(buf, Table(buf, header.insTable, partial), 1) else [],
           if names then WaveList(buf, Table(buf, header.wavTable, partial), 1) else [])
  }

  /** Every read the decoder makes lies inside the file, once rebased. */
  predicate DecodeReadable(inBuf: seq<byte>, n: int) {
    n <= |inBuf| &&
    var base := MagicIndex(inBuf, n, 0);
    base >= 0 ==> MagicAt(inBuf, base) && ObjectReadable(Rebase(inBuf, base))
  }

  /** The decoder's work on the object once found: header, reserved
      vectors, tables, listings. */
  method DecodeObject(buf: seq<byte>, base: nat) returns (report: Report)
    requires ObjectReadable(buf)
    ensures report == ObjectReport(buf, base)
  {
    var scoTable := GetPointer(buf, 4);
    var trkTable := GetPointer(buf, 8);
    var insTable := GetPointer(buf, 12);
    var wavTable := GetPointer(buf, 16);
    var reserved := CheckReserved(buf);
    var names := GetBoolean(buf, 36);
    var partTables := GetBoolean(buf, 37);
    var sco := GetTable(buf, scoTable, partTables);
    var trk := GetTable(buf, trkTable, partTables);
    var ins := GetTable(buf, insTable, partTables);
    var wav := GetTable(buf, wavTable, partTables);
    var scores, tracks, instruments, waves := [], [], [], [];
    if names {
      TableShape(buf, scoTable, partTables);
      TableShape(buf, trkTable, partTables);
      TableShape(buf, insTable, partTables);
      TableShape(buf, wavTable, partTables);
      scores := ListNames(buf, sco);
      tracks := ListNames(buf, trk);
      instruments := ListNames(buf, ins);
      waves := ListWaves(buf, wav);
    }
    var header := Header(base, scoTable, trkTable, insTable, wavTable, names, partTables);
    report := Report(header, reserved, scores, tracks, instruments, waves);
  }

  /** The decoder (`decode_msob`): the magic is searched among the first `n`
      positions; the report is made on the object from the magic onwards. */
  method DecodeMsob(inBuf: seq<byte>, n: int) returns (r: Result<Report>)
    requires DecodeReadable(inBuf, n)
    ensures r.Err? <==> forall i :: 0 <= i < n ==> !MagicAt(inBuf, i)
    ensures r.Err? ==> r.fault == MagicNotFound
    ensures var base := MagicIndex(inBuf, n, 0);
      base >= 0 ==> MagicAt(inBuf, base) && r == Ok(ObjectReport(Rebase(inBuf, base), base))
  {
    var base := HuntMagic(inBuf, n);
    if base < 0 {
      return Err(MagicNotFound);
    }
    var buf := inBuf;
    if base > 0 { // the object header before the magic is not needed
      buf := inBuf[base..|inBuf| - 1];
    }
    assert buf == Rebase(inBuf, base);
    var report := DecodeObject(buf, base);
    return Ok(report);
  }
}
