/** The MSOB object form shared by the converter and the decoder: flag bytes,
    relative vectors, category tables and the search for the "MSOB" magic.
    Both tools carry their own copies of these helpers, defined once here.
    The copies differ in one point: the decoder's magic search scans a given
    number of positions, the converter's the whole buffer (`HuntMagic`
    covers both). The converter reads its tables inline and never calls its
    own table reader. */
module Msob {
  import opened Bytes

  /** A flag byte: set when nonzero. */
  function GetBoolean(buf: seq<byte>, off: int): (b: bool)
    requires 0 <= off < |buf|
    ensures b <==> buf[off] != 0
  {
    buf[off] != 0
  }

  /** Resolves the relative vector stored at `off`: a stored 0 is the null
      pointer, any other value is an offset from the vector's own position. */
  function GetPointer(buf: seq<byte>, off: int): (p: nat)
    requires 0 <= off && off + 4 <= |buf|
    ensures p == 0 <==> BE32(buf, off) == 0
    ensures p != 0 ==> p == off + BE32(buf, off) && p > off
  {
    var vector := BE32(buf, off);
    if vector != 0 then vector + off else 0
  }

  /** Storing the distance to a later target addresses that target: the
      vector format and its resolution are inverse to each other. */
  lemma VectorResolves(buf: seq<byte>, off: int, target: int)
    requires 0 <= off && off + 4 <= |buf|
    requires off < target < off + 0x1_0000_0000
    requires buf[off..off + 4] == ToBE32(target - off)
    ensures GetPointer(buf, off) == target
  {
    var w := ToBE32(target - off);
    ToBE32Inverse(target - off);
    assert buf[off] == w[0] && buf[off + 1] == w[1] && buf[off + 2] == w[2] && buf[off + 3] == w[3];
    assert BE32(buf, off) == BE32(w, 0);
  }

  /** Python indexing `buf[k]`, where a negative `k` counts from the end. */
  function ByteAt(buf: seq<byte>, k: int): (b: byte)
    requires -|buf| <= k < |buf|
    ensures k >= 0 ==> b == buf[k]
    ensures k < 0 ==> b == buf[|buf| + k]
  {
    if k >= 0 then buf[k] else buf[|buf| + k]
  }

  /** A negative index `k - |buf|` reads the same byte as `k`, and index -1
      is the last byte. */
  lemma ByteAtWraps(buf: seq<byte>, k: int)
    requires 0 <= k < |buf|
    ensures ByteAt(buf, k - |buf|) == ByteAt(buf, k) == buf[k]
    ensures ByteAt(buf, -1) == buf[|buf| - 1]
  {
  }

  /** The magic bytes "MSOB". */
  const Magic: seq<byte> := [0x4D, 0x53, 0x4F, 0x42]

  /** The four bytes at `i` are the magic. A slice that would run past the end
      is shorter than four bytes and never matches. */
  predicate MagicAt(buf: seq<byte>, i: int) {
    0 <= i && i + 4 <= |buf| && buf[i..i + 4] == Magic
  }

  /** The first start position in `from..n-1` holding the magic, or -1. */
  function MagicIndex(buf: seq<byte>, n: int, from: nat): (r: int)
    requires n <= |buf|
    decreases n - from
  {
    if from >= n then -1
    else if MagicAt(buf, from) then from
    else MagicIndex(buf, n, from + 1)
  }

  /** MagicIndex is the least match below `n`, and -1 exactly when there is none. */
  lemma {:induction false} MagicIndexSpec(buf: seq<byte>, n: int, from: nat)
    requires n <= |buf|
    ensures MagicIndex(buf, n, from) == -1 <==> forall i :: from <= i < n ==> !MagicAt(buf, i)
    ensures MagicIndex(buf, n, from) != -1 ==>
      from <= MagicIndex(buf, n, from) < n && MagicAt(buf, MagicIndex(buf, n, from)) &&
      forall i :: from <= i < MagicIndex(buf, n, from) ==> !MagicAt(buf, i)
    decreases n - from
  {
    if from < n && !MagicAt(buf, from) {
      MagicIndexSpec(buf, n, from + 1);
    }
  }

  /** Scans the start positions `0..n-1` for the magic, as both tools do
      (the converter with `n` = the buffer length). */
  method HuntMagic(buf: seq<byte>, n: int) returns (r: int)
    requires n <= |buf|
    ensures r == MagicIndex(buf, n, 0)
    ensures r == -1 <==> forall i :: 0 <= i < n ==> !MagicAt(buf, i)
    ensures r != -1 ==> 0 <= r < n && MagicAt(buf, r) && forall i :: 0 <= i < r ==> !MagicAt(buf, i)
  {
    MagicIndexSpec(buf, n, 0);
    var i := 0;
    while i < n
      invariant 0 <= i
      invariant MagicIndex(buf, n, 0) == MagicIndex(buf, n, i)
      decreases n - i
    {
      assert MagicAt(buf, i) ==> buf[i..i + 4][0] == 0x4D;
      if buf[i] == 0x4D {
        if i + 4 <= |buf| && buf[i..i + 4] == Magic {
          return i;
        }
      }
      i := i + 1;
    }
    return -1;
  }

  /** The buffer seen from the magic onwards. A magic at a positive offset
      keeps `buf[base:-1]`, which also drops the final byte of the input. */
  function Rebase(buf: seq<byte>, base: int): (r: seq<byte>)
    requires MagicAt(buf, base)
    ensures base == 0 ==> r == buf
    ensures base > 0 ==> |r| == |buf| - base - 1
    ensures forall k :: 0 <= k < |r| ==> r[k] == buf[base + k]
    ensures (base == 0 || base + 4 < |buf|) ==> MagicAt(r, 0)
  {
    if base > 0 then buf[base..|buf| - 1] else buf
  }

  /** The slot count of a table: 255 for a full table, else the byte in front
      of the table (read Python-style, so a null table reads the last byte). */
  function TableCount(buf: seq<byte>, off: nat, partial: bool): (count: byte)
    requires partial ==> 1 <= |buf| && off - 1 < |buf|
    ensures !partial ==> count == 255
    ensures partial ==> count == ByteAt(buf, off - 1)
  {
    if partial then ByteAt(buf, off - 1) else 255
  }

  /** Every read of a table lies inside the buffer. Slot `i` is the vector at
      `off + 4*i`, for `i` in `1..count`. */
  predicate TableReadable(buf: seq<byte>, off: nat, partial: bool) {
    (partial ==> 1 <= |buf| && off - 1 < |buf|) &&
    (TableCount(buf, off, partial) > 0 ==> off + 4 * TableCount(buf, off, partial) + 4 <= |buf|)
  }

  /** Slot `i`'s resolved pointer. */
  function Slot(buf: seq<byte>, off: nat, i: nat): nat
    requires off + 4 * i + 4 <= |buf|
  {
    GetPointer(buf, off + 4 * i)
  }

  /** The resolved slots `1..n`, in order. */
  function SlotsUpTo(buf: seq<byte>, off: nat, n: nat): (s: seq<nat>)
    requires off + 4 * n + 4 <= |buf|
    ensures |s| == n
  {
    if n == 0 then [] else SlotsUpTo(buf, off, n - 1) + [Slot(buf, off, n)]
  }

  /** Cell `i - 1` of the slot list is slot `i`. */
  lemma {:induction false} SlotsUpToCells(buf: seq<byte>, off: nat, n: nat)
    requires off + 4 * n + 4 <= |buf|
    ensures forall i :: 1 <= i <= n ==> SlotsUpTo(buf, off, n)[i - 1] == Slot(buf, off, i)
  {
    if n > 0 {
      SlotsUpToCells(buf, off, n - 1);
      var s := SlotsUpTo(buf, off, n);
      assert forall j :: 0 <= j < n - 1 ==> s[j] == SlotsUpTo(buf, off, n - 1)[j];
    }
  }

  /** A decoded table: the count in cell 0, then the resolved slots. */
  function Table(buf: seq<byte>, off: nat, partial: bool): (t: seq<nat>)
    requires TableReadable(buf, off, partial)
  {
    var count := TableCount(buf, off, partial);
    if count == 0 then [0] else [count] + SlotsUpTo(buf, off, count)
  }

  /** A table's cells are the count and the slots, whichever table kind. */
  lemma TableShape(buf: seq<byte>, off: nat, partial: bool)
    requires TableReadable(buf, off, partial)
    ensures |Table(buf, off, partial)| == TableCount(buf, off, partial) + 1
    ensures Table(buf, off, partial)[0] == TableCount(buf, off, partial)
    ensures !partial ==> |Table(buf, off, partial)| == 256
    ensures forall i :: 1 <= i < |Table(buf, off, partial)| ==> Table(buf, off, partial)[i] == Slot(buf, off, i)
  {
    var count := TableCount(buf, off, partial);
    if count > 0 {
      SlotsUpToCells(buf, off, count);
      var t := Table(buf, off, partial);
      assert forall i :: 1 <= i < |t| ==> t[i] == SlotsUpTo(buf, off, count)[i - 1];
    }
  }

  /** A null partial table (pointer 0) takes its count from the last byte of
      the buffer, and its slots are then the header vectors at 4, 8, ... */
  lemma NullPartialTable(buf: seq<byte>)
    requires TableReadable(buf, 0, true)
    ensures TableCount(buf, 0, true) == buf[|buf| - 1]
    ensures |Table(buf, 0, true)| == buf[|buf| - 1] as int + 1
    ensures forall i :: 1 <= i < |Table(buf, 0, true)| ==> 4 * i + 4 <= |buf| && Table(buf, 0, true)[i] == GetPointer(buf, 4 * i)
  {
    TableShape(buf, 0, true);
  }

  /** The table reader, which appends one resolved slot after another. */
  method GetTable(buf: seq<byte>, off: nat, partial: bool) returns (t: seq<nat>)
    requires TableReadable(buf, off, partial)
    ensures t == Table(buf, off, partial)
  {
    var count: int := 255;
    if partial {
      count := ByteAt(buf, off - 1);
      if count == 0 {
        return [0];
      }
    }
    t := [count];
    for i := 1 to count + 1
      invariant t == [count] + SlotsUpTo(buf, off, i - 1)
    {
      t := t + [GetPointer(buf, off + 4 * i)];
    }
  }

  /** The indices `i..t[0]` whose table cell is not null, in ascending order:
      the records a consumer of the table visits. */
  function NonNull(t: seq<nat>, i: nat): (r: seq<nat>)
    requires |t| >= 1 && |t| == t[0] + 1
    decreases |t| - i
  {
    if i >= |t| then []
    else (if t[i] != 0 then [i] else []) + NonNull(t, i + 1)
  }

  /** Every index NonNull lists from `i` on is a non-null cell at or after `i`. */
  lemma {:induction false} NonNullBounds(t: seq<nat>, i: nat)
    requires |t| >= 1 && |t| == t[0] + 1
    ensures forall a :: 0 <= a < |NonNull(t, i)| ==> i <= NonNull(t, i)[a] < |t| && t[NonNull(t, i)[a]] != 0
    decreases |t| - i
  {
    if i < |t| {
      NonNullBounds(t, i + 1);
      var rest := NonNull(t, i + 1);
      var r := NonNull(t, i);
      if t[i] != 0 {
        assert r == [i] + rest;
        assert forall a :: 1 <= a < |r| ==> r[a] == rest[a - 1];
      } else {
        assert r == rest;
      }
    }
  }

  /** Putting an index below all of an ascending list in front keeps it ascending. */
  lemma ConsAscending(i: nat, rest: seq<nat>)
    requires forall a, b :: 0 <= a < b < |rest| ==> rest[a] < rest[b]
    requires forall a :: 0 <= a < |rest| ==> i < rest[a]
    ensures forall a, b :: 0 <= a < b < |[i] + rest| ==> ([i] + rest)[a] < ([i] + rest)[b]
  {
    var r := [i] + rest;
    forall a, b | 0 <= a < b < |r|
      ensures r[a] < r[b]
    {
      assert r[b] == rest[b - 1];
      if a > 0 {
        assert r[a] == rest[a - 1];
      }
    }
  }

  /** NonNull lists its indices in strictly ascending order. */
  lemma {:induction false} NonNullAscending(t: seq<nat>, i: nat)
    requires |t| >= 1 && |t| == t[0] + 1
    ensures forall a, b :: 0 <= a < b < |NonNull(t, i)| ==> NonNull(t, i)[a] < NonNull(t, i)[b]
    decreases |t| - i
  {
    if i < |t| {
      NonNullAscending(t, i + 1);
      NonNullBounds(t, i + 1);
      var rest := NonNull(t, i + 1);
      var r := NonNull(t, i);
      if t[i] != 0 {
        assert r == [i] + rest;
        ConsAscending(i, rest);
      } else {
        assert r == rest;
      }
    }
  }

  /** NonNull misses no non-null cell at or after `i`. */
  lemma {:induction false} NonNullComplete(t: seq<nat>, i: nat)
    requires |t| >= 1 && |t| == t[0] + 1
    ensures forall k :: i <= k < |t| && t[k] != 0 ==> k in NonNull(t, i)
    decreases |t| - i
  {
    if i < |t| {
      NonNullComplete(t, i + 1);
      var rest := NonNull(t, i + 1);
      assert NonNull(t, i) == (if t[i] != 0 then [i] else []) + rest;
    }
  }
}
