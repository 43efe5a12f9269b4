/** The raw-sample wrapper: 8-bit signed sample data is cut or padded and
    framed as an AmigaDOS object-file hunk, so that the editor can load it. */
module SampleHeader {
  import opened Bytes

  /** The hunk prefix written before the count: HUNK_UNIT, an empty unit name
      (zero longwords), HUNK_CODE. */
  const HunkStart: seq<byte> := [0x00, 0x00, 0x03, 0xE7, 0x00, 0x00, 0x00, 0x00, 0x00, 0x00, 0x03, 0xE9]

  const HunkUnit: nat := 0x3E7
  const HunkCode: nat := 0x3E9

  /** The longest sample the editor supports, in bytes (32 KiB). */
  const MaxLen: nat := 32768

  /** The prefix is the three longwords HUNK_UNIT, 0, HUNK_CODE. */
  lemma HunkStartFields()
    ensures |HunkStart| == 12
    ensures BE32(HunkStart, 0) == HunkUnit
    ensures BE32(HunkStart, 4) == 0
    ensures BE32(HunkStart, 8) == HunkCode
  {
  }

  /** The signed big-endian longword at `off` (two's complement). */
  function SignedBE32(s: seq<byte>, off: int): (v: int)
    requires 0 <= off && off + 4 <= |s|
    ensures -0x8000_0000 <= v < 0x8000_0000
    ensures v >= 0 <==> BE32(s, off) < 0x8000_0000
  {
    var u := BE32(s, off);
    if u < 0x8000_0000 then u else u - 0x1_0000_0000
  }

  /** `struct.pack(">i", n)`: `n` as a signed big-endian longword. */
  function PackSigned32(n: int): (r: seq<byte>)
    requires -0x8000_0000 <= n < 0x8000_0000
    ensures |r| == 4
  {
    ToBE32(if n < 0 then n + 0x1_0000_0000 else n)
  }

  /** Reading back a packed longword gives the number packed. */
  lemma PackSigned32Inverse(n: int)
    requires -0x8000_0000 <= n < 0x8000_0000
    ensures SignedBE32(PackSigned32(n), 0) == n
  {
    ToBE32Inverse(if n < 0 then n + 0x1_0000_0000 else n);
  }

  /** The data part as the wrapper builds it: a sample over the maximum is cut
      to its first `MaxLen` bytes; a shorter one whose length leaves
      remainder `r` modulo 4 gets `r` zero bytes appended. */
  function PaddedData(src: seq<byte>): (d: seq<byte>)
    ensures |src| > MaxLen ==> d == src[..MaxLen]
    ensures |src| <= MaxLen ==> |d| == |src| + |src| % 4 && d[..|src|] == src
    ensures forall k :: |src| <= k < |d| ==> d[k] == 0
  {
    if |src| > MaxLen then src[..MaxLen]
    else if |src| % 4 != 0 then
      ZerosAreZero(|src| % 4);
      src + Zeros(|src| % 4)
    else src
  }

  /** The wrapper's output for a data part: the hunk prefix, the longword
      count of the data, the data. */
  function Hunk(data: seq<byte>): (out: seq<byte>)
    requires |data| < 0x2_0000_0000
    ensures |out| == 16 + |data|
    ensures out[..12] == HunkStart
    ensures SignedBE32(out, 12) == |data| / 4
    ensures out[16..] == data
  {
    var count := PackSigned32(|data| / 4);
    PackSigned32Inverse(|data| / 4);
    var out := HunkStart + count + data;
    assert out[12..16] == count;
    assert SignedBE32(out, 12) == SignedBE32(count, 0);
    out
  }

  /** The wrapper as written: `src_bytes` and `src_len` are reassigned by the
      truncation or the padding, then the file is written in three parts. */
  method WrapSample(src: seq<byte>) returns (out: seq<byte>)
    ensures out == Hunk(PaddedData(src))
  {
    var data := src;
    var len := |src|;
    if len > MaxLen {
      data := src[0..MaxLen];
      len := MaxLen;
    } else {
      var remainder := len % 4;
      if remainder != 0 {
        data := data + Zeros(remainder);
        len := |data|;
      }
    }
    assert data == PaddedData(src) && len == |data|;
    var hunkLen := len / 4;
    out := HunkStart + PackSigned32(hunkLen) + data;
  }

  /** Whatever the input, the output starts with the hunk prefix, holds the
      input (up to the maximum) right after the count, and is followed only by
      zero bytes. */
  lemma WrapSampleKeepsData(src: seq<byte>)
    ensures Hunk(PaddedData(src))[..12] == HunkStart
    ensures |src| > MaxLen ==> |Hunk(PaddedData(src))| == 16 + MaxLen && Hunk(PaddedData(src))[16..] == src[..MaxLen]
    ensures |src| <= MaxLen ==> Hunk(PaddedData(src))[16..16 + |src|] == src
    ensures forall k :: 16 + |src| <= k < |Hunk(PaddedData(src))| ==> Hunk(PaddedData(src))[k] == 0
  {
    var d := PaddedData(src);
    var out := Hunk(d);
    if |src| <= MaxLen {
      assert out[16..16 + |src|] == d[..|src|];
    }
  }

  /** As written, the count times four matches the data length exactly when
      the input length is a multiple of 4 or leaves remainder 2: remainders 1
      and 3 end up two bytes off. */
  lemma PaddedCountMatchesIff(src: seq<byte>)
    requires |src| <= MaxLen
    ensures SignedBE32(Hunk(PaddedData(src)), 12) * 4 == |Hunk(PaddedData(src))| - 16
      <==> |src| % 4 == 0 || |src| % 4 == 2
  {
  }

  /** As written, a 32767-byte sample is padded past the maximum, to 32770 bytes. */
  lemma PaddedOverflowsMax(src: seq<byte>)
    requires |src| == MaxLen - 1
    ensures |PaddedData(src)| == MaxLen + 2
    ensures SignedBE32(Hunk(PaddedData(src)), 12) == MaxLen / 4
  {
  }

  /** The data part with the padding evidently intended: `4 - r` zeros bring
      the length up to the next multiple of 4. */
  function AlignedData(src: seq<byte>): (d: seq<byte>)
    ensures |src| > MaxLen ==> d == src[..MaxLen]
    ensures |src| <= MaxLen ==> |src| <= |d| < |src| + 4 && d[..|src|] == src
    ensures forall k :: |src| <= k < |d| ==> d[k] == 0
  {
    if |src| > MaxLen then src[..MaxLen]
    else if |src| % 4 != 0 then
      ZerosAreZero(4 - |src| % 4);
      src + Zeros(4 - |src| % 4)
    else src
  }

  /** With the intended padding the data is whole longwords, never over the
      maximum, and the count in the header describes it exactly. */
  lemma AlignedHunkCounts(src: seq<byte>)
    ensures |AlignedData(src)| % 4 == 0
    ensures |AlignedData(src)| <= MaxLen
    ensures SignedBE32(Hunk(AlignedData(src)), 12) * 4 == |Hunk(AlignedData(src))| - 16
  {
  }

  /** The wrapper with the intended padding. */
  method WrapSampleAligned(src: seq<byte>) returns (out: seq<byte>)
    ensures out == Hunk(AlignedData(src))
  {
    var data := src;
    var len := |src|;
    if len > MaxLen {
      data := src[0..MaxLen];
      len := MaxLen;
    } else {
      var remainder := len % 4;
      if remainder != 0 {
        data := data + Zeros(4 - remainder);
        len := |data|;
      }
    }
    assert data == AlignedData(src) && len == |data|;
    var hunkLen := len / 4;
    out := HunkStart + PackSigned32(hunkLen) + data;
  }
}
