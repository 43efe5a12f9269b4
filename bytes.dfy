/** Byte buffers, big-endian integers and the ASCII text the Medley Sound
    tools write into their output. */
module Bytes {

  /** One octet of a file. */
  type byte = x: int | 0 <= x < 256

  /** The unsigned big-endian 16-bit word at `off`. */
  function BE16(s: seq<byte>, off: int): (v: nat)
    requires 0 <= off && off + 2 <= |s|
    ensures v < 0x1_0000
  {
    (s[off] as int) * 0x100 + s[off + 1]
  }

  /** The unsigned big-endian 32-bit longword at `off`. */
  function BE32(s: seq<byte>, off: int): (v: nat)
    requires 0 <= off && off + 4 <= |s|
    ensures v < 0x1_0000_0000
  {
    (s[off] as int) * 0x100_0000 + (s[off + 1] as int) * 0x1_0000 + (s[off + 2] as int) * 0x100 + s[off + 3]
  }

  /** The two bytes of `n` as a big-endian word (`bytes.fromhex(f'{n:04x}')`). */
  function ToBE16(n: int): (r: seq<byte>)
    requires 0 <= n < 0x1_0000
    ensures |r| == 2
  {
    [n / 0x100, n % 0x100]
  }

  /** Reading back a written word gives the number written. */
  lemma ToBE16Inverse(n: int)
    requires 0 <= n < 0x1_0000
    ensures BE16(ToBE16(n), 0) == n
  {
  }

  /** The four bytes of `n` as a big-endian longword. */
  function ToBE32(n: int): (r: seq<byte>)
    requires 0 <= n < 0x1_0000_0000
    ensures |r| == 4
  {
    var hi := n / 0x1_0000;
    var lo := n % 0x1_0000;
    [hi / 0x100, hi % 0x100, lo / 0x100, lo % 0x100]
  }

  /** Reading back a written longword gives the number written. */
  lemma ToBE32Inverse(n: int)
    requires 0 <= n < 0x1_0000_0000
    ensures BE32(ToBE32(n), 0) == n
  {
  }

  /** `n` zero bytes (Python's `bytes(n)`). */
  function Zeros(n: nat): (r: seq<byte>)
    ensures |r| == n
  {
    if n == 0 then [] else [0] + Zeros(n - 1)
  }

  /** Every byte of `Zeros(n)` is zero. */
  lemma {:induction false} ZerosAreZero(n: nat)
    ensures forall k :: 0 <= k < n ==> Zeros(n)[k] == 0
  {
    if n > 0 {
      ZerosAreZero(n - 1);
      assert forall k :: 1 <= k < n ==> Zeros(n)[k] == Zeros(n - 1)[k - 1];
    }
  }

  /** Regrouping a concatenation. */
  lemma AppendAssoc<T>(a: seq<T>, b: seq<T>, c: seq<T>)
    ensures a + b + c == a + (b + c)
  {
  }

  /** The six parts of a framed concatenation can be sliced back out. */
  lemma SixParts(a: seq<byte>, b: seq<byte>, c: seq<byte>, d: seq<byte>, e: seq<byte>, f: seq<byte>)
    ensures var s := a + b + c + d + e + f;
      var i1 := |a|;
      var i2 := i1 + |b|;
      var i3 := i2 + |c|;
      var i4 := i3 + |d|;
      var i5 := i4 + |e|;
      |s| == i5 + |f| &&
      s[..i1] == a && s[i1..i2] == b && s[i2..i3] == c && s[i3..i4] == d && s[i4..i5] == e && s[i5..] == f
  {
    var s := a + b + c + d + e + f;
    assert s == a + (b + (c + (d + (e + f))));
  }

  /** The lower-case ASCII hex digit of `d`. */
  function HexDigit(d: int): (c: byte)
    requires 0 <= d < 16
    ensures ('0' as int <= c <= '9' as int) || ('a' as int <= c <= 'f' as int)
  {
    if d < 10 then '0' as int + d else 'a' as int + (d - 10)
  }

  lemma HexDigitInjective(d: int, e: int)
    requires 0 <= d < 16 && 0 <= e < 16
    requires HexDigit(d) == HexDigit(e)
    ensures d == e
  {
  }

  /** Python's `f'{i:2x}'` for `i < 256`: lower-case hex, right-aligned in a
      field of two characters, space-padded. */
  function Hex2(i: int): (r: seq<byte>)
    requires 0 <= i < 0x100
    ensures |r| == 2
  {
    if i < 0x10 then [' ' as int, HexDigit(i)] else [HexDigit(i / 0x10), HexDigit(i % 0x10)]
  }

  /** The field starts with a space exactly when one digit suffices. */
  lemma Hex2Padded(i: int)
    requires 0 <= i < 0x100
    ensures Hex2(i)[0] == ' ' as int <==> i < 0x10
  {
  }

  /** Distinct indices get distinct hex fields. */
  lemma Hex2Injective(i: int, j: int)
    requires 0 <= i < 0x100 && 0 <= j < 0x100
    requires Hex2(i) == Hex2(j)
    ensures i == j
  {
    assert Hex2(i)[0] == Hex2(j)[0] && Hex2(i)[1] == Hex2(j)[1];
    if i < 0x10 {
      HexDigitInjective(i, j);
    } else {
      HexDigitInjective(i / 0x10, j / 0x10);
      HexDigitInjective(i % 0x10, j % 0x10);
    }
  }
}

/** The error results of the tools, in place of their aborts. */
module Outcomes {

  /** Why a tool stops without producing output. */
  datatype Fault =
    | MagicNotFound   // no "MSOB" in the input
    | UnboundName     // name synthesis via `+=` on a name that was never assigned

  datatype Result<T> = Ok(value: T) | Err(fault: Fault) {
    predicate IsFailure() { Err? }

    function PropagateFailure<U>(): Result<U>
      requires Err?
    {
      Err(fault)
    }

    function Extract(): T
      requires Ok?
    {
      value
    }
  }
}
