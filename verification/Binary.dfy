/** Bytes, big-endian integers, and the cursor reader and appending writer built on them. */
module Binary {

  type Byte = x: int | 0 <= x < 0x100
  type U16 = x: int | 0 <= x < 0x1_0000
  type U64 = x: int | 0 <= x < 0x1_0000_0000_0000_0000
  type Bytes = seq<Byte>

  /** The largest buffer a reader can be given: its size is a 16-bit number. */
  const MAX_BUFFER: nat := 0xFFFF

  datatype Option<+T> = None | Some(value: T)

  function Min(a: nat, b: nat): nat {
    if a <= b then a else b
  }

  function Pow256(n: nat): nat {
    if n == 0 then 1 else 256 * Pow256(n - 1)
  }

  /** The `n` low-order bytes of `v`, most significant first. */
  function BigEndian(v: nat, n: nat): (b: Bytes)
    ensures |b| == n
  {
    if n == 0 then [] else BigEndian(v / 256, n - 1) + [v % 256]
  }

  /** The number a byte string denotes, most significant byte first. */
  function Value(b: Bytes): (v: nat)
    ensures v < Pow256(|b|)
  {
    if b == [] then 0 else Value(b[..|b| - 1]) * 256 + b[|b| - 1]
  }

  lemma {:induction false} ValueOfBigEndian(v: nat, n: nat)
    requires v < Pow256(n)
    ensures Value(BigEndian(v, n)) == v
  {
    if n > 0 {
      ValueOfBigEndian(v / 256, n - 1);
      assert BigEndian(v, n)[..n - 1] == BigEndian(v / 256, n - 1);
    }
  }

  lemma {:induction false} BigEndianOfValue(b: Bytes)
    ensures BigEndian(Value(b), |b|) == b
  {
    if b != [] {
      BigEndianOfValue(b[..|b| - 1]);
      assert b == b[..|b| - 1] + [b[|b| - 1]];
    }
  }

  /** `x` stands at position `p` of `b`. */
  predicate At(b: Bytes, p: nat, x: Bytes) {
    p + |x| <= |b| && b[p..p + |x|] == x
  }

  lemma AtSplit(b: Bytes, p: nat, x: Bytes, y: Bytes)
    requires At(b, p, x + y)
    ensures At(b, p, x) && At(b, p + |x|, y)
  {
    var whole := b[p..p + |x + y|];
    assert b[p..p + |x|] == whole[..|x|] == x;
    assert b[p + |x|..p + |x| + |y|] == whole[|x|..] == y;
  }

  // ---- reading, as a function of the buffer and the cursor ----

  datatype Read<+T> = Read(value: T, pos: nat)

  /** An `n`-byte integer at `p`; a read past the end yields 0 and leaves the cursor. */
  function ReadUint(b: Bytes, p: nat, n: nat): (r: Read<nat>)
    ensures r.value < Pow256(n)
    ensures p <= r.pos <= p + n && (p <= |b| ==> r.pos <= |b|)
  {
    if p + n > |b| then Zero(n); Read(0, p) else Read(Value(b[p..p + n]), p + n)
  }

  lemma Zero(n: nat)
    ensures 0 < Pow256(n)
  {}

  /** `n` raw bytes at `p`, or nothing, leaving the cursor, when they are not all there. */
  function ReadData(b: Bytes, p: nat, n: nat): (r: Read<Option<Bytes>>)
    ensures r.value.Some? ==> |r.value.value| == n
    ensures p <= r.pos && (p <= |b| ==> r.pos <= |b|)
  {
    if p + n > |b| then Read(None, p) else Read(Some(b[p..p + n]), p + n)
  }

  lemma ReadUintAt(b: Bytes, p: nat, v: nat, n: nat)
    requires v < Pow256(n)
    requires At(b, p, BigEndian(v, n))
    ensures ReadUint(b, p, n) == Read(v, p + n)
  {
    ValueOfBigEndian(v, n);
  }

  // ---- the explicit shifts of the source against the recursive definitions ----

  lemma ValueOfTwo(b: Bytes)
    requires |b| == 2
    ensures Value(b) == b[0] as int * 0x100 + b[1] as int
  {
    ValueStep(b, 2);
    ValueStep(b, 1);
  }

  lemma ValueStep(b: Bytes, k: nat)
    requires 0 < k <= |b|
    ensures Value(b[..k]) == Value(b[..k - 1]) * 256 + b[k - 1]
    ensures k == |b| ==> b[..k] == b
  {
    assert b[..k][..k - 1] == b[..k - 1];
  }

  lemma ValueOfFour(b: Bytes)
    requires |b| == 4
    ensures Value(b) == b[0] as int * 0x100_0000 + b[1] as int * 0x1_0000 + b[2] as int * 0x100 + b[3] as int
  {
    ValueStep(b, 4);
    ValueStep(b, 3);
    ValueStep(b, 2);
    ValueStep(b, 1);
  }

  lemma ValueOfEight(b: Bytes)
    requires |b| == 8
    ensures Value(b) == b[0] as int * 0x100_0000_0000_0000 + b[1] as int * 0x1_0000_0000_0000
                        + b[2] as int * 0x100_0000_0000 + b[3] as int * 0x1_0000_0000 + b[4] as int * 0x100_0000
                        + b[5] as int * 0x1_0000 + b[6] as int * 0x100 + b[7] as int
  {
    ValueOfFour(b[..4]);
    ValueStep(b, 8);
    ValueStep(b, 7);
    ValueStep(b, 6);
    ValueStep(b, 5);
  }

  lemma BigEndianStep(v: nat, n: nat)
    ensures BigEndian(v, n + 1) == BigEndian(v / 256, n) + [v % 256]
  {}

  lemma BigEndianOne(v: nat)
    ensures BigEndian(v, 1) == [v % 256]
  {
    BigEndianStep(v, 0);
  }

  lemma BigEndianTwo(v: nat)
    ensures BigEndian(v, 2) == [v / 0x100 % 256, v % 256]
  {
    BigEndianStep(v, 1);
    BigEndianOne(v / 256);
  }

  lemma ShiftTwice(v: nat)
    ensures v / 0x100 / 0x100 == v / 0x1_0000
    ensures v / 0x1_0000 / 0x100 == v / 0x100_0000
    ensures v / 0x100_0000 / 0x100 == v / 0x1_0000_0000
    ensures v / 0x1_0000_0000 / 0x100 == v / 0x100_0000_0000
    ensures v / 0x1_0000_0000 / 0x1_0000 == v / 0x1_0000_0000_0000
    ensures v / 0x1_0000_0000 / 0x100_0000 == v / 0x100_0000_0000_0000
  {}

  lemma BigEndianFour(v: nat)
    ensures BigEndian(v, 4) == [v / 0x100_0000 % 256, v / 0x1_0000 % 256, v / 0x100 % 256, v % 256]
  {
    BigEndianStep(v, 3);
    BigEndianStep(v / 256, 2);
    BigEndianTwo(v / 0x1_0000);
    ShiftTwice(v);
  }

  lemma BigEndianEight(v: nat)
    ensures BigEndian(v, 8) == [v / 0x100_0000_0000_0000 % 256, v / 0x1_0000_0000_0000 % 256,
                                v / 0x100_0000_0000 % 256, v / 0x1_0000_0000 % 256, v / 0x100_0000 % 256,
                                v / 0x1_0000 % 256, v / 0x100 % 256, v % 256]
  {
    var w := v / 0x1_0000_0000;
    BigEndianUpper(v);
    BigEndianFour(w);
    ShiftTwice(v);
  }

  lemma BigEndianUpper(v: nat)
    ensures BigEndian(v, 8) == BigEndian(v / 0x1_0000_0000, 4)
                               + [v / 0x100_0000 % 256, v / 0x1_0000 % 256, v / 0x100 % 256, v % 256]
  {
    BigEndianStep(v, 7);
    BigEndianStep(v / 256, 6);
    BigEndianStep(v / 256 / 256, 5);
    BigEndianStep(v / 256 / 256 / 256, 4);
    ShiftTwice(v);
  }

  /** The reader: a buffer and a cursor that only a successful read moves. */
  class BinaryReader {
    const buffer: Bytes
    var pos: nat

    constructor (offset: nat, buffer: Bytes)
      requires |buffer| <= MAX_BUFFER
      ensures pos == offset && this.buffer == buffer
    {
      this.buffer := buffer;
      pos := offset;
    }

    method ReadUint8() returns (ret: Byte)
      modifies this
      ensures Read(ret, pos) == ReadUint(buffer, old(pos), 1)
    {
      if pos + 1 > |buffer| {
        return 0;
      }
      ret := buffer[pos];
      ValueStep(buffer[pos..pos + 1], 1);
      pos := pos + 1;
    }

    method ReadUint16() returns (ret: U16)
      modifies this
      ensures Read(ret, pos) == ReadUint(buffer, old(pos), 2)
    {
      if pos + 2 > |buffer| {
        return 0;
      }
      ret := buffer[pos] as int * 0x100 + buffer[pos + 1] as int;
      ValueOfTwo(buffer[pos..pos + 2]);
      pos := pos + 2;
    }

    method ReadUint32() returns (ret: nat)
      modifies this
      ensures Read(ret, pos) == ReadUint(buffer, old(pos), 4)
    {
      if pos + 4 > |buffer| {
        return 0;
      }
      ret := buffer[pos] as int * 0x100_0000 + buffer[pos + 1] as int * 0x1_0000 + buffer[pos + 2] as int * 0x100
             + buffer[pos + 3] as int;
      ValueOfFour(buffer[pos..pos + 4]);
      pos := pos + 4;
    }

    method ReadUint64() returns (ret: U64)
      modifies this
      ensures Read(ret, pos) == ReadUint(buffer, old(pos), 8)
    {
      if pos + 8 > |buffer| {
        return 0;
      }
      ret := buffer[pos] as int * 0x100_0000_0000_0000 + buffer[pos + 1] as int * 0x1_0000_0000_0000
             + buffer[pos + 2] as int * 0x100_0000_0000 + buffer[pos + 3] as int * 0x1_0000_0000
             + buffer[pos + 4] as int * 0x100_0000 + buffer[pos + 5] as int * 0x1_0000
             + buffer[pos + 6] as int * 0x100 + buffer[pos + 7] as int;
      ValueOfEight(buffer[pos..pos + 8]);
      pos := pos + 8;
    }

    method ReadBlock(len: nat) returns (ret: Option<Bytes>)
      modifies this
      ensures Read(ret, pos) == ReadData(buffer, old(pos), len)
    {
      if pos + len > |buffer| {
        return None;
      }
      ret := Some(buffer[pos..pos + len]);
      pos := pos + len;
    }

    /** The distance to the end, as the 16-bit number the source computes. */
    function RemainderLen(): (n: U16)
      reads this
      ensures pos <= |buffer| <= MAX_BUFFER ==> n == |buffer| - pos
    {
      (|buffer| - pos) % 0x1_0000
    }
  }

  /** The writer: every write appends to the vector it was given. */
  class BinaryWriter {
    var vector: Bytes

    constructor ()
      ensures vector == []
    {
      vector := [];
    }

    method WriteUint8(value: Byte)
      modifies this
      ensures vector == old(vector) + BigEndian(value, 1)
    {
      BigEndianOne(value);
      vector := vector + [value];
    }

    method WriteUint16(value: U16)
      modifies this
      ensures vector == old(vector) + BigEndian(value, 2)
    {
      BigEndianTwo(value);
      vector := vector + [value / 0x100];
      vector := vector + [value % 0x100];
    }

    /** The parameter is 16 bits wide, so a caller's wider number loses its upper bits before it is written. */
    method WriteUint32(argument: U64)
      modifies this
      ensures vector == old(vector) + BigEndian(argument % 0x1_0000, 4)
    {
      var value: U16 := argument % 0x1_0000;
      BigEndianFour(value);
      vector := vector + [value / 0x100_0000 % 0x100];
      vector := vector + [value / 0x1_0000 % 0x100];
      vector := vector + [value / 0x100 % 0x100];
      vector := vector + [value % 0x100];
    }

    method WriteUint64(value: U64)
      modifies this
      ensures vector == old(vector) + BigEndian(value, 8)
    {
      hide BigEndian;
      ghost var bytes := BigEndian(value, 8);
      assert bytes == [value / 0x100_0000_0000_0000, value / 0x1_0000_0000_0000 % 256,
                       value / 0x100_0000_0000 % 256, value / 0x1_0000_0000 % 256, value / 0x100_0000 % 256,
                       value / 0x1_0000 % 256, value / 0x100 % 256, value % 256] by {
        BigEndianEight(value);
      }
      vector := vector + [value / 0x100_0000_0000_0000];
      vector := vector + [value / 0x1_0000_0000_0000 % 0x100];
      vector := vector + [value / 0x100_0000_0000 % 0x100];
      vector := vector + [value / 0x1_0000_0000 % 0x100];
      vector := vector + [value / 0x100_0000 % 0x100];
      vector := vector + [value / 0x1_0000 % 0x100];
      vector := vector + [value / 0x100 % 0x100];
      vector := vector + [value % 0x100];
      assert vector == old(vector) + bytes;
    }

    method WriteData(data: Bytes, len: nat)
      requires len <= |data|
      modifies this
      ensures vector == old(vector) + data[..len]
    {
      var i := 0;
      while i < len
        invariant 0 <= i <= len
        invariant vector == old(vector) + data[..i]
      {
        vector := vector + [data[i]];
        i := i + 1;
      }
    }
  }

  /** What WriteUint32 leaves behind reads back as the argument exactly when the argument has 16 bits. */
  lemma Uint32RoundTrip(b: Bytes, p: nat, argument: U64)
    requires At(b, p, BigEndian(argument % 0x1_0000, 4))
    ensures ReadUint(b, p, 4).value == argument % 0x1_0000
    ensures ReadUint(b, p, 4).value == argument <==> argument < 0x1_0000
  {
    ReadUintAt(b, p, argument % 0x1_0000, 4);
  }
}
