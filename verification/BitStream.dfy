/** The DEFLATE bit reader: bits leave each byte from the least significant end. */
module BitStream {
  import opened Limbs

  /** Bit p of the stream. */
  function BitAt(d: seq<Byte>, p: nat): (b: nat)
    requires p < 8 * |d|
    ensures b < 2
  {
    d[p / 8] / Pow2(p % 8) % 2
  }

  /** One bit shifted to place i. */
  function Shl(bit: nat, i: nat): (v: nat)
    requires bit < 2
    ensures v <= Pow2(i)
  {
    if bit == 1 then Pow2(i) else 0
  }

  /** n bits at p as a number, first bit least significant (extra bits, block headers). */
  ghost function LsbVal(d: seq<Byte>, p: nat, n: nat): (v: nat)
    requires p + n <= 8 * |d|
    ensures v < Pow2(n)
  {
    if n == 0 then 0 else LsbVal(d, p, n - 1) + Shl(BitAt(d, p + n - 1), n - 1)
  }

  /** n bits at p as a number, first bit most significant (Huffman codes). */
  ghost function MsbVal(d: seq<Byte>, p: nat, n: nat): (v: nat)
    requires p + n <= 8 * |d|
    ensures v < Pow2(n)
  {
    if n == 0 then 0 else 2 * MsbVal(d, p, n - 1) + BitAt(d, p + n - 1)
  }

  class BitReader {
    const data: seq<Byte>
    var bytePos: nat
    var bitPos: nat
    var error: bool

    ghost function Pos(): nat
      reads this
    {
      8 * bytePos + bitPos
    }

    ghost predicate Valid()
      reads this
    {
      bitPos < 8 && Pos() <= 8 * |data|
    }

    /** Nothing has been read past the end and the next bit is bit p. */
    ghost predicate At(p: nat)
      reads this
    {
      Valid() && !error && Pos() == p
    }

    constructor (src: seq<Byte>)
      ensures data == src && At(0)
    {
      data, bytePos, bitPos, error := src, 0, 0, false;
    }

    method GetBit() returns (bit: nat)
      requires Valid()
      modifies this
      ensures Valid() && bit < 2
      ensures old(Pos()) < 8 * |data| ==> bit == BitAt(data, old(Pos())) && Pos() == old(Pos()) + 1 && error == old(error)
      ensures old(Pos()) == 8 * |data| ==> bit == 0 && Pos() == old(Pos()) && error
    {
      if bytePos >= |data| {
        error := true;
        return 0;
      }
      assert Pos() / 8 == bytePos && Pos() % 8 == bitPos;
      bit := data[bytePos] / Pow2(bitPos) % 2;
      bitPos := bitPos + 1;
      if bitPos == 8 {
        bitPos := 0;
        bytePos := bytePos + 1;
      }
    }

    method GetBits(n: nat) returns (v: nat)
      requires Valid() && n < 32
      modifies this
      ensures Valid() && v < Pow2(n)
      ensures error <==> old(error) || old(Pos()) + n > 8 * |data|
      ensures old(Pos()) + n <= 8 * |data| ==> v == LsbVal(data, old(Pos()), n) && Pos() == old(Pos()) + n
    {
      ghost var p := Pos();
      v := 0;
      var i := 0;
      while i < n
        invariant 0 <= i <= n && Valid() && v < Pow2(i)
        invariant if p + i <= 8 * |data| then error == old(error) && Pos() == p + i && v == LsbVal(data, p, i)
                  else error && Pos() == 8 * |data|
      {
        var bit := GetBit();
        v := v + Shl(bit, i);
        i := i + 1;
      }
    }

    method Align()
      requires Valid()
      modifies this`bytePos, this`bitPos
      ensures Valid() && bitPos == 0 && bytePos == (old(Pos()) + 7) / 8
    {
      if bitPos != 0 {
        bitPos := 0;
        bytePos := bytePos + 1;
      }
    }
  }
}
