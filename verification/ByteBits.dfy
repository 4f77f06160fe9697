/** Conversions between bytes and buffers of bits. */
module ByteBits {
  import opened Bits

  /** The bits of a byte buffer, most significant first. */
  function DataBits(data: seq<byte>): (x: seq<bit>)
    ensures |x| == 8 * |data|
  {
    seq(8 * |data|, k requires 0 <= k < 8 * |data| => BitAt(data[k / 8], 7 - k % 8))
  }

  /** The bits of a byte buffer, least significant first. */
  function LsbBits(data: seq<byte>): (x: seq<bit>)
    ensures |x| == 8 * |data|
  {
    seq(8 * |data|, k requires 0 <= k < 8 * |data| => BitAt(data[k / 8], k % 8))
  }

  function Weighted(a: nat, b: nat, c: nat, d: nat, e: nat, f: nat, g: nat, h: nat): nat {
    a + 2 * b + 4 * c + 8 * d + 16 * e + 32 * f + 64 * g + 128 * h
  }

  /** The byte with the digits a (lowest) to h. */
  function Byte(a: bit, b: bit, c: bit, d: bit, e: bit, f: bit, g: bit, h: bit): byte {
    Weighted(a, b, c, d, e, f, g, h)
  }

  /** Digits determine the byte, and the byte its digits. */
  lemma {:induction false} ByteDigits(a: bit, b: bit, c: bit, d: bit, e: bit, f: bit, g: bit, h: bit)
    ensures var v := Byte(a, b, c, d, e, f, g, h);
            && BitAt(v, 0) == a && BitAt(v, 1) == b && BitAt(v, 2) == c && BitAt(v, 3) == d
            && BitAt(v, 4) == e && BitAt(v, 5) == f && BitAt(v, 6) == g && BitAt(v, 7) == h
  {
    hide BitAt;
    var w7: nat := h;
    var w6: nat := g + 2 * w7;
    var w5 := f + 2 * w6;
    var w4 := e + 2 * w5;
    var w3 := d + 2 * w4;
    var w2 := c + 2 * w3;
    var w1 := b + 2 * w2;
    DigitChain(a, w1, b, w2);
    DigitChain(b, w2, c, w3);
    DigitChain(c, w3, d, w4);
    DigitChain(d, w4, e, w5);
    DigitChain(e, w5, f, w6);
    DigitChain(f, w6, g, w7);
    DigitChain(g, w7, h, 0);
  }

  lemma {:induction false} DigitChain(a: bit, w: nat, b: bit, w': nat)
    requires w == b + 2 * w'
    ensures BitAt(a + 2 * w, 0) == a && forall j: nat :: BitAt(a + 2 * w, j + 1) == BitAt(w, j)
    ensures BitAt(w, 0) == b
  {
    hide BitAt;
    DigitShift(b, w', 0);
    DigitShift(a, w, 0);
    forall j: nat ensures BitAt(a + 2 * w, j + 1) == BitAt(w, j) {
      DigitShift(a, w, j);
    }
  }

  lemma {:induction false} ByteOfDigits(v: byte)
    ensures v == Byte(BitAt(v, 0), BitAt(v, 1), BitAt(v, 2), BitAt(v, 3),
                      BitAt(v, 4), BitAt(v, 5), BitAt(v, 6), BitAt(v, 7))
  {
    hide BitAt;
    var w1: nat := v / 2;
    var w2, w4 := w1 / 2, w1 / 8;
    var w3 := w2 / 2;
    assert w4 == w3 / 2;
    var w5 := w4 / 2;
    var w6 := w5 / 2;
    var w7 := w6 / 2;
    assert w4 <= 15;
    assert v == Byte(v % 2, w1 % 2, w2 % 2, w3 % 2, w4 % 2, w5 % 2, w6 % 2, w7);
    ByteDigits(v % 2, w1 % 2, w2 % 2, w3 % 2, w4 % 2, w5 % 2, w6 % 2, w7);
  }

  function BitsOf(bigEndian: bool, data: seq<byte>): (x: seq<bit>)
    ensures |x| == 8 * |data|
  {
    if bigEndian then DataBits(data) else LsbBits(data)
  }

  /** `byte_to_bit` */
  method ByteToBit(bigEndian: bool, ibuf: array<byte>, ilen: nat, obuf: array<byte>) returns (olen: nat)
    requires ilen <= ibuf.Length && 8 * ilen <= obuf.Length && obuf != ibuf
    modifies obuf
    ensures olen == 8 * ilen && obuf[..olen] == BitsOf(bigEndian, old(ibuf[..ilen]))
    ensures obuf[olen..] == old(obuf[olen..])
  {
    hide BitAt;
    ghost var data := ibuf[..ilen];
    for i := 0 to ilen
      invariant ibuf[..ilen] == data
      invariant forall k :: 0 <= k < 8 * i ==> obuf[k] == BitsOf(bigEndian, data)[k]
      invariant obuf[8 * ilen..] == old(obuf[8 * ilen..])
    {
      for j := 0 to 8
        invariant ibuf[..ilen] == data
        invariant forall k :: 0 <= k < 8 * i + j ==> obuf[k] == BitsOf(bigEndian, data)[k]
        invariant obuf[8 * ilen..] == old(obuf[8 * ilen..])
      {
        assert (8 * i + j) / 8 == i && (8 * i + j) % 8 == j && data[i] == ibuf[i];
        if !bigEndian {
          obuf[8 * i + j] := BitAt(ibuf[i], j);
        } else {
          obuf[8 * i + j] := BitAt(ibuf[i], 7 - j);
        }
      }
    }
    olen := ilen * 8;
  }

  /** Eight cells of a bit buffer as one byte; C adds the shifted cells and keeps eight bits. */
  function PackedByte(bigEndian: bool, x: seq<byte>, i: nat): byte
    requires i + 8 <= |x|
  {
    (if bigEndian
     then Weighted(x[i + 7], x[i + 6], x[i + 5], x[i + 4], x[i + 3], x[i + 2], x[i + 1], x[i])
     else Weighted(x[i], x[i + 1], x[i + 2], x[i + 3], x[i + 4], x[i + 5], x[i + 6], x[i + 7])) % 256
  }

  function Packed(bigEndian: bool, x: seq<byte>): (data: seq<byte>)
    requires |x| % 8 == 0
    ensures |data| == |x| / 8
  {
    seq(|x| / 8, j requires 0 <= j < |x| / 8 => PackedByte(bigEndian, x, 8 * j))
  }

  /** Passes of a loop that takes size cells at a time until it has reached n. */
  function Passes(n: int, size: nat): (k: nat)
    requires size > 0
    ensures n <= 0 ==> k == 0
    ensures n > 0 ==> size * (k - 1) < n <= size * k
  {
    if n <= 0 then 0 else Passes(n - size, size) + 1
  }

  lemma {:induction false} WholePasses(k: nat, size: nat)
    requires size > 0
    ensures Passes(size * k, size) == k
    decreases k
  {
    hide Passes;
    var j := Passes(size * k, size);
    if j < k {
      TimesMono(size, j, k - 1);
    } else if j > k {
      TimesMono(size, k, j - 1);
    }
  }

  lemma {:induction false} TimesMono(d: nat, a: int, b: int)
    requires a <= b
    ensures d * a <= d * b
  {
  }

  /** `bit_to_byte`: a length that is not a multiple of eight counts as the next one that is. */
  method BitToByte(bigEndian: bool, ibuf: array<byte>, ilen: int, obuf: array<byte>) returns (olen: nat)
    requires 8 * Passes(ilen, 8) <= ibuf.Length && Passes(ilen, 8) <= obuf.Length && obuf != ibuf
    modifies obuf
    ensures olen == Passes(ilen, 8) && obuf[..olen] == Packed(bigEndian, old(ibuf[..8 * olen]))
    ensures obuf[olen..] == old(obuf[olen..])
  {
    hide PackedByte, Passes;
    ghost var n := Passes(ilen, 8);
    ghost var x := ibuf[..8 * n];
    var j, i := 0, 0;
    while i < ilen
      invariant i == 8 * j && j <= n && ibuf[..8 * n] == x
      invariant forall k :: 0 <= k < j ==> obuf[k] == PackedByte(bigEndian, x, 8 * k)
      invariant obuf[n..] == old(obuf[n..])
    {
      obuf[j] := PackEight(bigEndian, ibuf, 8 * n, i);
      j := j + 1;
      i := i + 8;
    }
    olen := j;
  }

  method PackEight(bigEndian: bool, ibuf: array<byte>, ghost ilen: nat, i: nat) returns (v: byte)
    requires i + 8 <= ilen <= ibuf.Length
    ensures v == PackedByte(bigEndian, ibuf[..ilen], i)
  {
    var a, b, c, d := ibuf[i], ibuf[i + 1], ibuf[i + 2], ibuf[i + 3];
    var e, f, g, h := ibuf[i + 4], ibuf[i + 5], ibuf[i + 6], ibuf[i + 7];
    if bigEndian {
      v := Weighted(h, g, f, e, d, c, b, a) % 256;
    } else {
      v := Weighted(a, b, c, d, e, f, g, h) % 256;
    }
  }

  lemma {:induction false} CellOfByte(bigEndian: bool, data: seq<byte>, j: nat, k: nat)
    requires j < |data| && k < 8
    ensures BitsOf(bigEndian, data)[8 * j + k] == BitAt(data[j], if bigEndian then 7 - k else k)
  {
    hide BitAt;
    EightSplit(j, k);
    if bigEndian {
      assert DataBits(data)[8 * j + k] == BitAt(data[j], 7 - k);
    } else {
      assert LsbBits(data)[8 * j + k] == BitAt(data[j], k);
    }
  }

  lemma {:induction false} EightSplit(j: nat, k: nat)
    requires k < 8
    ensures (8 * j + k) / 8 == j && (8 * j + k) % 8 == k
  {
  }

  /** Packing the bits of bytes gives the bytes back. */
  lemma {:induction false} PackUndoesBits(bigEndian: bool, data: seq<byte>)
    ensures Packed(bigEndian, BitsOf(bigEndian, data)) == data
  {
    hide BitsOf, PackedByte;
    var x := BitsOf(bigEndian, data);
    forall j | 0 <= j < |data| ensures Packed(bigEndian, x)[j] == data[j] {
      PackOfByte(bigEndian, data, j);
    }
  }

  lemma {:induction false} PackOfByte(bigEndian: bool, data: seq<byte>, j: nat)
    requires j < |data|
    ensures PackedByte(bigEndian, BitsOf(bigEndian, data), 8 * j) == data[j]
  {
    hide BitAt, BitsOf, Weighted;
    CellOfByte(bigEndian, data, j, 0);
    CellOfByte(bigEndian, data, j, 1);
    CellOfByte(bigEndian, data, j, 2);
    CellOfByte(bigEndian, data, j, 3);
    CellOfByte(bigEndian, data, j, 4);
    CellOfByte(bigEndian, data, j, 5);
    CellOfByte(bigEndian, data, j, 6);
    CellOfByte(bigEndian, data, j, 7);
    ByteOfDigits(data[j]);
  }

  /** The bits of packed bits are the bits. */
  lemma {:induction false} BitsUndoPack(bigEndian: bool, x: seq<bit>)
    requires |x| % 8 == 0
    ensures BitsOf(bigEndian, Packed(bigEndian, x)) == x
  {
    hide BitAt, BitsOf, PackedByte;
    var data := Packed(bigEndian, x);
    forall i | 0 <= i < |x| ensures BitsOf(bigEndian, data)[i] == x[i] {
      var j, k := i / 8, i % 8;
      assert i == 8 * j + k;
      CellOfByte(bigEndian, data, j, k);
      PackedDigit(bigEndian, x, 8 * j, k);
    }
  }

  lemma {:induction false} PackedDigit(bigEndian: bool, x: seq<bit>, i: nat, k: nat)
    requires i + 8 <= |x| && k < 8
    ensures x[i + k] == BitAt(PackedByte(bigEndian, x, i), if bigEndian then 7 - k else k)
  {
    hide BitAt, Weighted;
    var a, b, c, d, e, f, g, h := x[i], x[i + 1], x[i + 2], x[i + 3], x[i + 4], x[i + 5], x[i + 6], x[i + 7];
    ByteDigits(h, g, f, e, d, c, b, a);
    ByteDigits(a, b, c, d, e, f, g, h);
    assert Byte(h, g, f, e, d, c, b, a) < 256 && Byte(a, b, c, d, e, f, g, h) < 256;
  }

  /** `bitswap16`: every group of sixteen cells in reverse order. */
  function Swapped16(i: nat): nat {
    16 * (i / 16) + 15 - i % 16
  }

  /** A length that is not a multiple of sixteen counts as the next one that is. */
  method Bitswap16(a: array<byte>, b: array<byte>, len: int)
    requires 16 * Passes(len, 16) <= a.Length && 16 * Passes(len, 16) <= b.Length && a != b
    modifies b
    ensures var n := 16 * Passes(len, 16);
            && (forall i :: 0 <= i < n ==> Swapped16(i) < n && b[i] == old(a[Swapped16(i)]))
            && b[n..] == old(b[n..])
  {
    hide Passes;
    ghost var n := 16 * Passes(len, 16);
    var i := 0;
    while i < len
      invariant i % 16 == 0 && 0 <= i <= n
      invariant forall k :: 0 <= k < i ==> Swapped16(k) < n && b[k] == a[Swapped16(k)]
      invariant b[n..] == old(b[n..])
    {
      PassFits(i, len, Passes(len, 16));
      SwapGroup(a, b, i);
      SwappedGroup(i);
      i := i + 16;
    }
  }

  lemma {:induction false} PassFits(i: nat, len: int, k: nat)
    requires i % 16 == 0 && i < len <= 16 * k
    ensures i + 16 <= 16 * k
  {
  }

  method SwapGroup(a: array<byte>, b: array<byte>, i: nat)
    requires i + 16 <= a.Length && i + 16 <= b.Length && a != b
    modifies b
    ensures forall k :: i <= k < i + 16 ==> b[k] == a[2 * i + 15 - k]
    ensures forall k :: 0 <= k < b.Length && !(i <= k < i + 16) ==> b[k] == old(b[k])
  {
    SwapEight(a, b, i, i + 15);
    SwapEight(a, b, i + 8, i + 7);
  }

  /** Half of the unrolled assignments: eight cells from i up, read from j down. */
  method SwapEight(a: array<byte>, b: array<byte>, i: nat, j: nat)
    requires j < a.Length && j >= 7 && i + 8 <= b.Length && a != b
    modifies b
    ensures forall k :: i <= k < i + 8 ==> b[k] == a[j + i - k]
    ensures forall k :: 0 <= k < b.Length && !(i <= k < i + 8) ==> b[k] == old(b[k])
  {
    b[i + 0] := a[j - 0];
    b[i + 1] := a[j - 1];
    b[i + 2] := a[j - 2];
    b[i + 3] := a[j - 3];
    b[i + 4] := a[j - 4];
    b[i + 5] := a[j - 5];
    b[i + 6] := a[j - 6];
    b[i + 7] := a[j - 7];
  }

  lemma {:induction false} SwappedGroup(i: nat)
    requires i % 16 == 0
    ensures forall k :: i <= k < i + 16 ==> i <= Swapped16(k) < i + 16 && Swapped16(k) == 2 * i + 15 - k
  {
  }

  lemma {:induction false} SwapTwice(i: nat)
    ensures Swapped16(Swapped16(i)) == i
  {
  }
}
