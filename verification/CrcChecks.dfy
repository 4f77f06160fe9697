/** The three table-driven CRC checks and the bit-serial one. */
module CrcChecks {
  import opened Bits
  import opened ByteBits
  import opened CrcRegister
  import opened CrcTable
  import CrcCcitt
  import CrcAudio
  import CrcFire

  /** `((crc >> 8) ^ *ptr++) & 0xff` */
  function TableIndex(c: bv16, w: bv16): bv16 {
    ((c >> 8) ^ w) & 0xff
  }

  lemma TableIndexBound(c: bv16, w: bv16)
    ensures Index(TableIndex(c, w), 8) < 256
  {
    hide Index;
    IndexBound(TableIndex(c, w), 8);
    assert Pow2(8) == 256;
  }

  /** `(crc << 8) ^ tab[...]`, one step of the table-driven loops. */
  function TableStep(tab: seq<bv16>, crc: bv16, b: byte): bv16
    requires |tab| == 256
  {
    TableIndexBound(crc, ToWord(b));
    Add(High(crc), tab[Index(TableIndex(crc, ToWord(b)), 8)])
  }

  lemma EightZeros(poly: bv16, v: bv16)
    ensures Zeros(poly, v, 8) == Eight(poly, v)
  {
    hide ZeroStep;
    var w := Two(poly, Two(poly, v));
    assert Zeros(poly, v, 8) == Zeros(poly, Two(poly, v), 6);
    assert Zeros(poly, Two(poly, v), 6) == Zeros(poly, w, 4);
    assert Zeros(poly, w, 4) == Zeros(poly, Two(poly, w), 2);
  }

  /** The window of the eight bits of a byte is the byte as a word, in the upper half. */
  lemma {:induction false} ByteWindow(x: seq<bit>, i: nat, b: byte)
    requires i + 8 <= |x|
    requires forall k :: i <= k < i + 8 ==> x[k] == BitAt(b, 7 + i - k)
    ensures Window(x, i, 8) == High(ToWord(b))
  {
    hide BitAt, ToWord;
    var d0, d1, d2, d3 := BitAt(b, 0), BitAt(b, 1), BitAt(b, 2), BitAt(b, 3);
    var d4, d5, d6, d7 := BitAt(b, 4), BitAt(b, 5), BitAt(b, 6), BitAt(b, 7);
    WindowEight(x, i, d7, d6, d5, d4, d3, d2, d1, d0);
    ByteOfDigits(b);
    WordOfDigits(d0, d1, d2, d3, d4, d5, d6, d7);
    JoinIsPush(d7, d6, d5, d4, d3, d2, d1, d0);
  }

  lemma {:induction false} WindowEight(x: seq<bit>, i: nat, a: bit, b: bit, c: bit, d: bit, e: bit, f: bit, g: bit, h: bit)
    requires i + 8 <= |x|
    requires x[i] == a && x[i + 1] == b && x[i + 2] == c && x[i + 3] == d
    requires x[i + 4] == e && x[i + 5] == f && x[i + 6] == g && x[i + 7] == h
    ensures Window(x, i, 8) == JoinEight(a, b, c, d, e, f, g, h)
  {
    hide Join, TopBit;
    assert Window(x, i + 6, 2) == Join(TopBit(g), Join(TopBit(h), 0));
    assert Window(x, i + 4, 4) == Join(TopBit(e), Join(TopBit(f), Window(x, i + 6, 2)));
    assert Window(x, i + 2, 6) == Join(TopBit(c), Join(TopBit(d), Window(x, i + 4, 4)));
  }

  function JoinEight(a: bit, b: bit, c: bit, d: bit, e: bit, f: bit, g: bit, h: bit): bv16 {
    Join(TopBit(a), Join(TopBit(b), Join(TopBit(c), Join(TopBit(d),
      Join(TopBit(e), Join(TopBit(f), Join(TopBit(g), Join(TopBit(h), 0))))))))
  }

  function PushEight(a: bit, b: bit, c: bit, d: bit, e: bit, f: bit, g: bit, h: bit): bv16 {
    Push(Push(Push(Push(Push(Push(Push(Push(0, a), b), c), d), e), f), g), h)
  }

  lemma {:induction false} JoinIsPush(a: bit, b: bit, c: bit, d: bit, e: bit, f: bit, g: bit, h: bit)
    ensures JoinEight(a, b, c, d, e, f, g, h) == High(PushEight(a, b, c, d, e, f, g, h))
  {
  }

  lemma {:induction false} WordOfDigits(a: bit, b: bit, c: bit, d: bit, e: bit, f: bit, g: bit, h: bit)
    ensures ToWord(Byte(a, b, c, d, e, f, g, h)) == PushEight(h, g, f, e, d, c, b, a)
  {
    hide ToWord, Push;
    var w7: nat := h;
    var w6: nat := g + 2 * w7;
    var w5: nat := f + 2 * w6;
    var w4: nat := e + 2 * w5;
    var w3: nat := d + 2 * w4;
    var w2: nat := c + 2 * w3;
    var w1: nat := b + 2 * w2;
    ToWordStep(w1, a);
    ToWordStep(w2, b);
    ToWordStep(w3, c);
    ToWordStep(w4, d);
    ToWordStep(w5, e);
    ToWordStep(w6, f);
    ToWordStep(w7, g);
    ToWordStep(0, h);
    ToWordZero();
  }

  /** One table step is eight steps of the division. */
  lemma {:induction false} TableStepIsDivision(poly: bv16, init: bv16, tab: seq<bv16>, x: seq<bit>, i: nat, b: byte)
    requires |tab| == 256 && IsTable(poly, tab) && i + 8 <= |x|
    requires forall k :: i <= k < i + 8 ==> x[k] == BitAt(b, 7 + i - k)
    ensures TableStep(tab, Crc(poly, init, x, i), b) == Crc(poly, init, x, i + 8)
  {
    hide BitAt, ToWord, Crc, Window, Add, Eight, Index, High, IsTable;
    var c := Crc(poly, init, x, i);
    FeedWindow(poly, init, x, i, 8);
    ByteWindow(x, i, b);
    EightZeros(poly, Add(c, High(ToWord(b))));
    WordFits(b);
    StepParts(poly, tab, c, ToWord(b));
  }

  lemma {:induction false} WordFits(b: byte)
    ensures ToWord(b) & 0xff00 == 0
  {
    hide BitAt, ToWord, Push;
    ByteOfDigits(b);
    WordOfDigits(BitAt(b, 0), BitAt(b, 1), BitAt(b, 2), BitAt(b, 3), BitAt(b, 4), BitAt(b, 5), BitAt(b, 6), BitAt(b, 7));
    PushFits(BitAt(b, 7), BitAt(b, 6), BitAt(b, 5), BitAt(b, 4), BitAt(b, 3), BitAt(b, 2), BitAt(b, 1), BitAt(b, 0));
  }

  lemma {:induction false} PushFits(a: bit, b: bit, c: bit, d: bit, e: bit, f: bit, g: bit, h: bit)
    ensures PushEight(a, b, c, d, e, f, g, h) & 0xff00 == 0
  {
  }

  lemma {:induction false} StepParts(poly: bv16, tab: seq<bv16>, c: bv16, w: bv16)
    requires |tab| == 256 && IsTable(poly, tab) && w & 0xff00 == 0
    ensures Index(TableIndex(c, w), 8) < 256
    ensures Add(High(c), tab[Index(TableIndex(c, w), 8)]) == Eight(poly, Add(c, High(w)))
  {
    hide Index, ToWord, Eight, Add, High;
    var v := TableIndex(c, w);
    TableIndexBound(c, w);
    IndexFits(c, w);
    ToWordOfIndex(v, 8);
    var low := LowByte(c);
    SplitLow(c, w);
    EightLinear(poly, low, High(v));
    LowEight(poly, low);
    HighLow(c);
  }

  function LowByte(c: bv16): bv16 {
    c & 0xff
  }

  lemma HighLow(c: bv16)
    ensures High(LowByte(c)) == High(c)
  {
  }

  lemma IndexFits(c: bv16, w: bv16)
    ensures Fits(TableIndex(c, w), 8)
  {
    FitsByte(TableIndex(c, w));
  }

  lemma FitsByte(v: bv16)
    requires v & 0xff00 == 0
    ensures Fits(v, 8)
  {
  }

  lemma SplitLow(c: bv16, w: bv16)
    requires w & 0xff00 == 0
    ensures Add(c, High(w)) == Add(LowByte(c), High(TableIndex(c, w)))
  {
  }

  lemma LowEight(poly: bv16, low: bv16)
    requires low & 0xff00 == 0
    ensures Eight(poly, low) == High(low)
  {
  }

  /** The bits of the first n bytes do not depend on the others. */
  lemma {:induction false} DataBitsOf(data: seq<byte>, i: nat)
    requires i < |data|
    ensures forall k :: 8 * i <= k < 8 * i + 8 ==> DataBits(data)[k] == BitAt(data[i], 7 + 8 * i - k)
  {
    hide BitAt;
    forall k | 8 * i <= k < 8 * i + 8 ensures DataBits(data)[k] == BitAt(data[i], 7 + 8 * i - k) {
      assert k / 8 == i && k % 8 == k - 8 * i;
    }
  }

  /** The register after a whole message of bytes. */
  function Remainder(poly: bv16, init: bv16, data: seq<byte>): bv16 {
    Crc(poly, init, DataBits(data), 8 * |data|)
  }

  method TableLoop(poly: bv16, tab: seq<bv16>, init: bv16, buf: array<byte>, start: nat, len: nat) returns (crc: bv16)
    requires |tab| == 256 && IsTable(poly, tab) && start + len <= buf.Length
    ensures crc == Remainder(poly, init, buf[start..start + len])
  {
    hide Crc, TableStep, IsTable, BitAt;
    ghost var data := buf[start..start + len];
    crc := init;
    NothingFed(poly, init, DataBits(data));
    var n, ptr := len, start;
    while n > 0
      invariant 0 <= n <= len && ptr == start + len - n
      invariant crc == Crc(poly, init, DataBits(data), 8 * (len - n))
    {
      DataBitsOf(data, len - n);
      assert data[len - n] == buf[ptr];
      TableStepIsDivision(poly, init, tab, DataBits(data), 8 * (len - n), buf[ptr]);
      crc := TableStep(tab, crc, buf[ptr]);
      ptr := ptr + 1;
      n := n - 1;
    }
  }

  lemma {:induction false} NothingFed(poly: bv16, init: bv16, x: seq<bit>)
    ensures Crc(poly, init, x, 0) == init
  {
  }

  /** `crccheck` */
  method CrcCheck(buf: array<byte>, len: nat) returns (ok: bool)
    requires len <= buf.Length
    ensures ok <==> Remainder(CrcCcitt.POLY, 0xffff, buf[..len]) == 0
  {
    var tab := CrcCcitt.Table();
    var crc := TableLoop(CrcCcitt.POLY, tab, 0xffff, buf, 0, len);
    ok := crc == 0;
  }

  /** `crc16check` */
  method Crc16Check(buf: array<byte>, len: nat) returns (ok: bool)
    requires len <= buf.Length
    ensures ok <==> Remainder(CrcAudio.POLY, 0xffff, buf[..len]) == 0
  {
    var tab := CrcAudio.Table();
    var crc := TableLoop(CrcAudio.POLY, tab, 0xffff, buf, 0, len);
    ok := crc == 0;
  }

  /** `firecrccheck`: accepts exactly when bytes 2 to 10 followed by bytes 0 and 1 leave no remainder. */
  method FireCrcCheck(buf: array<byte>) returns (ok: bool)
    requires buf.Length >= 11
    ensures ok <==> Remainder(CrcFire.POLY, 0, buf[2..11] + buf[..2]) == 0
  {
    hide Remainder, ToWord, Word;
    var tab := CrcFire.Table();
    var crc := TableLoop(CrcFire.POLY, tab, 0, buf, 2, 9);
    ok := UpperByte(crc) == ToWord(buf[0]) && LowByte(crc) == ToWord(buf[1]);
    AppendedRemainder(CrcFire.POLY, 0, buf[2..11], buf[0], buf[1]);
    WordFits(buf[0]);
    WordFits(buf[1]);
    BytesOfWord(crc, ToWord(buf[0]), ToWord(buf[1]));
    assert buf[2..11] + [buf[0], buf[1]] == buf[2..11] + buf[..2];
  }

  lemma BytesOfWord(c: bv16, h: bv16, l: bv16)
    requires h & 0xff00 == 0 && l & 0xff00 == 0
    ensures c == Word(h, l) <==> UpperByte(c) == h && LowByte(c) == l
  {
    hide Word, UpperByte, LowByte;
    WordParts(h, l);
    PartsWord(c);
  }

  function UpperByte(c: bv16): bv16 {
    (c >> 8) & 0xff
  }

  lemma WordParts(h: bv16, l: bv16)
    requires h & 0xff00 == 0 && l & 0xff00 == 0
    ensures UpperByte(Word(h, l)) == h && LowByte(Word(h, l)) == l
  {
  }

  lemma PartsWord(c: bv16)
    ensures c == Word(UpperByte(c), LowByte(c))
  {
  }

  /** A message with two more bytes leaves no remainder if and only if these bytes are its remainder. */
  lemma {:induction false} AppendedRemainder(poly: bv16, init: bv16, data: seq<byte>, h: byte, l: byte)
    requires poly & 1 == 1
    ensures Remainder(poly, init, data + [h, l]) == 0 <==> Remainder(poly, init, data) == Word(ToWord(h), ToWord(l))
  {
    hide Crc, BitAt, ToWord, High, DataBits, Word, Window;
    var all, n := data + [h, l], 8 * |data|;
    var x := DataBits(all);
    AcceptedIff(poly, init, x, n);
    PrefixBits(data, [h, l]);
    SamePrefix(poly, init, x, DataBits(data), n);
    DataBitsOf(all, |data|);
    DataBitsOf(all, |data| + 1);
    ByteWindow(x, n, h);
    ByteWindow(x, n + 8, l);
    WordFits(l);
    WindowIsWord(x, n, ToWord(h), ToWord(l));
  }

  function Word(h: bv16, l: bv16): bv16 {
    High(h) | l
  }

  lemma {:induction false} WindowIsWord(x: seq<bit>, n: nat, h: bv16, l: bv16)
    requires n + 16 <= |x| && l & 0xff00 == 0
    requires Window(x, n, 8) == High(h) && Window(x, n + 8, 8) == High(l)
    ensures Window(x, n, 16) == Word(h, l)
  {
    hide Window;
    TwoBytes(x, n);
    JoinBytes(l);
  }

  lemma {:induction false} PrefixBits(data: seq<byte>, more: seq<byte>)
    ensures forall k :: 0 <= k < 8 * |data| ==> DataBits(data + more)[k] == DataBits(data)[k]
  {
  }

  lemma {:induction false} TwoBytes(x: seq<bit>, n: nat)
    requires n + 16 <= |x|
    ensures Window(x, n, 16) == Window(x, n, 8) | (Window(x, n + 8, 8) >> 8)
  {
  }

  lemma JoinBytes(w: bv16)
    requires w & 0xff00 == 0
    ensures High(w) >> 8 == w
  {
  }

  /** A burst of at most 16 bits anywhere in a message of bytes changes the remainder: of two such
      messages, at most one is accepted by any of the checks. */
  lemma {:induction false} BurstNeverAccepted(poly: bv16, init: bv16, a: seq<byte>, b: seq<byte>, i: nat)
    requires poly & 1 == 1 && |a| == |b| && a != b
    requires forall k :: 0 <= k < 8 * |a| && !(i <= k < i + 16) ==> DataBits(a)[k] == DataBits(b)[k]
    ensures !(Remainder(poly, init, a) == 0 && Remainder(poly, init, b) == 0)
  {
    hide DataBits, Crc;
    if DataBits(a) == DataBits(b) {
      PackUndoesBits(true, a);
      PackUndoesBits(true, b);
    } else {
      BurstDetected(poly, init, DataBits(a), DataBits(b), i);
    }
  }

  // The bit-serial check works on the reflected register.

  /** `c15 = (crc & 1) ^ bit; crc = crc >> 1; if (c15) crc ^= CRC_POLY;` */
  function SerialStep(crc: bv16, b: bit): bv16 {
    ShiftDown(Add(crc, LowBit(b)))
  }

  function ShiftDown(v: bv16): bv16 {
    if v & 1 == 1 then Add(v >> 1, 0x8408) else v >> 1
  }

  function LowBit(b: bit): bv16 {
    if b == 1 then 1 else 0
  }

  function Serial(crc: bv16, x: seq<bit>): bv16 {
    if x == [] then crc else SerialStep(Serial(crc, x[..|x| - 1]), x[|x| - 1])
  }

  /** The word with its bits in reverse order. */
  function Rev(v: bv16): bv16 {
    ((v & 0x0001) << 15) | ((v & 0x0002) << 13) | ((v & 0x0004) << 11) | ((v & 0x0008) << 9) |
    ((v & 0x0010) << 7) | ((v & 0x0020) << 5) | ((v & 0x0040) << 3) | ((v & 0x0080) << 1) |
    ((v & 0x0100) >> 1) | ((v & 0x0200) >> 3) | ((v & 0x0400) >> 5) | ((v & 0x0800) >> 7) |
    ((v & 0x1000) >> 9) | ((v & 0x2000) >> 11) | ((v & 0x4000) >> 13) | ((v & 0x8000) >> 15)
  }

  lemma RevAdd(a: bv16, b: bv16)
    ensures Rev(Add(a, b)) == Add(Rev(a), Rev(b))
  {
  }

  lemma RevShift(v: bv16)
    ensures Rev(v >> 1) == Shift(Rev(v))
  {
  }

  lemma RevTop(v: bv16)
    ensures Rev(v) & 0x8000 == (v & 1) << 15
  {
  }

  lemma LowestDigit(v: bv16)
    ensures v & 1 == 0 || v & 1 == 1
  {
  }

  lemma TopOfRev(v: bv16)
    ensures Top(Rev(v)) <==> v & 1 == 1
  {
    hide Rev;
    RevTop(v);
    LowestDigit(v);
  }

  lemma RevTwice(v: bv16)
    ensures Rev(Rev(v)) == v
  {
  }

  lemma RevConstants()
    ensures Rev(0x8408) == CrcCcitt.POLY && Rev(0xffff) == 0xffff && Rev(0xf0b8) == 0x1d0f
    ensures Rev(1) == 0x8000 && Rev(0) == 0
  {
  }

  /** Reversed, a step of the bit-serial register is a step of the division. */
  lemma {:induction false} RevSerialStep(crc: bv16, b: bit)
    ensures Rev(SerialStep(crc, b)) == BitStep(CrcCcitt.POLY, Rev(crc), b)
  {
    hide Rev, Add, Shift, Top, TopBit, LowBit, ShiftDown, ZeroStep;
    RevAdd(crc, LowBit(b));
    RevLowBit(b);
    RevShiftDown(Add(crc, LowBit(b)));
  }

  lemma {:induction false} RevLowBit(b: bit)
    ensures Rev(LowBit(b)) == TopBit(b)
  {
  }

  lemma RevShiftDown(v: bv16)
    ensures Rev(ShiftDown(v)) == ZeroStep(CrcCcitt.POLY, Rev(v))
  {
    hide Rev, Add, Shift, Top;
    TopOfRev(v);
    RevShift(v);
    RevAdd(v >> 1, 0x8408);
    RevConstants();
  }

  lemma {:induction false} SerialIsDivision(x: seq<bit>, n: nat)
    requires n <= |x|
    ensures Rev(Serial(0xffff, x[..n])) == Crc(CrcCcitt.POLY, 0xffff, x, n)
    decreases n
  {
    hide Rev, SerialStep, BitStep;
    if n > 0 {
      SerialIsDivision(x, n - 1);
      assert x[..n][..n - 1] == x[..n - 1];
      RevSerialStep(Serial(0xffff, x[..n - 1]), x[n - 1]);
    } else {
      RevConstants();
    }
  }

  /** The cells of a buffer, width bits of each, highest first. */
  function Cells(data: seq<byte>, width: nat): seq<bit> {
    if data == [] then [] else Cells(data[..|data| - 1], width) + Cell(data[|data| - 1], width)
  }

  function Cell(v: byte, width: nat): (x: seq<bit>)
    ensures |x| == width
  {
    seq(width, j requires 0 <= j < width => BitAt(v, width - 1 - j))
  }

  const CRC_GOOD: bv16 := 0xf0b8

  /** `crc16`: 0 if the buffer is good. */
  method Crc16(buf: array<byte>, len: nat, width: nat) returns (err: nat)
    requires len <= buf.Length
    ensures err == if Serial(0xffff, Cells(buf[..len], width)) == CRC_GOOD then 0 else 1
  {
    hide SerialStep, BitAt;
    var crc: bv16 := 0xffff;
    for i := 0 to len
      invariant crc == Serial(0xffff, Cells(buf[..i], width))
    {
      assert buf[..i + 1][..i] == buf[..i];
      ghost var before := Cells(buf[..i], width);
      assert before + Cell(buf[i], width)[..0] == before;
      for j := 0 to width
        invariant crc == Serial(0xffff, before + Cell(buf[i], width)[..j])
      {
        ghost var x, y := before + Cell(buf[i], width)[..j], before + Cell(buf[i], width)[..j + 1];
        assert y[..|y| - 1] == x && y[|y| - 1] == BitAt(buf[i], width - 1 - j);
        crc := SerialStep(crc, BitAt(buf[i], width - 1 - j));
      }
      assert before + Cell(buf[i], width)[..width] == Cells(buf[..i + 1], width);
    }
    err := if crc == CRC_GOOD then 0 else 1;
  }

  lemma {:induction false} CellsOfBytes(data: seq<byte>)
    ensures Cells(data, 8) == DataBits(data)
    decreases |data|
  {
    hide BitAt;
    if data != [] {
      var n := |data| - 1;
      CellsOfBytes(data[..n]);
      PrefixBits(data[..n], [data[n]]);
      assert data[..n] + [data[n]] == data;
      DataBitsOf(data, n);
      assert |Cells(data, 8)| == 8 * |data|;
      forall k | 0 <= k < 8 * |data| ensures Cells(data, 8)[k] == DataBits(data)[k] {
      }
    }
  }

  /** Good, for the bit-serial check, means that the division leaves the constant 0x1d0f. */
  lemma {:induction false} SerialGood(x: seq<bit>)
    ensures Serial(0xffff, x) == CRC_GOOD <==> Crc(CrcCcitt.POLY, 0xffff, x, |x|) == 0x1d0f
  {
    hide Rev, Serial, Crc;
    SerialIsDivision(x, |x|);
    assert x[..|x|] == x;
    RevConstants();
    RevTwice(Serial(0xffff, x));
    RevTwice(CRC_GOOD);
  }

  /** y is x with its last 16 bits inverted. */
  predicate TailInverted(x: seq<bit>, y: seq<bit>) {
    |x| == |y| >= 16 && forall k :: 0 <= k < |x| ==> y[k] == if k < |x| - 16 then x[k] else 1 - x[k]
  }

  /** Inverting the last 16 bits adds the constant 0x1d0f to the remainder. */
  lemma {:induction false} InvertedTail(x: seq<bit>, y: seq<bit>, n: nat)
    requires TailInverted(x, y) && |x| == n + 16
    ensures Crc(CrcCcitt.POLY, 0xffff, y, n + 16) == Add(Crc(CrcCcitt.POLY, 0xffff, x, n + 16), 0x1d0f)
  {
    hide Crc, Add, Window, Zeros;
    var p: bv16 := CrcCcitt.POLY;
    SamePrefix(p, 0xffff, x, y, n);
    var c, w := Crc(p, 0xffff, x, n), Window(x, n, 16);
    FeedWindow(p, 0xffff, x, n, 16);
    FeedWindow(p, 0xffff, y, n, 16);
    InvertedWindow(x, y, n, 16);
    FullWindow();
    AddAssoc(c, w, 0xffff);
    ZerosLinear(p, Add(c, w), 0xffff, 16);
    ZerosOfOnes();
  }

  function OnesWindow(l: nat): bv16 {
    if l == 0 then 0 else Join(0x8000, OnesWindow(l - 1))
  }

  lemma FullWindow()
    ensures OnesWindow(16) == 0xffff
  {
    assert OnesWindow(4) == 0xf000;
    assert OnesWindow(8) == 0xff00;
    assert OnesWindow(12) == 0xfff0;
  }

  lemma {:induction false} InvertedWindow(x: seq<bit>, y: seq<bit>, i: nat, l: nat)
    requires |x| == |y| && i + l <= |x| && forall k :: i <= k < i + l ==> y[k] == 1 - x[k]
    ensures Window(y, i, l) == Add(Window(x, i, l), OnesWindow(l))
    decreases l
  {
    hide Join, TopBit, Add;
    if l > 0 {
      InvertedWindow(x, y, i + 1, l - 1);
      InvertedTop(x[i]);
      JoinAdd(TopBit(x[i]), Window(x, i + 1, l - 1), 0x8000, OnesWindow(l - 1));
    } else {
      AddCancel(0, 0);
    }
  }

  lemma {:induction false} InvertedTop(b: bit)
    ensures TopBit(1 - b) == Add(TopBit(b), 0x8000) && (TopBit(b) == 0 || TopBit(b) == 0x8000)
  {
  }

  lemma JoinAdd(t: bv16, v: bv16, u: bv16, w: bv16)
    requires (t == 0 || t == 0x8000) && (u == 0 || u == 0x8000)
    ensures Join(Add(t, u), Add(v, w)) == Add(Join(t, v), Join(u, w))
  {
    hide Join, Add;
    TopSum(t, u);
    JoinParts(Add(t, u), Add(v, w));
    JoinParts(t, v);
    JoinParts(u, w);
    HalfAdd(v, w);
    AddFour(t, u, Join(0, v), Join(0, w));
  }

  lemma TopSum(t: bv16, u: bv16)
    requires (t == 0 || t == 0x8000) && (u == 0 || u == 0x8000)
    ensures Add(t, u) == 0 || Add(t, u) == 0x8000
  {
  }

  lemma HalfAdd(v: bv16, w: bv16)
    ensures Join(0, Add(v, w)) == Add(Join(0, v), Join(0, w))
  {
  }

  lemma ZerosOfOnes()
    ensures Zeros(CrcCcitt.POLY, 0xffff, 16) == 0x1d0f
  {
    var p: bv16 := CrcCcitt.POLY;
    EightZeros(p, 0xffff);
    EightZeros(p, Eight(p, 0xffff));
    ZerosAdd(p, 0xffff, 8, 8);
  }

  lemma {:induction false} ZerosAdd(poly: bv16, v: bv16, m: nat, n: nat)
    ensures Zeros(poly, v, m + n) == Zeros(poly, Zeros(poly, v, m), n)
    decreases m
  {
    hide ZeroStep;
    if m > 0 {
      ZerosAdd(poly, ZeroStep(poly, v), m - 1, n);
    }
  }

  /** data with its last two bytes inverted, as for the access units of a superframe. */
  function LastTwoInverted(data: seq<byte>): (r: seq<byte>)
    requires |data| >= 2
    ensures |r| == |data|
  {
    data[..|data| - 2] + [255 - data[|data| - 2], 255 - data[|data| - 1]]
  }

  lemma {:induction false} InvertedDigit(v: nat, k: nat, j: nat)
    requires v < Pow2(k) && j < k
    ensures BitAt(Pow2(k) - 1 - v, j) == 1 - BitAt(v, j)
    decreases k
  {
    var w := Pow2(k) - 1 - v;
    assert v == 2 * (v / 2) + v % 2;
    assert w == 2 * (Pow2(k - 1) - 1 - v / 2) + (1 - v % 2);
    if j > 0 {
      InvertedDigit(v / 2, k - 1, j - 1);
    }
  }

  lemma {:induction false} InvertedByte(v: byte, j: nat)
    requires j < 8
    ensures BitAt(255 - v, j) == 1 - BitAt(v, j)
  {
    hide BitAt, Pow2;
    Pow2Values();
    InvertedDigit(v, 8, j);
  }

  lemma {:induction false} InvertedBits(data: seq<byte>)
    requires |data| >= 2
    ensures TailInverted(DataBits(data), DataBits(LastTwoInverted(data)))
  {
    hide BitAt;
    var x, y, n := DataBits(data), DataBits(LastTwoInverted(data)), |data| - 2;
    forall k | 0 <= k < |x| ensures y[k] == if k < |x| - 16 then x[k] else 1 - x[k] {
      var i, j := k / 8, 7 - k % 8;
      assert x[k] == BitAt(data[i], j) && y[k] == BitAt(LastTwoInverted(data)[i], j);
      if k >= |x| - 16 {
        assert i >= n;
        InvertedByte(data[i], j);
      }
    }
  }

  /** The two implementations of the CCITT CRC agree: the bit-serial one accepts a buffer exactly when
      the table-driven one accepts it with its last two bytes inverted. */
  lemma {:induction false} ImplementationsAgree(data: seq<byte>)
    requires |data| >= 2
    ensures Serial(0xffff, Cells(data, 8)) == CRC_GOOD
       <==> Remainder(CrcCcitt.POLY, 0xffff, LastTwoInverted(data)) == 0
  {
    hide Serial, Crc, Add, DataBits, Cells, LastTwoInverted;
    CellsOfBytes(data);
    var x := DataBits(data);
    SerialGood(x);
    InvertedBits(data);
    InvertedTail(x, DataBits(LastTwoInverted(data)), 8 * |data| - 16);
    AddEqual(Crc(CrcCcitt.POLY, 0xffff, x, |x|), 0x1d0f);
  }
}
