/** The protection profiles as EN 300 401 lists them, apart from the tables of the receiver. */
module Standard {
  import opened Puncturing
  import opened Tables
  import opened Depuncture

  /** The blocks of section 11.3.2 of EN 300 401 for n units of 8 kbit/s (level A) or 32 kbit/s (level B);
      puncturing vector PI = i of the standard has index i - 1. */
  function StandardEep(protlvl: nat, n: nat): seq<Blk>
    requires protlvl < 8 && n >= 1
  {
    match protlvl
    case 0 => [Blk(6 * n - 3, 24 - 1), Blk(3, 23 - 1)]
    case 1 => if n == 1 then [Blk(5, 13 - 1), Blk(1, 12 - 1)] else [Blk(2 * n - 3, 14 - 1), Blk(4 * n + 3, 13 - 1)]
    case 2 => [Blk(6 * n - 3, 8 - 1), Blk(3, 7 - 1)]
    case 3 => [Blk(4 * n - 3, 3 - 1), Blk(2 * n + 3, 2 - 1)]
    case 4 => [Blk(24 * n - 3, 10 - 1), Blk(3, 9 - 1)]
    case 5 => [Blk(24 * n - 3, 6 - 1), Blk(3, 5 - 1)]
    case 6 => [Blk(24 * n - 3, 4 - 1), Blk(3, 3 - 1)]
    case _ => [Blk(24 * n - 3, 2 - 1), Blk(3, 1 - 1)]
  }

  /** Capacity units that n = 1 takes, and kbit/s that it carries. */
  function UnitSize(protlvl: nat): nat
    requires protlvl < 8
  {
    [12, 8, 6, 4, 27, 21, 18, 15][protlvl]
  }

  function UnitRate(protlvl: nat): nat {
    if protlvl < 4 then 8 else 32
  }

  /** Unequal protection: size of the sub-channel in capacity units, blocks, and padding bits. */
  datatype Uep = Uep(size: nat, blocks: seq<Blk>, padding: nat)

  /** A row of the table in section 11.3.1: block lengths L1 to L4 and vectors PI1 to PI4, where 0 stands
      for none. */
  function Row(size: nat, l1: nat, l2: nat, l3: nat, l4: nat, pi1: nat, pi2: nat, pi3: nat, pi4: nat,
               padding: nat): Uep
  {
    Uep(size, [Blk(l1, pi1 - 1), Blk(l2, pi2 - 1), Blk(l3, pi3 - 1), Blk(l4, pi4 - 1)], padding)
  }

  /** The profile for a bit rate in kbit/s and a protection level, 1 the strongest; not every rate has
      every level. */
  function StandardUep(bitrate: int, level: int): Uep {
    if bitrate == 32 then Uep32(level)
    else if bitrate == 48 then Uep48(level)
    else if bitrate == 56 then Uep56(level)
    else if bitrate == 64 then Uep64(level)
    else if bitrate == 80 then Uep80(level)
    else if bitrate == 96 then Uep96(level)
    else if bitrate == 112 then Uep112(level)
    else if bitrate == 128 then Uep128(level)
    else if bitrate == 160 then Uep160(level)
    else if bitrate == 192 then Uep192(level)
    else if bitrate == 224 then Uep224(level)
    else if bitrate == 256 then Uep256(level)
    else if bitrate == 320 then Uep320(level)
    else if bitrate == 384 then Uep384(level)
    else None()
  }

  function None(): Uep {
    Uep(0, [], 0)
  }

  function Uep32(level: int): Uep {
    match level
    case 1 => Row(35, 3, 5, 13, 3, 24, 17, 12, 17, 4)
    case 2 => Row(29, 3, 4, 14, 3, 22, 13, 8, 13, 0)
    case 3 => Row(24, 3, 4, 14, 3, 15, 9, 6, 8, 0)
    case 4 => Row(21, 3, 3, 18, 0, 11, 6, 5, 0, 0)
    case 5 => Row(16, 3, 4, 17, 0, 5, 3, 2, 0, 0)
    case _ => None()
  }

  function Uep48(level: int): Uep {
    match level
    case 1 => Row(52, 3, 5, 25, 3, 24, 18, 13, 18, 0)
    case 2 => Row(42, 3, 4, 26, 3, 24, 14, 8, 15, 0)
    case 3 => Row(35, 3, 4, 26, 3, 15, 10, 6, 9, 4)
    case 4 => Row(29, 3, 4, 26, 3, 9, 6, 4, 6, 0)
    case 5 => Row(24, 4, 3, 26, 3, 5, 4, 2, 3, 0)
    case _ => None()
  }

  function Uep56(level: int): Uep {
    match level
    case 2 => Row(52, 6, 10, 23, 3, 23, 13, 8, 13, 8)
    case 3 => Row(42, 6, 12, 21, 3, 16, 7, 6, 9, 0)
    case 4 => Row(35, 6, 10, 23, 3, 9, 6, 4, 5, 0)
    case 5 => Row(29, 6, 10, 23, 3, 5, 4, 2, 3, 0)
    case _ => None()
  }

  function Uep64(level: int): Uep {
    match level
    case 1 => Row(70, 6, 11, 28, 3, 24, 18, 12, 18, 4)
    case 2 => Row(58, 6, 10, 29, 3, 23, 13, 8, 13, 8)
    case 3 => Row(48, 6, 12, 27, 3, 16, 8, 6, 9, 0)
    case 4 => Row(42, 6, 9, 33, 0, 11, 6, 5, 0, 0)
    case 5 => Row(32, 6, 9, 31, 2, 5, 3, 2, 3, 0)
    case _ => None()
  }

  function Uep80(level: int): Uep {
    match level
    case 1 => Row(84, 6, 10, 41, 3, 24, 17, 12, 18, 4)
    case 2 => Row(70, 6, 10, 41, 3, 23, 13, 8, 13, 8)
    case 3 => Row(58, 6, 11, 40, 3, 16, 8, 6, 7, 0)
    case 4 => Row(52, 6, 10, 41, 3, 11, 6, 5, 6, 0)
    case 5 => Row(40, 6, 10, 41, 3, 6, 3, 2, 3, 0)
    case _ => None()
  }

  function Uep96(level: int): Uep {
    match level
    case 1 => Row(104, 6, 13, 50, 3, 24, 18, 13, 19, 0)
    case 2 => Row(84, 6, 10, 53, 3, 22, 12, 9, 12, 0)
    case 3 => Row(70, 6, 12, 51, 3, 16, 9, 6, 10, 4)
    case 4 => Row(58, 7, 10, 52, 3, 9, 6, 4, 6, 0)
    case 5 => Row(48, 7, 9, 53, 3, 5, 4, 2, 4, 0)
    case _ => None()
  }

  function Uep112(level: int): Uep {
    match level
    case 2 => Row(104, 11, 21, 49, 3, 23, 12, 9, 14, 4)
    case 3 => Row(84, 11, 23, 47, 3, 16, 8, 6, 9, 0)
    case 4 => Row(70, 11, 21, 49, 3, 9, 6, 4, 8, 0)
    case 5 => Row(58, 14, 17, 50, 3, 5, 4, 2, 5, 0)
    case _ => None()
  }

  function Uep128(level: int): Uep {
    match level
    case 1 => Row(140, 11, 20, 62, 3, 24, 17, 13, 19, 8)
    case 2 => Row(116, 11, 21, 61, 3, 22, 12, 9, 14, 0)
    case 3 => Row(96, 11, 22, 60, 3, 16, 9, 6, 10, 4)
    case 4 => Row(84, 11, 21, 61, 3, 11, 6, 5, 7, 0)
    case 5 => Row(64, 12, 19, 62, 3, 5, 3, 2, 4, 0)
    case _ => None()
  }

  function Uep160(level: int): Uep {
    match level
    case 1 => Row(168, 11, 22, 84, 3, 24, 18, 12, 19, 0)
    case 2 => Row(140, 11, 21, 85, 3, 22, 11, 9, 13, 0)
    case 3 => Row(116, 11, 24, 82, 3, 16, 8, 6, 11, 0)
    case 4 => Row(104, 11, 23, 83, 3, 11, 6, 5, 9, 0)
    case 5 => Row(80, 11, 19, 87, 3, 5, 4, 2, 4, 0)
    case _ => None()
  }

  function Uep192(level: int): Uep {
    match level
    case 1 => Row(208, 11, 21, 109, 3, 24, 20, 13, 24, 0)
    case 2 => Row(168, 11, 20, 110, 3, 22, 13, 9, 13, 8)
    case 3 => Row(140, 11, 24, 106, 3, 16, 10, 6, 11, 0)
    case 4 => Row(116, 11, 22, 108, 3, 10, 6, 4, 9, 0)
    case 5 => Row(96, 11, 20, 110, 3, 6, 4, 2, 5, 0)
    case _ => None()
  }

  function Uep224(level: int): Uep {
    match level
    case 1 => Row(232, 11, 24, 130, 3, 24, 20, 12, 20, 4)
    case 2 => Row(208, 11, 22, 132, 3, 24, 16, 10, 15, 0)
    case 3 => Row(168, 11, 20, 134, 3, 16, 10, 7, 9, 0)
    case 4 => Row(140, 12, 26, 127, 3, 12, 8, 4, 11, 0)
    case 5 => Row(116, 12, 22, 131, 3, 8, 6, 2, 6, 4)
    case _ => None()
  }

  function Uep256(level: int): Uep {
    match level
    case 1 => Row(280, 11, 26, 152, 3, 24, 19, 14, 18, 4)
    case 2 => Row(232, 11, 22, 156, 3, 24, 14, 10, 13, 8)
    case 3 => Row(192, 11, 27, 151, 3, 16, 10, 7, 10, 0)
    case 4 => Row(168, 11, 24, 154, 3, 12, 9, 5, 10, 4)
    case 5 => Row(128, 11, 24, 154, 3, 6, 5, 2, 5, 0)
    case _ => None()
  }

  function Uep320(level: int): Uep {
    match level
    case 2 => Row(280, 11, 26, 200, 3, 24, 17, 9, 17, 0)
    case 4 => Row(208, 11, 25, 201, 3, 13, 9, 5, 10, 8)
    case 5 => Row(160, 11, 26, 200, 3, 8, 5, 2, 6, 4)
    case _ => None()
  }

  function Uep384(level: int): Uep {
    match level
    case 1 => Row(416, 12, 28, 245, 3, 24, 20, 14, 23, 8)
    case 3 => Row(280, 11, 24, 250, 3, 16, 9, 7, 10, 4)
    case 5 => Row(192, 11, 27, 247, 3, 8, 6, 2, 7, 0)
    case _ => None()
  }

  /** A row of the receiver's table says what the standard says for its rate and level. */
  predicate RowIsStandard(p: UepProf) {
    StandardUep(p.bitrate, p.protlvl) == Uep(p.subchsz, UepBlocks(p), p.padbits)
  }

  /** All 64 rows do. */
  lemma {:induction false} TableIsStandard(i: nat)
    requires i < 64
    ensures RowIsStandard(UepTable(i))
  {
    hide UepTable0, UepTable1, UepTable2, UepTable3, RowIsStandard;
    if i < 16 {
      StandardRows0(i);
    } else if i < 32 {
      StandardRows1(i);
    } else if i < 40 {
      StandardRows2(i);
    } else if i < 48 {
      StandardRows3(i);
    } else if i < 56 {
      StandardRows4(i);
    } else {
      StandardRows5(i);
    }
  }

  lemma {:induction false} StandardRows0(i: nat)
    requires 0 <= i < 16
    ensures RowIsStandard(UepTable0(i))
  {
  }

  lemma {:induction false} StandardRows1(i: nat)
    requires 16 <= i < 32
    ensures RowIsStandard(UepTable1(i))
  {
  }

  lemma {:induction false} StandardRows2(i: nat)
    requires 32 <= i < 40
    ensures RowIsStandard(UepTable2(i))
  {
  }

  lemma {:induction false} StandardRows3(i: nat)
    requires 40 <= i < 48
    ensures RowIsStandard(UepTable2(i))
  {
  }

  lemma {:induction false} StandardRows4(i: nat)
    requires 48 <= i < 56
    ensures RowIsStandard(UepTable3(i))
  {
  }

  lemma {:induction false} StandardRows5(i: nat)
    requires 56 <= i < 64
    ensures RowIsStandard(UepTable3(i))
  {
  }

  /** The index runs through the rates upwards and, for each of them, through its levels from the weakest on
      (section 6.2.1). */
  predicate Precedes(p: UepProf, q: UepProf) {
    p.bitrate < q.bitrate || (p.bitrate == q.bitrate && p.protlvl > q.protlvl)
  }

  lemma {:induction false} IndexAscends(i: nat, j: nat)
    requires i < j < 64
    ensures Precedes(UepTable(i), UepTable(j))
    decreases j
  {
    hide UepTable;
    NextRow(j - 1);
    if i < j - 1 {
      IndexAscends(i, j - 1);
    }
  }

  lemma {:induction false} NextRow(i: nat)
    requires i < 63
    ensures Precedes(UepTable(i), UepTable(i + 1))
  {
  }

  /** The last 24 symbols are punctured with 1100 1100 and so on, section 11.1.2. */
  lemma {:induction false} TailOfMask(bs: seq<Blk>, i: nat)
    requires i < 24
    ensures var mask := Mask(bs); |mask| >= 24 && (mask[|mask| - 24 + i] <==> i % 4 < 2)
  {
    hide MaskOf, Rank;
    Ranks();
    assert Mask(bs)[|MaskOf(bs, |bs|)| + i] == Kept(7, i);
  }
}
