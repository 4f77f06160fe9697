/** The protection profiles: sub-channel sizes, block lengths and puncturing vectors. */
module Tables {

  /** Sub-channel data. */
  datatype Subch = Subch(subchid: int, startaddr: int, subchsz: int, bitrate: int,
                         eepprot: bool, protlvl: int, uepIndx: int, dabplus: bool)

  /** Block lengths l (in blocks of 128 symbols) and puncturing vectors pi of unequal error protection. */
  datatype UepProf = UepProf(bitrate: nat, subchsz: nat, protlvl: nat,
                             l0: nat, l1: nat, l2: nat, l3: nat,
                             pi0: int, pi1: int, pi2: int, pi3: int, padbits: nat)

  function UepTable(i: nat): UepProf
    requires i < 64
  {
    if i < 16 then UepTable0(i)
    else if i < 32 then UepTable1(i)
    else if i < 48 then UepTable2(i)
    else UepTable3(i)
  }

  function UepTable0(i: nat): UepProf
    requires 0 <= i < 16
  {
    match i
    case 0 => UepProf(32, 16, 5, 3, 4, 17, 0, 4, 2, 1, -1, 0)
    case 1 => UepProf(32, 21, 4, 3, 3, 18, 0, 10, 5, 4, -1, 0)
    case 2 => UepProf(32, 24, 3, 3, 4, 14, 3, 14, 8, 5, 7, 0)
    case 3 => UepProf(32, 29, 2, 3, 4, 14, 3, 21, 12, 7, 12, 0)
    case 4 => UepProf(32, 35, 1, 3, 5, 13, 3, 23, 16, 11, 16, 4)
    case 5 => UepProf(48, 24, 5, 4, 3, 26, 3, 4, 3, 1, 2, 0)
    case 6 => UepProf(48, 29, 4, 3, 4, 26, 3, 8, 5, 3, 5, 0)
    case 7 => UepProf(48, 35, 3, 3, 4, 26, 3, 14, 9, 5, 8, 4)
    case 8 => UepProf(48, 42, 2, 3, 4, 26, 3, 23, 13, 7, 14, 0)
    case 9 => UepProf(48, 52, 1, 3, 5, 25, 3, 23, 17, 12, 17, 0)
    case 10 => UepProf(56, 29, 5, 6, 10, 23, 3, 4, 3, 1, 2, 0)
    case 11 => UepProf(56, 35, 4, 6, 10, 23, 3, 8, 5, 3, 4, 0)
    case 12 => UepProf(56, 42, 3, 6, 12, 21, 3, 15, 6, 5, 8, 0)
    case 13 => UepProf(56, 52, 2, 6, 10, 23, 3, 22, 12, 7, 12, 8)
    case 14 => UepProf(64, 32, 5, 6, 9, 31, 2, 4, 2, 1, 2, 0)
    case _ => UepProf(64, 42, 4, 6, 9, 33, 0, 10, 5, 4, -1, 0)
  }

  function UepTable1(i: nat): UepProf
    requires 16 <= i < 32
  {
    match i
    case 16 => UepProf(64, 48, 3, 6, 12, 27, 3, 15, 7, 5, 8, 0)
    case 17 => UepProf(64, 58, 2, 6, 10, 29, 3, 22, 12, 7, 12, 8)
    case 18 => UepProf(64, 70, 1, 6, 11, 28, 3, 23, 17, 11, 17, 4)
    case 19 => UepProf(80, 40, 5, 6, 10, 41, 3, 5, 2, 1, 2, 0)
    case 20 => UepProf(80, 52, 4, 6, 10, 41, 3, 10, 5, 4, 5, 0)
    case 21 => UepProf(80, 58, 3, 6, 11, 40, 3, 15, 7, 5, 6, 0)
    case 22 => UepProf(80, 70, 2, 6, 10, 41, 3, 22, 12, 7, 12, 8)
    case 23 => UepProf(80, 84, 1, 6, 10, 41, 3, 23, 16, 11, 17, 4)
    case 24 => UepProf(96, 48, 5, 7, 9, 53, 3, 4, 3, 1, 3, 0)
    case 25 => UepProf(96, 58, 4, 7, 10, 52, 3, 8, 5, 3, 5, 0)
    case 26 => UepProf(96, 70, 3, 6, 12, 51, 3, 15, 8, 5, 9, 4)
    case 27 => UepProf(96, 84, 2, 6, 10, 53, 3, 21, 11, 8, 11, 0)
    case 28 => UepProf(96, 104, 1, 6, 13, 50, 3, 23, 17, 12, 18, 0)
    case 29 => UepProf(112, 58, 5, 14, 17, 50, 3, 4, 3, 1, 4, 0)
    case 30 => UepProf(112, 70, 4, 11, 21, 49, 3, 8, 5, 3, 7, 0)
    case _ => UepProf(112, 84, 3, 11, 23, 47, 3, 15, 7, 5, 8, 0)
  }

  function UepTable2(i: nat): UepProf
    requires 32 <= i < 48
  {
    match i
    case 32 => UepProf(112, 104, 2, 11, 21, 49, 3, 22, 11, 8, 13, 4)
    case 33 => UepProf(128, 64, 5, 12, 19, 62, 3, 4, 2, 1, 3, 0)
    case 34 => UepProf(128, 84, 4, 11, 21, 61, 3, 10, 5, 4, 6, 0)
    case 35 => UepProf(128, 96, 3, 11, 22, 60, 3, 15, 8, 5, 9, 4)
    case 36 => UepProf(128, 116, 2, 11, 21, 61, 3, 21, 11, 8, 13, 0)
    case 37 => UepProf(128, 140, 1, 11, 20, 62, 3, 23, 16, 12, 18, 8)
    case 38 => UepProf(160, 80, 5, 11, 19, 87, 3, 4, 3, 1, 3, 0)
    case 39 => UepProf(160, 104, 4, 11, 23, 83, 3, 10, 5, 4, 8, 0)
    case 40 => UepProf(160, 116, 3, 11, 24, 82, 3, 15, 7, 5, 10, 0)
    case 41 => UepProf(160, 140, 2, 11, 21, 85, 3, 21, 10, 8, 12, 0)
    case 42 => UepProf(160, 168, 1, 11, 22, 84, 3, 23, 17, 11, 18, 0)
    case 43 => UepProf(192, 96, 5, 11, 20, 110, 3, 5, 3, 1, 4, 0)
    case 44 => UepProf(192, 116, 4, 11, 22, 108, 3, 9, 5, 3, 8, 0)
    case 45 => UepProf(192, 140, 3, 11, 24, 106, 3, 15, 9, 5, 10, 0)
    case 46 => UepProf(192, 168, 2, 11, 20, 110, 3, 21, 12, 8, 12, 8)
    case _ => UepProf(192, 208, 1, 11, 21, 109, 3, 23, 19, 12, 23, 0)
  }

  function UepTable3(i: nat): UepProf
    requires 48 <= i < 64
  {
    match i
    case 48 => UepProf(224, 116, 5, 12, 22, 131, 3, 7, 5, 1, 5, 4)
    case 49 => UepProf(224, 140, 4, 12, 26, 127, 3, 11, 7, 3, 10, 0)
    case 50 => UepProf(224, 168, 3, 11, 20, 134, 3, 15, 9, 6, 8, 0)
    case 51 => UepProf(224, 208, 2, 11, 22, 132, 3, 23, 15, 9, 14, 0)
    case 52 => UepProf(224, 232, 1, 11, 24, 130, 3, 23, 19, 11, 19, 4)
    case 53 => UepProf(256, 128, 5, 11, 24, 154, 3, 5, 4, 1, 4, 0)
    case 54 => UepProf(256, 168, 4, 11, 24, 154, 3, 11, 8, 4, 9, 4)
    case 55 => UepProf(256, 192, 3, 11, 27, 151, 3, 15, 9, 6, 9, 0)
    case 56 => UepProf(256, 232, 2, 11, 22, 156, 3, 23, 13, 9, 12, 8)
    case 57 => UepProf(256, 280, 1, 11, 26, 152, 3, 23, 18, 13, 17, 4)
    case 58 => UepProf(320, 160, 5, 11, 26, 200, 3, 7, 4, 1, 5, 4)
    case 59 => UepProf(320, 208, 4, 11, 25, 201, 3, 12, 8, 4, 9, 8)
    case 60 => UepProf(320, 280, 2, 11, 26, 200, 3, 23, 16, 8, 16, 0)
    case 61 => UepProf(384, 192, 5, 11, 27, 247, 3, 7, 5, 1, 6, 0)
    case 62 => UepProf(384, 280, 3, 11, 24, 250, 3, 15, 8, 6, 9, 4)
    case _ => UepProf(384, 416, 1, 12, 28, 245, 3, 23, 19, 13, 22, 8)
  }

  /** Equal error protection: the two block lengths are linear in the size of the sub-channel. */
  datatype EepProf = EepProf(sizemul: nat, ratemul: nat, mul0: int, offset0: int, mul1: int, offset1: int,
                             pi0: nat, pi1: nat)

  function EepTable(protlvl: nat): EepProf
    requires protlvl < 8
  {
    match protlvl
    case 0 => EepProf(12, 8, 6, -3, 0, 3, 23, 22)
    case 1 => EepProf(8, 8, 2, -3, 4, 3, 13, 12)
    case 2 => EepProf(6, 8, 6, -3, 0, 3, 7, 6)
    case 3 => EepProf(4, 8, 4, -3, 2, 3, 2, 1)
    case 4 => EepProf(27, 32, 24, -3, 0, 3, 9, 8)
    case 5 => EepProf(21, 32, 24, -3, 0, 3, 5, 4)
    case 6 => EepProf(18, 32, 24, -3, 0, 3, 3, 2)
    case _ => EepProf(15, 32, 24, -3, 0, 3, 1, 0)
  }

  /** Level 2-A at 8 kbit/s, with the vectors as the source writes them. */
  function Eep2a8kbps(): EepProf {
    EepProf(8, 8, 0, 5, 0, 1, 3, 12)
  }

  /** Symbols kept by block length l (times 128) with vector pi: pi + 9 of every 32. */
  function KeptBy(l: nat, pi: int): int {
    4 * l * (pi + 9)
  }

  /** What section 11.3.1 of EN 300 401 demands of a row. */
  predicate UepRowFits(p: UepProf) {
    && (p.l0 > 0 ==> 0 <= p.pi0 < 24) && (p.l1 > 0 ==> 0 <= p.pi1 < 24)
    && (p.l2 > 0 ==> 0 <= p.pi2 < 24) && (p.l3 > 0 ==> 0 <= p.pi3 < 24)
    && 128 * (p.l0 + p.l1 + p.l2 + p.l3) == 96 * p.bitrate
    && KeptBy(p.l0, p.pi0) + KeptBy(p.l1, p.pi1) + KeptBy(p.l2, p.pi2) + KeptBy(p.l3, p.pi3) + 12 + p.padbits
       == 64 * p.subchsz
  }

  lemma {:induction false} UepRowFitsAt(i: nat)
    requires i < 64
    ensures UepRowFits(UepTable(i))
  {
    if i < 16 {
      Rows0(i);
    } else if i < 32 {
      Rows1(i);
    } else if i < 48 {
      Rows2(i);
    } else {
      Rows3(i);
    }
  }

  lemma {:induction false} Rows0(i: nat)
    requires 0 <= i < 16
    ensures UepRowFits(UepTable0(i))
  {
  }

  lemma {:induction false} Rows1(i: nat)
    requires 16 <= i < 32
    ensures UepRowFits(UepTable1(i))
  {
  }

  lemma {:induction false} Rows2(i: nat)
    requires 32 <= i < 48
    ensures UepRowFits(UepTable2(i))
  {
  }

  lemma {:induction false} Rows3(i: nat)
    requires 48 <= i < 64
    ensures UepRowFits(UepTable3(i))
  {
  }
}
