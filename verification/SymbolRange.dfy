/** Where a sub-channel lies in the symbols of a frame. */
module SymbolRange {
  import opened Tables

  const CUS_PER_SYMBOL := 48
  const MSC_START := 5
  const SYMBOLS_PER_CIF := 18
  const LAST_SYMBOL := 76
  const CUS_PER_CIF := 864
  const BITS_PER_CU := 64
  const BITS_PER_SYMBOL := 3072

  /** First and last symbol of the sub-channel in each of the four CIFs, and its first capacity
      unit within the first symbol. */
  datatype SymRange = SymRange(start: seq<nat>, end: seq<nat>, startcu: nat, endcu: nat, numsyms: nat)

  /** What `startsym` leaves in the structure. */
  predicate RangeOf(r: SymRange, startaddr: nat, subchsz: nat) {
    && |r.start| == |r.end| == 4
    && (forall j :: 0 <= j < 4 ==>
        && r.start[j] == startaddr / CUS_PER_SYMBOL + MSC_START + SYMBOLS_PER_CIF * j
        && r.end[j] == (startaddr + subchsz) / CUS_PER_SYMBOL + MSC_START + SYMBOLS_PER_CIF * j)
    && r.startcu == startaddr % CUS_PER_SYMBOL && r.endcu == (startaddr + subchsz) % CUS_PER_SYMBOL
    && r.numsyms == (startaddr + subchsz) / CUS_PER_SYMBOL - startaddr / CUS_PER_SYMBOL + 1
  }

  /** `startsym` */
  method StartSym(startaddr: nat, subchsz: nat) returns (r: SymRange)
    ensures RangeOf(r, startaddr, subchsz)
  {
    var start, end := new nat[4], new nat[4];
    start[0] := startaddr / CUS_PER_SYMBOL + MSC_START;
    end[0] := (startaddr + subchsz) / CUS_PER_SYMBOL + MSC_START;
    for i := 0 to 3
      invariant forall j :: 0 <= j <= i ==>
        start[j] == start[0] + SYMBOLS_PER_CIF * j && end[j] == end[0] + SYMBOLS_PER_CIF * j
      invariant start[0] == startaddr / CUS_PER_SYMBOL + MSC_START
      invariant end[0] == (startaddr + subchsz) / CUS_PER_SYMBOL + MSC_START
    {
      start[i + 1] := start[i] + SYMBOLS_PER_CIF;
      end[i + 1] := end[i] + SYMBOLS_PER_CIF;
    }
    var e: nat := (startaddr + subchsz) / CUS_PER_SYMBOL;
    r := SymRange(start[..], end[..], startaddr % CUS_PER_SYMBOL, (startaddr + subchsz) % CUS_PER_SYMBOL,
                  end[0] - start[0] + 1);
  }

  /** The symbols of the range hold the whole sub-channel: no read at 64 * startcu + i leaves them. */
  lemma {:induction false} RangeHolds(r: SymRange, startaddr: nat, subchsz: nat)
    requires RangeOf(r, startaddr, subchsz)
    ensures BITS_PER_CU * r.startcu + BITS_PER_CU * subchsz <= r.numsyms * BITS_PER_SYMBOL
  {
    var a, e := startaddr / 48, (startaddr + subchsz) / 48;
    assert startaddr + subchsz < 48 * (e + 1);
    assert r.startcu + subchsz == startaddr + subchsz - 48 * a < 48 * (e + 1 - a);
  }

  /** The four ranges lie one after the other within the symbols 5 to 76 exactly when the sub-channel
      ends before the last capacity unit of the CIF. */
  lemma {:induction false} RangesFit(r: SymRange, startaddr: nat, subchsz: nat)
    requires RangeOf(r, startaddr, subchsz) && startaddr + subchsz <= CUS_PER_CIF
    ensures startaddr + subchsz < CUS_PER_CIF <==> r.end[3] <= LAST_SYMBOL
    ensures startaddr + subchsz < CUS_PER_CIF ==>
              forall j :: 0 <= j < 3 ==> r.start[j] <= r.end[j] < r.start[j + 1]
    ensures MSC_START <= r.start[0] && r.end[3] <= 77
  {
  }
}
