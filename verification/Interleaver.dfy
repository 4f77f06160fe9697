/** Frequency interleaving: the table of carriers, the two permutations it drives, and the
    QPSK symbol mapper and demapper. */
module Interleaver {
  import opened Bits
  import opened Lcg

  const CARRIERS := 1536

  predicate Selected(v: int) {
    256 <= v <= 1792 && v != 1024
  }

  /** The selected members among the first n of the generator modulo 2048, in order. */
  function Chosen(n: nat): (t: seq<int>)
    ensures |t| <= n
  {
    if n == 0 then [] else Chosen(n - 1) + (if Selected(Orbit(11, n - 1)) then [Orbit(11, n - 1) - 1024] else [])
  }

  function Table49(): seq<int> {
    Chosen(2048)
  }

  /** The carriers that the table must hold, each exactly once. */
  predicate Carrier(c: int) {
    -768 <= c <= 768 && c != 0
  }

  function Elements(t: seq<int>): set<int> {
    if t == [] then {} else Elements(t[..|t| - 1]) + {t[|t| - 1]}
  }

  lemma {:induction false} ChosenHolds(n: nat, c: int)
    requires n <= 2048
    ensures c in Chosen(n) <==> Carrier(c) && exists i :: 0 <= i < n && Orbit(11, i) == c + 1024
    decreases n
  {
    hide Orbit;
    if n > 0 {
      ChosenHolds(n - 1, c);
      var v: int := Orbit(11, n - 1);
      var t := Chosen(n - 1);
      assert c in Chosen(n) <==> c in t || (Selected(v) && c == v - 1024);
      if c in Chosen(n) && c !in t {
        assert Orbit(11, n - 1) == c + 1024;
      }
    }
  }

  lemma {:induction false} ChosenDistinct(n: nat)
    requires n <= 2048
    ensures forall i, j :: 0 <= i < j < |Chosen(n)| ==> Chosen(n)[i] != Chosen(n)[j]
    decreases n
  {
    hide Orbit;
    if n > 0 {
      ChosenDistinct(n - 1);
      var c: int := Orbit(11, n - 1) - 1024;
      ChosenHolds(n - 1, c);
      if c in Chosen(n - 1) {
        var k: nat :| 0 <= k < n - 1 && Orbit(11, k) == c + 1024;
        Pow2Eleven();
        OrbitInjective(11, k, n - 1);
      }
    }
  }

  lemma Pow2Eleven()
    ensures Pow2(11) == 2048
  {
    Pow2Values();
    assert Pow2(10) == 4 * Pow2(8);
  }

  function Interval(a: int, b: int): set<int>
    decreases b - a
  {
    if b <= a then {} else Interval(a, b - 1) + {b - 1}
  }

  lemma {:induction false} IntervalSize(a: int, b: int)
    requires a <= b
    ensures |Interval(a, b)| == b - a && forall c :: c in Interval(a, b) <==> a <= c < b
    decreases b - a
  {
    if a < b {
      IntervalSize(a, b - 1);
    }
  }

  lemma {:induction false} DistinctElements(t: seq<int>)
    requires forall i, j :: 0 <= i < j < |t| ==> t[i] != t[j]
    ensures |Elements(t)| == |t| && forall c :: c in Elements(t) <==> c in t
    decreases |t|
  {
    if t != [] {
      var s, c := t[..|t| - 1], t[|t| - 1];
      DistinctElements(s);
      assert t == s + [c];
      assert c !in s;
    }
  }

  /** The table holds 1536 entries: every carrier from -768 to 768 but 0, exactly once. */
  lemma TableIsBijective()
    ensures |Table49()| == CARRIERS
    ensures forall i, j :: 0 <= i < j < CARRIERS ==> Table49()[i] != Table49()[j]
    ensures forall c :: c in Table49() <==> Carrier(c)
  {
    hide Chosen, Orbit;
    var t := Table49();
    ChosenDistinct(2048);
    DistinctElements(t);
    forall c ensures c in t <==> Carrier(c) {
      ChosenHolds(2048, c);
      if Carrier(c) {
        Pow2Eleven();
        OrbitSurjective(11, c + 1024);
      }
    }
    CountWithoutZero(Elements(t), -768, 769);
  }

  lemma {:induction false} CountWithoutZero(e: set<int>, a: int, b: int)
    requires a <= 0 < b && forall c :: c in e <==> a <= c < b && c != 0
    ensures |e| == b - a - 1
  {
    IntervalSize(a, b);
    var all := Interval(a, b);
    forall c ensures c in e + {0} <==> c in all {
      assert c in all <==> a <= c < b;
      assert c in e <==> a <= c < b && c != 0;
    }
    assert e + {0} == all && 0 !in e;
  }

  lemma {:induction false} OrbitNext(n: nat)
    ensures Orbit(11, n + 1) == (13 * Orbit(11, n) + 511) % 2048
  {
    hide Orbit, Pow2;
    Pow2Eleven();
    OrbitStep(11, n);
  }

  lemma OrbitStart()
    ensures Orbit(11, 0) == 0 && Chosen(0) == []
  {
  }

  lemma {:induction false} ChosenNext(n: nat)
    ensures Chosen(n + 1) == Chosen(n) + (if Selected(Orbit(11, n)) then [Orbit(11, n) - 1024] else [])
  {
  }

  /** `init_table49` */
  method InitTable49() returns (table49: seq<int>)
    ensures table49 == Table49()
  {
    hide Orbit, Chosen;
    var ki := new nat[2048];
    ki[0] := 0;
    OrbitStart();
    for i := 1 to 2048
      invariant forall j :: 0 <= j < i ==> ki[j] == Orbit(11, j)
    {
      OrbitNext(i - 1);
      ki[i] := (13 * ki[i - 1] + 511) % 2048;
    }
    table49 := [];
    for i := 0 to 2048
      invariant table49 == Chosen(i)
      invariant forall j :: 0 <= j < 2048 ==> ki[j] == Orbit(11, j)
    {
      ChosenNext(i);
      var v: int := ki[i];
      if v >= 256 && v <= 1792 && v != 1024 {
        table49 := table49 + [v - 1024];
      }
    }
  }

  lemma {:induction false} TableEntry(n: nat)
    requires n < CARRIERS
    ensures n < |Table49()| && Carrier(Table49()[n])
  {
    hide Table49;
    TableIsBijective();
    assert Table49()[n] in Table49();
  }

  /** How many carriers of the table have a lower frequency. */
  function CarriersBelow(c: int): nat {
    |set d | d in Table49() && d < c|
  }

  /** The carriers from -768 on follow one another, without 0. */
  lemma {:induction false} CarriersCounted(c: int)
    requires Carrier(c)
    ensures CarriersBelow(c) == if c < 0 then c + 768 else c + 767
  {
    hide Table49;
    TableIsBijective();
    var lower := set d | d in Table49() && d < c;
    var all := Interval(-768, c);
    IntervalSize(-768, c);
    forall d ensures d in lower <==> d in all && d != 0 {
      assert d in Table49() <==> Carrier(d);
    }
    if c < 0 {
      assert lower == all;
    } else {
      assert lower + {0} == all && 0 !in lower;
    }
  }

  /** Cell of the received symbol that goes with entry n of the table: the cells hold the carriers in
      ascending order of frequency. */
  function Perm(n: nat): (k: nat)
    requires n < CARRIERS
    ensures k < CARRIERS
  {
    TableEntry(n);
    CarriersCounted(Table49()[n]);
    CarriersBelow(Table49()[n])
  }

  /** A carrier of higher frequency has a higher cell. */
  lemma {:induction false} CellsAscend(m: nat, n: nat)
    requires m < CARRIERS && n < CARRIERS
    ensures m < |Table49()| && n < |Table49()| && (Table49()[m] < Table49()[n] <==> Perm(m) < Perm(n))
  {
    hide Table49, CarriersBelow;
    TableEntry(m);
    TableEntry(n);
    CarriersCounted(Table49()[m]);
    CarriersCounted(Table49()[n]);
  }

  /** The cell as the loops compute it. */
  lemma {:induction false} PermIsCell(n: nat)
    requires n < CARRIERS
    ensures n < |Table49()| && Table49()[n] != 0
    ensures Perm(n) == if Table49()[n] < 0 then 768 + Table49()[n] else 768 + Table49()[n] - 1
  {
    hide Table49, CarriersBelow;
    TableEntry(n);
    CarriersCounted(Table49()[n]);
  }

  lemma {:induction false} PermInjective(m: nat, n: nat)
    requires m < n < CARRIERS
    ensures Perm(m) != Perm(n)
  {
    hide Table49, Perm;
    TableIsBijective();
    CellsAscend(m, n);
    CellsAscend(n, m);
  }

  lemma {:induction false} PermSurjective(k: nat)
    requires k < CARRIERS
    ensures exists n: nat :: n < CARRIERS && Perm(n) == k
  {
    hide Table49;
    TableIsBijective();
    var c := if k < 768 then k - 768 else k - 767;
    assert c in Table49();
    var n :| 0 <= n < CARRIERS && Table49()[n] == c;
    PermIsCell(n);
    assert Perm(n) == k;
  }

  /** y is q with its pairs moved to the cells of their carriers. */
  ghost predicate Moved(q: seq<byte>, y: seq<byte>)
    requires |q| >= 3072 && |y| >= 3072
  {
    forall n :: 0 <= n < CARRIERS ==> y[2 * Perm(n)] == q[2 * n] && y[2 * Perm(n) + 1] == q[2 * n + 1]
  }

  /** The pairs of q lie in y in the order of the numbers of the table: as many cells before a pair as the
      table has smaller numbers. */
  ghost predicate InOrder(t: seq<int>, q: seq<byte>, y: seq<byte>)
    requires |q| >= 3072 && |y| >= 3072
  {
    |t| == CARRIERS && forall n :: 0 <= n < |t| ==>
      var k := |set d | d in t && d < t[n]|;
      k < CARRIERS && y[2 * k] == q[2 * n] && y[2 * k + 1] == q[2 * n + 1]
  }

  lemma {:induction false} MovedInOrder(q: seq<byte>, y: seq<byte>)
    requires |q| >= 3072 && |y| >= 3072 && Moved(q, y)
    ensures InOrder(Table49(), q, y)
  {
    hide Table49;
    TableIsBijective();
    forall n | 0 <= n < CARRIERS
      ensures var k := CarriersBelow(Table49()[n]);
              k == Perm(n) && y[2 * k] == q[2 * n] && y[2 * k + 1] == q[2 * n + 1]
    {
      assert y[2 * Perm(n)] == q[2 * n];
    }
  }

  method FrequencyInterleaver(q: array<byte>, y: array<byte>, table49: seq<int>)
    requires q.Length >= 3072 && y.Length >= 3072 && q != y && table49 == Table49()
    modifies y
    ensures Moved(old(q[..]), y[..]) && y[3072..] == old(y[3072..])
    ensures InOrder(table49, old(q[..]), y[..])
  {
    hide Table49, Perm, InOrder;
    TableIsBijective();
    for n := 0 to CARRIERS
      invariant forall m :: 0 <= m < n ==> y[2 * Perm(m)] == q[2 * m] && y[2 * Perm(m) + 1] == q[2 * m + 1]
      invariant y[3072..] == old(y[3072..])
    {
      PermIsCell(n);
      var k := table49[n];
      if k < 0 {
        k := 768 + k;
      } else if k > 0 {
        k := 768 + k - 1;
      }
      forall m | 0 <= m < n ensures Perm(m) != k {
        PermInjective(m, n);
      }
      y[2 * k + 0] := q[2 * n + 0];
      y[2 * k + 1] := q[2 * n + 1];
    }
    MovedInOrder(q[..], y[..]);
  }

  method FrequencyDeinterleaver(y: array<byte>, q: array<byte>, table49: seq<int>)
    requires q.Length >= 3072 && y.Length >= 3072 && q != y && table49 == Table49()
    modifies q
    ensures Moved(q[..], old(y[..])) && q[3072..] == old(q[3072..])
    ensures InOrder(table49, q[..], old(y[..]))
  {
    hide Table49, Perm, InOrder;
    TableIsBijective();
    for n := 0 to CARRIERS
      invariant forall m :: 0 <= m < n ==> y[2 * Perm(m)] == q[2 * m] && y[2 * Perm(m) + 1] == q[2 * m + 1]
      invariant q[3072..] == old(q[3072..])
    {
      PermIsCell(n);
      var k := table49[n];
      if k < 0 {
        k := 768 + k;
      } else if k > 0 {
        k := 768 + k - 1;
      }
      q[2 * n + 0] := y[2 * k + 0];
      q[2 * n + 1] := y[2 * k + 1];
    }
    MovedInOrder(q[..], y[..]);
  }

  /** Moving is one to one and onto: each buffer determines the other, so that the interleaver
      and the deinterleaver undo each other, both ways, for every buffer. */
  lemma {:induction false} MovedInjective(q: seq<byte>, q': seq<byte>, y: seq<byte>)
    requires |q| == |q'| == |y| == 3072 && Moved(q, y) && Moved(q', y)
    ensures q == q'
  {
    hide Perm;
    forall i | 0 <= i < 3072 ensures q[i] == q'[i] {
      var n := i / 2;
      assert y[2 * Perm(n)] == q[2 * n] == q'[2 * n] && y[2 * Perm(n) + 1] == q[2 * n + 1] == q'[2 * n + 1];
      assert i == 2 * n || i == 2 * n + 1;
    }
  }

  lemma {:induction false} MovedFunctional(q: seq<byte>, y: seq<byte>, y': seq<byte>)
    requires |q| == |y| == |y'| == 3072 && Moved(q, y) && Moved(q, y')
    ensures y == y'
  {
    hide Perm;
    forall i | 0 <= i < 3072 ensures y[i] == y'[i] {
      PermSurjective(i / 2);
      var n: nat :| n < CARRIERS && Perm(n) == i / 2;
      assert y[2 * Perm(n)] == q[2 * n] == y'[2 * Perm(n)] && y[2 * Perm(n) + 1] == q[2 * n + 1] == y'[2 * Perm(n) + 1];
    }
  }

  /** QPSK: the first half of the block becomes the real parts, the second half the imaginary. */
  ghost predicate Paired(p: seq<byte>, q: seq<byte>)
    requires |p| >= 3072 && |q| >= 3072
  {
    forall n :: 0 <= n < CARRIERS ==> q[2 * n] == p[n] && q[2 * n + 1] == p[n + CARRIERS]
  }

  method QpskSymbolMapper(p: array<byte>, q: array<byte>)
    requires p.Length >= 3072 && q.Length >= 3072 && p != q
    modifies q
    ensures Paired(old(p[..]), q[..]) && q[3072..] == old(q[3072..])
  {
    for n := 0 to CARRIERS
      invariant forall m :: 0 <= m < n ==> q[2 * m] == p[m] && q[2 * m + 1] == p[m + CARRIERS]
      invariant q[3072..] == old(q[3072..])
    {
      q[2 * n + 0] := p[n];
      q[2 * n + 1] := p[n + CARRIERS];
    }
  }

  method QpskSymbolDemapper(q: array<byte>, p: array<byte>)
    requires p.Length >= 3072 && q.Length >= 3072 && p != q
    modifies p
    ensures Paired(p[..], old(q[..])) && p[3072..] == old(p[3072..])
  {
    for n := 0 to CARRIERS
      invariant forall m :: 0 <= m < n ==> q[2 * m] == p[m] && q[2 * m + 1] == p[m + CARRIERS]
      invariant p[3072..] == old(p[3072..])
    {
      p[n] := q[2 * n + 0];
      p[n + CARRIERS] := q[2 * n + 1];
    }
  }

  lemma {:induction false} PairedInjective(p: seq<byte>, p': seq<byte>, q: seq<byte>)
    requires |p| == |p'| == |q| == 3072 && Paired(p, q) && Paired(p', q)
    ensures p == p'
  {
    forall i | 0 <= i < 3072 ensures p[i] == p'[i] {
      var n := if i < CARRIERS then i else i - CARRIERS;
      assert q[2 * n] == p[n] == p'[n] && q[2 * n + 1] == p[n + CARRIERS] == p'[n + CARRIERS];
    }
  }
}
