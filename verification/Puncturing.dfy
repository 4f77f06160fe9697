/** Puncturing masks: the 24 puncturing vectors, and how many symbols they keep. */
module Puncturing {
  import opened Bits

  /** Position of group g of a vector in the order in which the vectors grow: 0, 4, 2, 6, 1, 5, 3, 7. */
  function Rank(g: nat): nat {
    4 * (g % 2) + 2 * (g / 2 % 2) + g / 4 % 2
  }

  /** Vector pi keeps the first symbol of every group of four, and pi + 1 further symbols of
      every 32, group by group in the order of their rank. */
  predicate Kept(pi: int, i: nat) {
    KeptAt(pi, Rank(i / 4 % 8), i % 4)
  }

  predicate KeptAt(pi: int, rank: nat, j: nat) {
    j == 0 || rank + 8 * (j - 1) <= pi
  }

  /** The first of every four symbols is sent. */
  predicate KeepsFirst(mask: seq<bool>) {
    forall i :: 0 <= i < |mask| && i % 4 == 0 ==> mask[i]
  }

  /** Symbols that vector pi keeps among the first n. */
  function CountKept(pi: int, n: nat): nat {
    if n == 0 then 0 else CountKept(pi, n - 1) + (if Kept(pi, n - 1) then 1 else 0)
  }

  function GroupSize(pi: int, rank: nat): nat {
    1 + (if rank <= pi then 1 else 0) + (if rank + 8 <= pi then 1 else 0) + (if rank + 16 <= pi then 1 else 0)
  }

  lemma {:induction false} CountGroup(pi: int, q: nat)
    ensures CountKept(pi, 4 * q + 4) == CountKept(pi, 4 * q) + GroupSize(pi, Rank(q % 8))
  {
    hide Rank;
    var n := 4 * q;
    assert (n + 1) / 4 == q && (n + 2) / 4 == q && (n + 3) / 4 == q;
    assert Kept(pi, n);
    assert Kept(pi, n + 1) <==> Rank(q % 8) <= pi;
    assert Kept(pi, n + 2) <==> Rank(q % 8) + 8 <= pi;
    assert Kept(pi, n + 3) <==> Rank(q % 8) + 16 <= pi;
    assert CountKept(pi, n + 2) == CountKept(pi, n) + 1 + (if Kept(pi, n + 1) then 1 else 0);
  }

  /** Vector pi keeps pi + 9 of every 32 symbols. */
  lemma {:induction false} CountPeriods(pi: nat, k: nat)
    requires pi < 24
    ensures CountKept(pi, 32 * k) == k * (pi + 9)
    decreases k
  {
    hide CountKept;
    if k > 0 {
      CountPeriods(pi, k - 1);
      CountEightGroups(pi, 8 * (k - 1));
    } else {
      CountNone(pi);
    }
  }

  lemma {:induction false} CountEightGroups(pi: nat, q: nat)
    requires pi < 24 && q % 8 == 0
    ensures CountKept(pi, 4 * q + 32) == CountKept(pi, 4 * q) + pi + 9
  {
    hide CountKept, GroupSize, Rank;
    var k := q / 8;
    assert q == 8 * k;
    CountGroup(pi, q);
    CountGroup(pi, q + 1);
    CountGroup(pi, q + 2);
    CountGroup(pi, q + 3);
    CountGroup(pi, q + 4);
    CountGroup(pi, q + 5);
    CountGroup(pi, q + 6);
    CountGroup(pi, q + 7);
    assert (q + 1) % 8 == 1 && (q + 2) % 8 == 2 && (q + 3) % 8 == 3 && (q + 4) % 8 == 4;
    assert (q + 5) % 8 == 5 && (q + 6) % 8 == 6 && (q + 7) % 8 == 7;
    Ranks();
    GroupSizes(pi);
  }

  lemma Ranks()
    ensures Rank(0) == 0 && Rank(1) == 4 && Rank(2) == 2 && Rank(3) == 6
    ensures Rank(4) == 1 && Rank(5) == 5 && Rank(6) == 3 && Rank(7) == 7
  {
  }

  lemma {:induction false} CountNone(pi: int)
    ensures CountKept(pi, 0) == 0
  {
  }

  lemma {:induction false} GroupSizes(pi: nat)
    requires pi < 24
    ensures GroupSize(pi, 0) + GroupSize(pi, 4) + GroupSize(pi, 2) + GroupSize(pi, 6)
          + GroupSize(pi, 1) + GroupSize(pi, 5) + GroupSize(pi, 3) + GroupSize(pi, 7) == pi + 9
  {
  }

  /** The rate 8/16 tail: 12 of 24 symbols. */
  lemma CountTail()
    ensures CountKept(7, 24) == 12
  {
    hide CountKept;
    CountNone(7);
    CountGroup(7, 0);
    CountGroup(7, 1);
    CountGroup(7, 2);
    CountGroup(7, 3);
    CountGroup(7, 4);
    CountGroup(7, 5);
  }

  /** One group of four of a vector. */
  function Group(pi: int, rank: nat): seq<bit> {
    [1, if rank <= pi then 1 else 0, if rank + 8 <= pi then 1 else 0, if rank + 16 <= pi then 1 else 0]
  }

  function Vector(pi: int): (row: seq<bit>)
    ensures |row| == 32
  {
    Group(pi, 0) + Group(pi, 4) + Group(pi, 2) + Group(pi, 6) + Group(pi, 1) + Group(pi, 5) + Group(pi, 3) + Group(pi, 7)
  }

  lemma {:induction false} VectorAt(pi: int, g: nat, j: nat)
    requires g < 8 && j < 4
    ensures Vector(pi)[4 * g + j] == Group(pi, Rank(g))[j]
  {
    hide Group, Rank;
    Ranks();
    GroupLengths(pi);
    var half := Group(pi, 0) + Group(pi, 4) + Group(pi, 2) + Group(pi, 6);
    var rest := Group(pi, 1) + Group(pi, 5) + Group(pi, 3) + Group(pi, 7);
    assert Vector(pi) == half + rest;
    if g < 4 {
      assert half[4 * g + j] == Group(pi, Rank(g))[j];
    } else {
      assert rest[4 * (g - 4) + j] == Group(pi, Rank(g))[j];
    }
  }

  lemma {:induction false} GroupLengths(pi: int)
    ensures forall r :: |Group(pi, r)| == 4
  {
  }

  lemma {:induction false} GroupAt(pi: int, rank: nat, j: nat)
    requires j < 4
    ensures Group(pi, rank)[j] == if KeptAt(pi, rank, j) then 1 else 0
  {
  }

  lemma {:induction false} VectorIsMask(pi: int, i: nat)
    ensures Vector(pi)[i % 32] == if Kept(pi, i) then 1 else 0
  {
    hide Rank, Vector, KeptAt, Group;
    var g, j := i / 4 % 8, i % 4;
    assert i == 32 * (i / 4 / 8) + (4 * g + j);
    VectorAt(pi, g, j);
    GroupAt(pi, Rank(g), j);
  }

  /** The rows of the table of puncturing vectors. */
  method Pvec(pi: nat) returns (row: seq<bit>)
    requires pi < 24
    ensures row == Vector(pi)
  {
    if pi < 8 {
      row := PvecLow(pi);
    } else if pi < 16 {
      row := PvecMiddle(pi);
    } else {
      row := PvecHigh(pi);
    }
  }

  method PvecLow(pi: nat) returns (row: seq<bit>)
    requires pi < 8
    ensures row == Vector(pi)
  {
    if
    case pi == 0 => row := [1,1,0,0] + [1,0,0,0] + [1,0,0,0] + [1,0,0,0] + [1,0,0,0] + [1,0,0,0] + [1,0,0,0] + [1,0,0,0];
    case pi == 1 => row := [1,1,0,0] + [1,0,0,0] + [1,0,0,0] + [1,0,0,0] + [1,1,0,0] + [1,0,0,0] + [1,0,0,0] + [1,0,0,0];
    case pi == 2 => row := [1,1,0,0] + [1,0,0,0] + [1,1,0,0] + [1,0,0,0] + [1,1,0,0] + [1,0,0,0] + [1,0,0,0] + [1,0,0,0];
    case pi == 3 => row := [1,1,0,0] + [1,0,0,0] + [1,1,0,0] + [1,0,0,0] + [1,1,0,0] + [1,0,0,0] + [1,1,0,0] + [1,0,0,0];
    case pi == 4 => row := [1,1,0,0] + [1,1,0,0] + [1,1,0,0] + [1,0,0,0] + [1,1,0,0] + [1,0,0,0] + [1,1,0,0] + [1,0,0,0];
    case pi == 5 => row := [1,1,0,0] + [1,1,0,0] + [1,1,0,0] + [1,0,0,0] + [1,1,0,0] + [1,1,0,0] + [1,1,0,0] + [1,0,0,0];
    case pi == 6 => row := [1,1,0,0] + [1,1,0,0] + [1,1,0,0] + [1,1,0,0] + [1,1,0,0] + [1,1,0,0] + [1,1,0,0] + [1,0,0,0];
    case pi == 7 => row := [1,1,0,0] + [1,1,0,0] + [1,1,0,0] + [1,1,0,0] + [1,1,0,0] + [1,1,0,0] + [1,1,0,0] + [1,1,0,0];
  }

  method PvecMiddle(pi: nat) returns (row: seq<bit>)
    requires 8 <= pi < 16
    ensures row == Vector(pi)
  {
    if
    case pi == 8 => row := [1,1,1,0] + [1,1,0,0] + [1,1,0,0] + [1,1,0,0] + [1,1,0,0] + [1,1,0,0] + [1,1,0,0] + [1,1,0,0];
    case pi == 9 => row := [1,1,1,0] + [1,1,0,0] + [1,1,0,0] + [1,1,0,0] + [1,1,1,0] + [1,1,0,0] + [1,1,0,0] + [1,1,0,0];
    case pi == 10 => row := [1,1,1,0] + [1,1,0,0] + [1,1,1,0] + [1,1,0,0] + [1,1,1,0] + [1,1,0,0] + [1,1,0,0] + [1,1,0,0];
    case pi == 11 => row := [1,1,1,0] + [1,1,0,0] + [1,1,1,0] + [1,1,0,0] + [1,1,1,0] + [1,1,0,0] + [1,1,1,0] + [1,1,0,0];
    case pi == 12 => row := [1,1,1,0] + [1,1,1,0] + [1,1,1,0] + [1,1,0,0] + [1,1,1,0] + [1,1,0,0] + [1,1,1,0] + [1,1,0,0];
    case pi == 13 => row := [1,1,1,0] + [1,1,1,0] + [1,1,1,0] + [1,1,0,0] + [1,1,1,0] + [1,1,1,0] + [1,1,1,0] + [1,1,0,0];
    case pi == 14 => row := [1,1,1,0] + [1,1,1,0] + [1,1,1,0] + [1,1,1,0] + [1,1,1,0] + [1,1,1,0] + [1,1,1,0] + [1,1,0,0];
    case pi == 15 => row := [1,1,1,0] + [1,1,1,0] + [1,1,1,0] + [1,1,1,0] + [1,1,1,0] + [1,1,1,0] + [1,1,1,0] + [1,1,1,0];
  }

  method PvecHigh(pi: nat) returns (row: seq<bit>)
    requires 16 <= pi < 24
    ensures row == Vector(pi)
  {
    if
    case pi == 16 => row := [1,1,1,1] + [1,1,1,0] + [1,1,1,0] + [1,1,1,0] + [1,1,1,0] + [1,1,1,0] + [1,1,1,0] + [1,1,1,0];
    case pi == 17 => row := [1,1,1,1] + [1,1,1,0] + [1,1,1,0] + [1,1,1,0] + [1,1,1,1] + [1,1,1,0] + [1,1,1,0] + [1,1,1,0];
    case pi == 18 => row := [1,1,1,1] + [1,1,1,0] + [1,1,1,1] + [1,1,1,0] + [1,1,1,1] + [1,1,1,0] + [1,1,1,0] + [1,1,1,0];
    case pi == 19 => row := [1,1,1,1] + [1,1,1,0] + [1,1,1,1] + [1,1,1,0] + [1,1,1,1] + [1,1,1,0] + [1,1,1,1] + [1,1,1,0];
    case pi == 20 => row := [1,1,1,1] + [1,1,1,1] + [1,1,1,1] + [1,1,1,0] + [1,1,1,1] + [1,1,1,0] + [1,1,1,1] + [1,1,1,0];
    case pi == 21 => row := [1,1,1,1] + [1,1,1,1] + [1,1,1,1] + [1,1,1,0] + [1,1,1,1] + [1,1,1,1] + [1,1,1,1] + [1,1,1,0];
    case pi == 22 => row := [1,1,1,1] + [1,1,1,1] + [1,1,1,1] + [1,1,1,1] + [1,1,1,1] + [1,1,1,1] + [1,1,1,1] + [1,1,1,0];
    case pi == 23 => row := [1,1,1,1] + [1,1,1,1] + [1,1,1,1] + [1,1,1,1] + [1,1,1,1] + [1,1,1,1] + [1,1,1,1] + [1,1,1,1];
  }
}
