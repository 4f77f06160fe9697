/** Decoding when every sixteenth transmitted bit is unreliable, which is what the deinterleaver of the
    receiver leaves to the decoder. */
module Mixing {
  import opened Bits
  import opened ConvCode
  import opened Trellis
  import opened Viterbi
  import opened Decoding
  import opened Depuncture
  import opened FreeDistance
  import opened ErrorCorrection

  /** One step: what its first size symbols are worth to the right path. Every symbol that differs counts
      for it, but symbol number wait, the unreliable one if it is among them, counts against it. */
  function StepWorth(size: nat, wait: nat, a: bool, b: bool, c: bool, d: bool, e: bool, f: bool, g: bool): int
    requires 1 <= size <= N
  {
    Weight(size, a, b, c, d, e, f, g) - (if wait < size then 2 * Flag(Tapped(wait, a, b, c, d, e, f, g)) else 0)
  }

  /** Bits to go until the next unreliable one, after size more bits. */
  function NextWait(wait: nat, size: nat): nat
    requires size <= 16
  {
    if wait < size then wait + 16 - size else wait - size
  }

  // A lower bound for what the steps of an error event are worth together. It depends on how soon the
  // next unreliable bit comes, in five classes, and on the digits in which the states differ; where the
  // states have met again, it is what every event is worth.

  const MARGIN := 3

  function Margin0(a: bool, b: bool, c: bool, d: bool, e: bool, f: bool): nat {
    if !a && !b && !c then Leaf(d, e, f, 3, 2, 3, 3, 2, 3, 2, 2)
    else if !a && !b && c then Leaf(d, e, f, 2, 2, 3, 3, 2, 2, 2, 2)
    else if !a && b && !c then Leaf(d, e, f, 2, 2, 2, 2, 2, 2, 2, 2)
    else if !a && b && c then Leaf(d, e, f, 2, 2, 2, 2, 2, 1, 2, 2)
    else if a && !b && !c then Leaf(d, e, f, 3, 3, 2, 2, 2, 2, 2, 1)
    else if a && !b && c then Leaf(d, e, f, 2, 2, 2, 2, 3, 3, 1, 2)
    else if a && b && !c then Leaf(d, e, f, 3, 3, 2, 1, 2, 2, 2, 2)
    else Leaf(d, e, f, 2, 2, 1, 2, 2, 2, 2, 2)
  }

  function Margin1(a: bool, b: bool, c: bool, d: bool, e: bool, f: bool): nat {
    if !a && !b && !c then Leaf(d, e, f, 3, 2, 3, 3, 2, 2, 2, 2)
    else if !a && !b && c then Leaf(d, e, f, 2, 1, 2, 2, 2, 1, 2, 2)
    else if !a && b && !c then Leaf(d, e, f, 2, 2, 2, 2, 1, 2, 2, 2)
    else if !a && b && c then Leaf(d, e, f, 2, 1, 2, 2, 1, 1, 2, 2)
    else if a && !b && !c then Leaf(d, e, f, 2, 2, 2, 1, 2, 2, 2, 1)
    else if a && !b && c then Leaf(d, e, f, 2, 2, 2, 1, 2, 2, 1, 1)
    else if a && b && !c then Leaf(d, e, f, 2, 2, 1, 1, 2, 2, 2, 1)
    else Leaf(d, e, f, 2, 2, 1, 2, 2, 2, 1, 2)
  }

  function Margin2(a: bool, b: bool, c: bool, d: bool, e: bool, f: bool): nat {
    if !a && !b && !c then Leaf(d, e, f, 3, 2, 2, 2, 1, 1, 2, 2)
    else if !a && !b && c then Leaf(d, e, f, 2, 1, 2, 2, 2, 1, 1, 1)
    else if !a && b && !c then Leaf(d, e, f, 1, 1, 2, 2, 1, 2, 1, 1)
    else if !a && b && c then Leaf(d, e, f, 2, 1, 2, 2, 1, 1, 2, 2)
    else if a && !b && !c then Leaf(d, e, f, 2, 2, 2, 1, 2, 2, 2, 1)
    else if a && !b && c then Leaf(d, e, f, 2, 2, 1, 1, 2, 2, 1, 1)
    else if a && b && !c then Leaf(d, e, f, 2, 2, 1, 1, 1, 1, 2, 1)
    else Leaf(d, e, f, 1, 1, 1, 2, 2, 2, 1, 1)
  }

  function Margin3(a: bool, b: bool, c: bool, d: bool, e: bool, f: bool): nat {
    if !a && !b && !c then Leaf(d, e, f, 3, 1, 1, 1, 1, 1, 2, 2)
    else if !a && !b && c then Leaf(d, e, f, 1, 1, 2, 2, 1, 1, 1, 1)
    else if !a && b && !c then Leaf(d, e, f, 1, 1, 2, 2, 1, 1, 1, 1)
    else if !a && b && c then Leaf(d, e, f, 1, 1, 2, 2, 0, 1, 1, 1)
    else if a && !b && !c then Leaf(d, e, f, 2, 2, 1, 1, 2, 2, 1, 0)
    else if a && !b && c then Leaf(d, e, f, 1, 1, 1, 0, 2, 2, 1, 1)
    else if a && b && !c then Leaf(d, e, f, 2, 2, 1, 1, 1, 1, 1, 1)
    else Leaf(d, e, f, 1, 1, 0, 1, 2, 2, 1, 1)
  }

  function Margin4(a: bool, b: bool, c: bool, d: bool, e: bool, f: bool): nat {
    if !a && !b && !c then Leaf(d, e, f, 3, 0, 1, 1, 1, 1, 1, 1)
    else if !a && !b && c then Leaf(d, e, f, 1, 1, 1, 1, 1, 1, 0, 0)
    else if !a && b && !c then Leaf(d, e, f, 1, 1, 1, 1, 1, 1, 1, 1)
    else if !a && b && c then Leaf(d, e, f, 1, 1, 1, 1, 0, 0, 1, 1)
    else if a && !b && !c then Leaf(d, e, f, 1, 1, 1, 1, 1, 1, 1, 0)
    else if a && !b && c then Leaf(d, e, f, 1, 1, 1, 0, 1, 1, 1, 1)
    else if a && b && !c then Leaf(d, e, f, 1, 1, 1, 0, 0, 0, 1, 1)
    else Leaf(d, e, f, 1, 1, 0, 1, 1, 1, 1, 1)
  }

  function Margin(wait: nat, a: bool, b: bool, c: bool, d: bool, e: bool, f: bool): nat {
    if wait < 2 then Margin0(a, b, c, d, e, f)
    else if wait < 6 then Margin1(a, b, c, d, e, f)
    else if wait < 9 then Margin2(a, b, c, d, e, f)
    else if wait < 13 then Margin3(a, b, c, d, e, f)
    else Margin4(a, b, c, d, e, f)
  }

  // No step lets the worth grow more slowly than the margin: first the steps without an unreliable symbol,
  // by the class before them, then those with one, by their size and its place.

  lemma Plain1(a: bool, b: bool, c: bool, d: bool, e: bool, f: bool, g: bool)
    requires a || b || c || d || e || f
    ensures Margin0(b, c, d, e, f, g) <= Margin1(a, b, c, d, e, f) + Weight(2, a, b, c, d, e, f, g)
    ensures Margin1(b, c, d, e, f, g) <= Margin1(a, b, c, d, e, f) + Weight(2, a, b, c, d, e, f, g)
  {
  }

  lemma Plain2(a: bool, b: bool, c: bool, d: bool, e: bool, f: bool, g: bool)
    requires a || b || c || d || e || f
    ensures Margin1(b, c, d, e, f, g) <= Margin2(a, b, c, d, e, f) + Weight(2, a, b, c, d, e, f, g)
    ensures Margin2(b, c, d, e, f, g) <= Margin2(a, b, c, d, e, f) + Weight(2, a, b, c, d, e, f, g)
  {
  }

  lemma Plain3(a: bool, b: bool, c: bool, d: bool, e: bool, f: bool, g: bool)
    requires a || b || c || d || e || f
    ensures Margin2(b, c, d, e, f, g) <= Margin3(a, b, c, d, e, f) + Weight(2, a, b, c, d, e, f, g)
    ensures Margin3(b, c, d, e, f, g) <= Margin3(a, b, c, d, e, f) + Weight(2, a, b, c, d, e, f, g)
  {
  }

  lemma Plain3Far(a: bool, b: bool, c: bool, d: bool, e: bool, f: bool, g: bool)
    requires a || b || c || d || e || f
    ensures Margin1(b, c, d, e, f, g) <= Margin3(a, b, c, d, e, f) + Weight(4, a, b, c, d, e, f, g)
  {
  }

  lemma Plain4(a: bool, b: bool, c: bool, d: bool, e: bool, f: bool, g: bool)
    requires a || b || c || d || e || f
    ensures Margin3(b, c, d, e, f, g) <= Margin4(a, b, c, d, e, f) + Weight(2, a, b, c, d, e, f, g)
    ensures Margin4(b, c, d, e, f, g) <= Margin4(a, b, c, d, e, f) + Weight(2, a, b, c, d, e, f, g)
  {
  }

  lemma Two(a: bool, b: bool, c: bool, d: bool, e: bool, f: bool, g: bool)
    requires a || b || c || d || e || f
    ensures Margin4(b, c, d, e, f, g)
         <= Margin0(a, b, c, d, e, f) + Weight(2, a, b, c, d, e, f, g) - 2 * Flag(Tapped(0, a, b, c, d, e, f, g))
    ensures Margin4(b, c, d, e, f, g)
         <= Margin0(a, b, c, d, e, f) + Weight(2, a, b, c, d, e, f, g) - 2 * Flag(Tapped(1, a, b, c, d, e, f, g))
  {
  }

  lemma ThreeAt0(a: bool, b: bool, c: bool, d: bool, e: bool, f: bool, g: bool)
    requires a || b || c || d || e || f
    ensures Margin4(b, c, d, e, f, g)
         <= Margin0(a, b, c, d, e, f) + Weight(3, a, b, c, d, e, f, g) - 2 * Flag(Tapped(0, a, b, c, d, e, f, g))
  {
  }

  lemma ThreeAt1(a: bool, b: bool, c: bool, d: bool, e: bool, f: bool, g: bool)
    requires a || b || c || d || e || f
    ensures Margin4(b, c, d, e, f, g)
         <= Margin0(a, b, c, d, e, f) + Weight(3, a, b, c, d, e, f, g) - 2 * Flag(Tapped(1, a, b, c, d, e, f, g))
  {
  }

  lemma ThreeAt2(a: bool, b: bool, c: bool, d: bool, e: bool, f: bool, g: bool)
    requires a || b || c || d || e || f
    ensures Margin4(b, c, d, e, f, g)
         <= Margin1(a, b, c, d, e, f) + Weight(3, a, b, c, d, e, f, g) - 2 * Flag(Tapped(2, a, b, c, d, e, f, g))
  {
  }

  lemma FourAt0(a: bool, b: bool, c: bool, d: bool, e: bool, f: bool, g: bool)
    requires a || b || c || d || e || f
    ensures Margin3(b, c, d, e, f, g)
         <= Margin0(a, b, c, d, e, f) + Weight(4, a, b, c, d, e, f, g) - 2 * Flag(Tapped(0, a, b, c, d, e, f, g))
  {
  }

  lemma FourAt1(a: bool, b: bool, c: bool, d: bool, e: bool, f: bool, g: bool)
    requires a || b || c || d || e || f
    ensures Margin4(b, c, d, e, f, g)
         <= Margin0(a, b, c, d, e, f) + Weight(4, a, b, c, d, e, f, g) - 2 * Flag(Tapped(1, a, b, c, d, e, f, g))
  {
  }

  lemma FourAt2(a: bool, b: bool, c: bool, d: bool, e: bool, f: bool, g: bool)
    requires a || b || c || d || e || f
    ensures Margin4(b, c, d, e, f, g)
         <= Margin1(a, b, c, d, e, f) + Weight(4, a, b, c, d, e, f, g) - 2 * Flag(Tapped(2, a, b, c, d, e, f, g))
  {
  }

  lemma FourAt3(a: bool, b: bool, c: bool, d: bool, e: bool, f: bool, g: bool)
    requires a || b || c || d || e || f
    ensures Margin4(b, c, d, e, f, g)
         <= Margin1(a, b, c, d, e, f) + Weight(4, a, b, c, d, e, f, g) - 2 * Flag(Tapped(3, a, b, c, d, e, f, g))
  {
  }

  lemma {:induction false} WeightMono(size: nat, a: bool, b: bool, c: bool, d: bool, e: bool, f: bool, g: bool)
    requires 2 <= size <= N
    ensures Weight(2, a, b, c, d, e, f, g) <= Weight(size, a, b, c, d, e, f, g)
  {
    hide Tapped;
  }

  lemma {:induction false} MarginStep(size: nat, wait: nat, a: bool, b: bool, c: bool, d: bool, e: bool,
                                      f: bool, g: bool)
    requires 2 <= size <= N && wait < 16 && (a || b || c || d || e || f)
    ensures Margin(NextWait(wait, size), b, c, d, e, f, g)
         <= Margin(wait, a, b, c, d, e, f) + StepWorth(size, wait, a, b, c, d, e, f, g)
  {
    hide Margin0, Margin1, Margin2, Margin3, Margin4, Weight, Tapped, Flag;
    WeightMono(size, a, b, c, d, e, f, g);
    if wait >= size {
      Plain1(a, b, c, d, e, f, g);
      Plain2(a, b, c, d, e, f, g);
      Plain3(a, b, c, d, e, f, g);
      Plain3Far(a, b, c, d, e, f, g);
      Plain4(a, b, c, d, e, f, g);
    } else if size == 2 {
      Two(a, b, c, d, e, f, g);
    } else if size == 3 {
      ThreeAt0(a, b, c, d, e, f, g);
      ThreeAt1(a, b, c, d, e, f, g);
      ThreeAt2(a, b, c, d, e, f, g);
    } else {
      FourAt0(a, b, c, d, e, f, g);
      FourAt1(a, b, c, d, e, f, g);
      FourAt2(a, b, c, d, e, f, g);
      FourAt3(a, b, c, d, e, f, g);
    }
  }

  /** The first step of an event, and its end. */
  lemma {:induction false} MarginEnds(size: nat, wait: nat)
    requires 2 <= size <= N && wait < 16
    ensures Margin(NextWait(wait, size), false, false, false, false, false, true)
         <= StepWorth(size, wait, false, false, false, false, false, false, true)
    ensures StepWorth(size, wait, false, false, false, false, false, false, false) == 0
    ensures Margin(wait, false, false, false, false, false, false) == MARGIN
  {
  }

  // Masks that keep the first two, three or four symbols of every group.

  predicate GroupPrefix(mask: seq<bool>, q: nat)
    requires 4 * q + 4 <= |mask|
  {
    mask[4 * q] && mask[4 * q + 1] && (mask[4 * q + 3] ==> mask[4 * q + 2])
  }

  predicate KeepsPrefixes(mask: seq<bool>) {
    |mask| % 4 == 0 && forall q :: 0 <= q < |mask| / 4 ==> GroupPrefix(mask, q)
  }

  function GroupKeeps(mask: seq<bool>, q: nat): (size: nat)
    requires 4 * q + 4 <= |mask|
    ensures 2 <= size <= N
  {
    2 + Flag(mask[4 * q + 2]) + Flag(mask[4 * q + 3])
  }

  lemma {:induction false} SizeOfGroup(mask: seq<bool>, q: nat)
    requires 4 * q + 4 <= |mask| && GroupPrefix(mask, q)
    ensures GroupKeeps(mask, q) > 2 <==> mask[4 * q + 2]
    ensures GroupKeeps(mask, q) > 3 <==> mask[4 * q + 3]
  {
  }

  /** Bits to go after n bits until the next one whose index is a multiple of 16. */
  function Wait(n: nat): (wait: nat)
    ensures wait < 16
  {
    (16 - n % 16) % 16
  }

  lemma {:induction false} WaitIs(n: nat, q: nat, r: nat)
    requires n == 16 * q + r && r < 16
    ensures n % 16 == r && Wait(n) == if r == 0 then 0 else 16 - r
  {
  }

  lemma {:induction false} WaitEnds(n: nat, j: nat)
    requires j < 16
    ensures (n + j) % 16 == 0 <==> j == Wait(n)
  {
    hide Wait;
    var q, r := n / 16, n % 16;
    WaitIs(n, q, r);
    if r + j >= 16 {
      WaitIs(n + j, q + 1, r + j - 16);
    } else {
      WaitIs(n + j, q, r + j);
    }
  }

  lemma {:induction false} WaitMoves(n: nat, size: nat)
    requires size <= 4
    ensures Wait(n + size) == NextWait(Wait(n), size)
  {
    hide Wait;
    var q, r := n / 16, n % 16;
    WaitIs(n, q, r);
    if r + size >= 16 {
      WaitIs(n + size, q + 1, r + size - 16);
    } else {
      WaitIs(n + size, q, r + size);
    }
  }

  lemma {:induction false} GroupCount(mask: seq<bool>, q: nat)
    requires 4 * q + 4 <= |mask| && GroupPrefix(mask, q)
    ensures var n := Count(mask, 4 * q);
            && Count(mask, 4 * q + 1) == n + 1 && Count(mask, 4 * q + 2) == n + 2
            && (mask[4 * q + 2] ==> Count(mask, 4 * q + 3) == n + 3)
            && Count(mask, 4 * q + 4) == n + GroupKeeps(mask, q)
  {
    assert Count(mask, 4 * q + 2) == Count(mask, 4 * q + 1) + 1;
    assert Count(mask, 4 * q + 3) == Count(mask, 4 * q + 2) + Flag(mask[4 * q + 2]);
  }

  // What a received word is worth to the code word c against another one.

  /** Wrong symbols among the first n, not counting the unreliable ones. */
  function Slips(mask: seq<bool>, c: seq<bit>, y: seq<byte>, n: nat): nat
    requires n <= |mask| && n <= |c| && n <= |y|
  {
    if n == 0 then 0
    else Slips(mask, c, y, n - 1)
         + (if mask[n - 1] && Count(mask, n - 1) % 16 != 0 then Mismatch(c[n - 1], y[n - 1]) else 0)
  }

  /** How much nearer to c the word is, the slips repaired. */
  function Lead(mask: seq<bool>, c: seq<bit>, d: seq<bit>, y: seq<byte>, n: nat): int
    requires n <= |mask| && n <= |c| && n <= |d| && n <= |y|
  {
    Distance(d, y, n) - Distance(c, y, n) + 2 * Slips(mask, c, y, n)
  }

  function Worth(differs: bool, unreliable: bool): int {
    if !differs then 0 else if unreliable then -1 else 1
  }

  lemma {:induction false} SymbolLead(mask: seq<bool>, c: seq<bit>, d: seq<bit>, y: seq<byte>, i: nat)
    requires Hard(mask, y) && i < |y| && i < |c| && i < |d|
    ensures Lead(mask, c, d, y, i + 1)
         >= Lead(mask, c, d, y, i) + Worth(mask[i] && c[i] != d[i], Count(mask, i) % 16 == 0)
  {
    hide Count;
  }

  lemma {:induction false} GroupLead(mask: seq<bool>, c: seq<bit>, d: seq<bit>, y: seq<byte>, q: nat)
    requires Hard(mask, y) && 4 * q + 4 <= |y| && 4 * q + 4 <= |c| && 4 * q + 4 <= |d| && GroupPrefix(mask, q)
    ensures var n, i := Count(mask, 4 * q), 4 * q;
            Lead(mask, c, d, y, i + 4) >= Lead(mask, c, d, y, i)
              + Worth(c[i] != d[i], n % 16 == 0) + Worth(c[i + 1] != d[i + 1], (n + 1) % 16 == 0)
              + Worth(mask[i + 2] && c[i + 2] != d[i + 2], (n + 2) % 16 == 0)
              + Worth(mask[i + 3] && c[i + 3] != d[i + 3], (n + 3) % 16 == 0)
  {
    hide Lead, Soft, Count, GroupKeeps;
    GroupCount(mask, q);
    SymbolLead(mask, c, d, y, 4 * q);
    SymbolLead(mask, c, d, y, 4 * q + 1);
    SymbolLead(mask, c, d, y, 4 * q + 2);
    SymbolLead(mask, c, d, y, 4 * q + 3);
  }

  /** The digits in which two paths differ make the worth of a step. */
  function StepWorthAt(mask: seq<bool>, x: seq<bit>, z: seq<bit>, t: nat): int
    requires |x| == |z| && t < |x| && |mask| == 4 * |x|
  {
    hide StepWorth, Differ, GroupKeeps, Wait;
    StepWorth(GroupKeeps(mask, t), Wait(Count(mask, 4 * t)), Differ(x, z, t), Differ(x, z, t + 1), Differ(x, z, t + 2),
              Differ(x, z, t + 3), Differ(x, z, t + 4), Differ(x, z, t + 5), Differ(x, z, t + 6))
  }

  lemma {:induction false} WorthOfFour(size: nat, wait: nat, a: bool, b: bool, c: bool, d: bool, e: bool,
                                       f: bool, g: bool)
    requires 2 <= size <= N
    ensures StepWorth(size, wait, a, b, c, d, e, f, g)
         == Worth(Tapped(0, a, b, c, d, e, f, g), wait == 0) + Worth(Tapped(1, a, b, c, d, e, f, g), wait == 1)
          + Worth(size > 2 && Tapped(2, a, b, c, d, e, f, g), wait == 2)
          + Worth(size > 3 && Tapped(3, a, b, c, d, e, f, g), wait == 3)
  {
    hide Tapped;
  }

  lemma {:induction false} StepLead(mask: seq<bool>, x: seq<bit>, z: seq<bit>, y: seq<byte>, t: nat)
    requires Hard(mask, y) && KeepsPrefixes(mask) && |x| == |z| && |y| == 4 * |x| && t < |x|
    ensures Lead(mask, Code(0, x), Code(0, z), y, 4 * t + 4)
         >= Lead(mask, Code(0, x), Code(0, z), y, 4 * t) + StepWorthAt(mask, x, z, t)
  {
    hide Lead, Soft, Code, Differ, Tapped, Count, StepWorth, Wait, Worth, Flag;
    assert t < |mask| / 4 && GroupPrefix(mask, t);
    var n := Count(mask, 4 * t);
    CodeDiffers(x, z, t, 0);
    CodeDiffers(x, z, t, 1);
    CodeDiffers(x, z, t, 2);
    CodeDiffers(x, z, t, 3);
    SizeOfGroup(mask, t);
    GroupLead(mask, Code(0, x), Code(0, z), y, t);
    WaitEnds(n, 0);
    WaitEnds(n, 1);
    WaitEnds(n, 2);
    WaitEnds(n, 3);
    WorthOfFour(GroupKeeps(mask, t), Wait(n), Differ(x, z, t), Differ(x, z, t + 1), Differ(x, z, t + 2),
                Differ(x, z, t + 3), Differ(x, z, t + 4), Differ(x, z, t + 5), Differ(x, z, t + 6));
  }

  function MarginAt(mask: seq<bool>, x: seq<bit>, z: seq<bit>, t: nat): nat
    requires |x| == |z| && t <= |x| && |mask| == 4 * |x|
  {
    hide Margin, Differ, Wait;
    Margin(Wait(Count(mask, 4 * t)), Differ(x, z, t), Differ(x, z, t + 1), Differ(x, z, t + 2),
           Differ(x, z, t + 3), Differ(x, z, t + 4), Differ(x, z, t + 5))
  }

  lemma {:induction false} MarginGrows(mask: seq<bool>, x: seq<bit>, z: seq<bit>, t: nat)
    requires |x| == |z| && t < |x| && |mask| == 4 * |x| && KeepsPrefixes(mask)
    ensures StatesDiffer(x, z, t) ==>
              MarginAt(mask, x, z, t + 1) <= MarginAt(mask, x, z, t) + StepWorthAt(mask, x, z, t)
    ensures !StatesDiffer(x, z, t) && Differ(x, z, t + 6) ==> MarginAt(mask, x, z, t + 1) <= StepWorthAt(mask, x, z, t)
    ensures !StatesDiffer(x, z, t) && !Differ(x, z, t + 6) ==> StepWorthAt(mask, x, z, t) == 0
  {
    hide Margin, Differ, StepWorth, Wait, Count, GroupKeeps, NextWait;
    assert t < |mask| / 4 && GroupPrefix(mask, t);
    var n, size := Count(mask, 4 * t), GroupKeeps(mask, t);
    GroupCount(mask, t);
    WaitMoves(n, size);
    MarginEnds(size, Wait(n));
    if StatesDiffer(x, z, t) {
      MarginStep(size, Wait(n), Differ(x, z, t), Differ(x, z, t + 1), Differ(x, z, t + 2), Differ(x, z, t + 3),
                 Differ(x, z, t + 4), Differ(x, z, t + 5), Differ(x, z, t + 6));
    }
  }

  lemma {:induction false} MarginMeets(mask: seq<bool>, x: seq<bit>, z: seq<bit>, t: nat)
    requires |x| == |z| && t <= |x| && |mask| == 4 * |x|
    ensures StatesDiffer(x, z, t) || MarginAt(mask, x, z, t) == MARGIN
  {
    hide Margin, Differ, Wait, Count;
    MarginEnds(2, Wait(Count(mask, 4 * t)));
  }

  /** Throughout an error event the lead is at least the margin; between events it is not negative, and
      after the first one it never falls below what an event is worth. */
  lemma {:induction false} EventLead(mask: seq<bool>, x: seq<bit>, z: seq<bit>, y: seq<byte>, t: nat)
    requires Hard(mask, y) && KeepsPrefixes(mask) && |x| == |z| && |y| == 4 * |x| && t <= |x|
    ensures var lead := Lead(mask, Code(0, x), Code(0, z), y, 4 * t);
            lead >= if StatesDiffer(x, z, t) then MarginAt(mask, x, z, t) else if x[..t] == z[..t] then 0 else MARGIN
    decreases t
  {
    hide Lead, Soft, KeepsPrefixes, Code, Differ, StatesDiffer, MarginAt, StepWorthAt;
    if t == 0 {
      LeadStarts(mask, Code(0, x), Code(0, z), y);
      StatesStart(x, z);
    } else {
      EventLead(mask, x, z, y, t - 1);
      StepLead(mask, x, z, y, t - 1);
      MarginGrows(mask, x, z, t - 1);
      MarginMeets(mask, x, z, t);
      Parting(x, z, t - 1);
    }
  }

  lemma {:induction false} LeadStarts(mask: seq<bool>, c: seq<bit>, d: seq<bit>, y: seq<byte>)
    ensures Lead(mask, c, d, y, 0) == 0
  {
  }

  lemma {:induction false} StatesStart(x: seq<bit>, z: seq<bit>)
    requires |x| == |z|
    ensures !StatesDiffer(x, z, 0)
  {
    hide StatesDiffer;
    SameStates(x, z, 0);
  }

  lemma {:induction false} SameStates(x: seq<bit>, z: seq<bit>, t: nat)
    requires t <= |x| == |z| && x[..t] == z[..t]
    ensures !StatesDiffer(x, z, t)
  {
    hide Differ;
    forall i: nat | t <= i < t + 6 ensures !Differ(x, z, i) {
      SameDigit(x, z, i);
      if i >= 6 {
        assert x[i - 6] == x[..t][i - 6] && z[i - 6] == z[..t][i - 6];
      }
    }
  }

  /** Equal bits lead from equal states to equal states, different ones do not. */
  lemma {:induction false} Parting(x: seq<bit>, z: seq<bit>, t: nat)
    requires |x| == |z| && t < |x|
    ensures !StatesDiffer(x, z, t) ==> (StatesDiffer(x, z, t + 1) <==> Differ(x, z, t + 6))
    ensures x[..t + 1] == z[..t + 1] <==> x[..t] == z[..t] && !Differ(x, z, t + 6)
    ensures StatesDiffer(x, z, t) ==> x[..t] != z[..t]
  {
    hide Differ;
    SameDigit(x, z, t + 6);
    NextPrefix(x, z, t);
    if x[..t] == z[..t] {
      SameStates(x, z, t);
    }
  }

  lemma {:induction false} NextPrefix(x: seq<bit>, z: seq<bit>, t: nat)
    requires |x| == |z| && t < |x|
    ensures x[..t + 1] == z[..t + 1] <==> x[..t] == z[..t] && x[t] == z[t]
  {
    assert x[..t + 1] == x[..t] + [x[t]] && z[..t + 1] == z[..t] + [z[t]];
    if x[..t + 1] == z[..t + 1] {
      assert x[..t + 1][..t] == x[..t] && z[..t + 1][..t] == z[..t];
      assert x[..t + 1][t] == x[t] && z[..t + 1][t] == z[t];
    }
  }

  /** Every other message is farther from the received word, slips repaired. */
  lemma {:induction false} MessageLeads(mask: seq<bool>, u: seq<bit>, v: seq<bit>, y: seq<byte>)
    requires |u| == |v| && u != v && |y| == 4 * (|u| + 6) && Hard(mask, y) && KeepsPrefixes(mask)
    ensures Lead(mask, Codeword(u), Codeword(v), y, |y|) >= MARGIN
  {
    hide Lead, Soft, KeepsPrefixes, Code, StatesDiffer, MarginAt;
    var x, z, n := Flushed(u), Flushed(v), |u| + 6;
    EventLead(mask, x, z, y, n);
    FlushedMeet(u, v);
    assert x[..n] == x && z[..n] == z;
    assert x[..|u|] == u && z[..|u|] == v;
  }

  /** The word is at most as far from what was sent as there are slips and unreliable bits. */
  lemma {:induction false} UnreliableBits(mask: seq<bool>, c: seq<bit>, y: seq<byte>, n: nat)
    requires Hard(mask, y) && n <= |y| && n <= |c|
    ensures Distance(c, y, n) <= Slips(mask, c, y, n) + (Count(mask, n) + 15) / 16
    decreases n
  {
    hide Soft;
    if n > 0 {
      UnreliableBits(mask, c, y, n - 1);
      Sixteenths(Count(mask, n - 1));
    }
  }

  lemma {:induction false} Sixteenths(n: nat)
    ensures (n + 1 + 15) / 16 == (n + 15) / 16 + (if n % 16 == 0 then 1 else 0)
  {
  }

  /** The decoder gives back the message, whatever every sixteenth transmitted bit says, and even if one
      of the others is wrong. */
  lemma {:induction false} MixedDecoded(m: Mettab, g: int, w: int, mask: seq<bool>, y: seq<byte>, u: seq<bit>)
    requires Symmetric(m, g, w) && |y| == 4 * (|u| + 6) && Hard(mask, y) && KeepsPrefixes(mask)
    requires Slips(mask, Codeword(u), y, |y|) <= 1 && (g - w) * ((Count(mask, |mask|) + 15) / 16 + 1) < 999999
    ensures Decoded(Received(m, y), |u|) == u
  {
    hide Received, Code, Decoded, Distance, Slips, Soft, KeepsPrefixes, Count;
    UnreliableBits(mask, Codeword(u), y, |y|);
    MulMono(g - w, Distance(Codeword(u), y, |y|), (Count(mask, |mask|) + 15) / 16 + 1);
    PickStartsInZero(m, g, w, y, u);
    var v := Decoded(Received(m, y), |u|);
    if v != u {
      MessageLeads(mask, u, v, y);
    }
  }

  // The same in transmitted bits.

  /** Wrong bits among the first n, every sixteenth left aside. */
  function Strays(a: seq<bit>, b: seq<bit>, n: nat): nat
    requires n <= |a| && n <= |b|
  {
    if n == 0 then 0 else Strays(a, b, n - 1) + (if (n - 1) % 16 != 0 then Flag(a[n - 1] != b[n - 1]) else 0)
  }

  lemma {:induction false} StraysPrefix(a: seq<bit>, a': seq<bit>, b: seq<bit>, n: nat)
    requires n <= |a| && n <= |a'| && n <= |b| && forall i :: 0 <= i < n ==> a[i] == a'[i]
    ensures Strays(a, b, n) == Strays(a', b, n)
    decreases n
  {
    if n > 0 {
      StraysPrefix(a, a', b, n - 1);
    }
  }

  lemma {:induction false} SlipsAreStrays(mask: seq<bool>, c: seq<bit>, b: seq<bit>, n: nat)
    requires |c| == |mask| && Count(mask, |mask|) <= |b| && n <= |mask|
    ensures Count(mask, n) <= |b|
    ensures Slips(mask, c, Filled(mask, b), n) == Strays(Punctured(mask, c, n), b, Count(mask, n))
    decreases n
  {
    hide Filled;
    CountMono(mask, n, |mask|);
    if n > 0 {
      SlipsAreStrays(mask, c, b, n - 1);
      FilledNext(mask, c, b, n - 1);
      StraysPrefix(Punctured(mask, c, n - 1), Punctured(mask, c, n), b, Count(mask, n - 1));
    }
  }

  /** Of the bits of a punctured code word, every sixteenth may be anything and one more may be wrong. */
  lemma {:induction false} MixedCorrected(m: Mettab, g: int, w: int, mask: seq<bool>, u: seq<bit>, b: seq<bit>)
    requires Symmetric(m, g, w) && |mask| == 4 * (|u| + 6) && KeepsPrefixes(mask) && |b| == Count(mask, |mask|)
    requires Strays(Punctured(mask, Codeword(u), |mask|), b, |b|) <= 1 && (g - w) * ((|b| + 15) / 16 + 1) < 999999
    ensures Decoded(Received(m, Filled(mask, b)), |u|) == u
  {
    hide Received, Code, Decoded, Slips, Strays, KeepsPrefixes, Filled, Count, Punctured;
    FilledIsHard(mask, b);
    SlipsAreStrays(mask, Codeword(u), b, |mask|);
    MixedDecoded(m, g, w, mask, Filled(mask, b), u);
  }
}
