/** The walk over the blocks of a buffer that one kind of group writes into: `fig_1_5` ends its label in
    place. */
module FigWalk {
  import opened Bits
  import opened Figs

  /** A label for a data service, FIG 1/5. */
  predicate DataLabel(d: seq<byte>) {
    At(d, 0) / 32 == 1 && At(d, 1) % 8 == 5
  }

  /** Place of the byte that `fig_1_5` clears, counted from the header of its group: the header, the
      extension byte, a service identifier of four bytes and sixteen characters come before it. The place
      does not depend on the length of the group. */
  const LABEL_END := 22

  /** The buffer after the dispatch of the group at a position. */
  function AfterFig(raw: seq<byte>, fig: nat): (r: seq<byte>)
    ensures |r| == |raw|
  {
    if DataLabel(Rest(raw, fig)) && fig + LABEL_END < |raw| then raw[fig + LABEL_END := 0] else raw
  }

  datatype Walked = Walked(evs: seq<Event>, raw: seq<byte>)

  /** The inner loop of `process_fic`: the effects of the groups of a block from byte j on, and the buffer
      they leave. Each group is read from what the groups before it have left. */
  function Walk(raw: seq<byte>, fig: nat, j: nat): (w: Walked)
    ensures |w.raw| == |raw|
    decreases if j < 30 then 30 - j else 0
  {
    hide FigEvents, AfterFig;
    if j >= 30 || At(raw, fig) == 0xff then Walked([], raw)
    else
      var n := At(raw, fig) % 32;
      var w := Walk(AfterFig(raw, fig), fig + n + 1, j + n + 1);
      Walked(FigEvents(Rest(raw, fig), n) + w.evs, w.raw)
  }

  /** The first n blocks of a buffer, one after the other. */
  function FibsWalk(raw: seq<byte>, n: nat): (w: Walked)
    ensures |w.raw| == |raw|
  {
    hide Walk;
    if n == 0 then Walked([], raw)
    else
      var w := FibsWalk(raw, n - 1);
      var v := Walk(w.raw, 30 * (n - 1), 0);
      Walked(w.evs + v.evs, v.raw)
  }

  /** A group of n bytes changes what is read after it exactly if it is a data label shorter than 22 bytes
      and the byte in question is not zero already. */
  lemma {:induction false} StoreSeenIff(raw: seq<byte>, fig: nat, n: nat)
    ensures Rest(AfterFig(raw, fig), fig + n + 1) != Rest(raw, fig + n + 1) <==>
              DataLabel(Rest(raw, fig)) && n < LABEL_END && At(raw, fig + LABEL_END) != 0
  {
    hide DataLabel;
    if DataLabel(Rest(raw, fig)) && n < LABEL_END && fig + LABEL_END < |raw| {
      assert Rest(AfterFig(raw, fig), fig + n + 1)[LABEL_END - n - 1] == 0;
      assert Rest(raw, fig + n + 1)[LABEL_END - n - 1] == raw[fig + LABEL_END];
      if raw[fig + LABEL_END] == 0 {
        assert raw[fig + LABEL_END := 0] == raw;
      }
    }
  }

  /** Every data label from byte j of a block on has its 22 bytes, inside the block. */
  predicate LabelsInside(d: seq<byte>, j: nat)
    decreases if j < 30 then 30 - j else 0
  {
    j >= 30 || At(d, 0) == 0xff ||
    var n := At(d, 0) % 32;
    (DataLabel(d) ==> n >= LABEL_END && j + LABEL_END < 30) && LabelsInside(Rest(d, n + 1), j + n + 1)
  }

  predicate SameFrom(a: seq<byte>, b: seq<byte>, from: nat) {
    |a| == |b| && forall i :: from <= i < |a| ==> a[i] == b[i]
  }

  lemma {:induction false} StoreUnseen(raw: seq<byte>, fig: nat, j: nat)
    requires j <= fig
    requires DataLabel(Rest(raw, fig)) ==> At(raw, fig) % 32 >= LABEL_END && j + LABEL_END < 30
    ensures var n := At(raw, fig) % 32;
            Rest(AfterFig(raw, fig), fig + n + 1) == Rest(raw, fig + n + 1)
    ensures SameFrom(AfterFig(raw, fig), raw, fig - j + 30)
  {
    hide DataLabel, At;
  }

  /** Then the walk over a block sees its groups as they came, and changes nothing behind the block. */
  lemma {:induction false} WalkUndisturbed(raw: seq<byte>, fig: nat, j: nat)
    requires j <= fig && LabelsInside(Rest(raw, fig), j)
    ensures Walk(raw, fig, j).evs == FibEvents(Rest(raw, fig), j)
    ensures SameFrom(Walk(raw, fig, j).raw, raw, fig - j + 30)
    decreases if j < 30 then 30 - j else 0
  {
    hide FigEvents, AfterFig, DataLabel, Rest, At;
    RestAt(raw, fig, 0);
    if j < 30 && At(raw, fig) != 0xff {
      var n := At(raw, fig) % 32;
      RestAt(raw, fig, n + 1);
      StoreUnseen(raw, fig, j);
      WalkUndisturbed(AfterFig(raw, fig), fig + n + 1, j + n + 1);
    }
  }

  /** The effects of the first n blocks, read from bytes that nothing changes. */
  function FibsEvents(raw: seq<byte>, n: nat): seq<Event> {
    hide FibEvents;
    if n == 0 then [] else FibsEvents(raw, n - 1) + FibEvents(Rest(raw, 30 * (n - 1)), 0)
  }

  lemma {:induction false} SameRest(a: seq<byte>, b: seq<byte>, from: nat)
    requires SameFrom(a, b, from)
    ensures Rest(a, from) == Rest(b, from)
  {
  }

  /** And so does the walk over the whole buffer. */
  lemma {:induction false} FibsUndisturbed(raw: seq<byte>, n: nat)
    requires forall k :: 0 <= k < n ==> LabelsInside(Rest(raw, 30 * k), 0)
    ensures FibsWalk(raw, n).evs == FibsEvents(raw, n) && SameFrom(FibsWalk(raw, n).raw, raw, 30 * n)
    decreases n
  {
    hide Walk, FibEvents, LabelsInside, Rest;
    if n > 0 {
      FibsUndisturbed(raw, n - 1);
      var w := FibsWalk(raw, n - 1);
      SameRest(w.raw, raw, 30 * (n - 1));
      assert LabelsInside(Rest(raw, 30 * (n - 1)), 0);
      WalkUndisturbed(w.raw, 30 * (n - 1), 0);
    }
  }

  // Printed groups satisfy the condition.

  lemma {:induction false} PrintedLabel(g: Group, d: seq<byte>)
    requires Printable(g) && DataLabel(GroupBytes(g) + d)
    ensures |GroupBody(g)| >= LABEL_END
  {
    hide GroupBytes;
    HeaderOf(g, d);
  }

  lemma {:induction false} LabelsStep(g: Group, d: seq<byte>, j: nat)
    requires Printable(g) && j + |GroupBytes(g)| <= 30 && LabelsInside(d, j + |GroupBytes(g)|)
    ensures LabelsInside(GroupBytes(g) + d, j)
  {
    hide GroupFits, GroupBody, GroupType, DataLabel;
    HeaderOf(g, d);
    if DataLabel(GroupBytes(g) + d) {
      PrintedLabel(g, d);
    }
  }

  lemma {:induction false} LabelsOfGroups(gs: seq<Group>, j: nat, more: seq<byte>)
    requires (forall k :: 0 <= k < |gs| ==> Printable(gs[k])) && Ends(gs, j, more)
    ensures LabelsInside(GroupsBytes(gs) + more, j)
    decreases |gs|
  {
    hide Printable, GroupBytes, DataLabel;
    if gs == [] {
      assert GroupsBytes(gs) + more == more;
    } else {
      EndsTail(gs, j, more);
      assert j + |GroupBytes(gs[0])| <= 30;
      LabelsOfGroups(gs[1..], j + |GroupBytes(gs[0])|, more);
      LabelsStep(gs[0], GroupsBytes(gs[1..]) + more, j);
    }
  }

  /** The walk over a block visits exactly the groups that were printed into it, in order, whatever
      follows. */
  lemma {:induction false} WalkOfGroups(gs: seq<Group>, raw: seq<byte>, start: nat, more: seq<byte>)
    requires (forall k :: 0 <= k < |gs| ==> Printable(gs[k])) && Ends(gs, 0, more)
    requires Rest(raw, start) == GroupsBytes(gs) + more
    ensures Walk(raw, start, 0).evs == GroupsEvents(gs)
  {
    hide Printable, Ends, GroupsBytes, GroupsEvents, Walk, FibEvents, LabelsInside, Rest;
    LabelsOfGroups(gs, 0, more);
    FibEventsOfGroups(gs, 0, more);
    WalkUndisturbed(raw, start, 0);
  }

  // A data label that is too short.

  /** Five sub-channels in the long form, behind a FIG 1/5 of one byte. */
  function BehindShortLabel(os: seq<Org>): seq<byte>
    requires forall k :: 0 <= k < |os| ==> OrgFits(os[k])
  {
    [0x21, 5, 0x15, 1] + OrgsBytes(os) + seq(6, _ => 0xff)
  }

  /** What the fifth entry turns into when its third byte is cleared: a short form, and a sixth entry that
      starts with its last byte and goes on in the padding. */
  function Torn(o: Org): (t: seq<Org>)
    requires o.Long?
    ensures |t| == 2 && t[0].Short? && t[1].Long?
  {
    var low := o.subchsz % 256;
    [Short(o.subchid, o.startaddr, 0, 0), Long(low / 4, 256 * (low % 4) + 255, 7, 3, 1023)]
  }

  lemma {:induction false} TornFits(o: Org)
    requires OrgFits(o) && o.Long?
    ensures OrgFits(Torn(o)[0]) && OrgFits(Torn(o)[1])
  {
  }

  lemma {:induction false} LongBytes(o: Org, h: nat, l: nat)
    requires OrgFits(o) && o.Long? && h == 1024 * o.subchid + o.startaddr
    requires l == 0x8000 + 4096 * o.opt + 1024 * o.protlvl + o.subchsz
    ensures OrgBytes(o) == [h / 256, h % 256, l / 256, l % 256]
  {
  }

  lemma {:induction false} ShortBytes(o: Org, h: nat)
    requires OrgFits(o) && o.Short? && h == 1024 * o.subchid + o.startaddr
    ensures OrgBytes(o) == [h / 256, h % 256, 64 * o.tableSw + o.tabIndx]
  {
  }

  /** The low byte is that of the size alone. */
  lemma {:induction false} LowOfSize(n: nat, opt: nat, protlvl: nat)
    ensures (0x8000 + 4096 * opt + 1024 * protlvl + n) % 256 == n % 256
  {
    var q, r := n / 256, n % 256;
    assert n == 256 * q + r;
    Remainder256(n, q, r);
    Remainder256(0x8000 + 4096 * opt + 1024 * protlvl + n, 0x80 + 16 * opt + 4 * protlvl + q, r);
  }

  lemma {:induction false} Remainder256(v: nat, q: nat, r: nat)
    requires v == 256 * q + r && r < 256
    ensures v % 256 == r
  {
  }

  lemma {:induction false} TornBytes(o: Org, pad: seq<byte>)
    requires OrgFits(o) && o.Long? && pad == seq(6, _ => 0xff)
    ensures OrgFits(Torn(o)[0]) && OrgFits(Torn(o)[1])
    ensures OrgBytes(o)[2 := 0] + pad == OrgBytes(Torn(o)[0]) + (OrgBytes(Torn(o)[1]) + pad[3..])
  {
    hide OrgBytes, OrgFits;
    TornFits(o);
    var h, low := 1024 * o.subchid + o.startaddr, o.subchsz % 256;
    LongBytes(o, h, 0x8000 + 4096 * o.opt + 1024 * o.protlvl + o.subchsz);
    LowOfSize(o.subchsz, o.opt, o.protlvl);
    ShortBytes(Torn(o)[0], h);
    assert 1024 * (low / 4) + (256 * (low % 4) + 255) == 256 * low + 255;
    LongBytes(Torn(o)[1], 256 * low + 255, 0xffff);
    assert OrgBytes(Torn(o)[1]) == [low, 255, 255, 255];
  }

  lemma {:induction false} LongsSize(os: seq<Org>)
    requires forall k :: 0 <= k < |os| ==> OrgFits(os[k]) && os[k].Long?
    ensures |OrgsBytes(os)| == 4 * |os|
    decreases |os|
  {
    hide OrgFits;
    if os != [] {
      LongsSize(os[1..]);
    }
  }

  lemma {:induction false} OrgsBytesLast(os: seq<Org>)
    requires os != [] && forall k :: 0 <= k < |os| ==> OrgFits(os[k])
    ensures var n := |os| - 1;
            OrgsBytes(os) == OrgsBytes(os[..n]) + OrgBytes(os[n])
    decreases |os|
  {
    hide OrgFits, OrgBytes;
    var n := |os| - 1;
    if n == 0 {
      assert OrgsBytes(os[1..]) == [] && OrgsBytes(os[..n]) == [];
    } else {
      OrgsBytesLast(os[1..]);
      assert os[1..][..n - 1] == os[..n][1..] && os[..n][0] == os[0];
    }
  }

  /** The entries that are read once the byte is cleared. */
  lemma {:induction false} TornOrgs(os: seq<Org>, d: seq<byte>, pad: seq<byte>, j: int)
    requires |os| == 5 && forall k :: 0 <= k < |os| ==> OrgFits(os[k]) && os[k].Long?
    requires pad == seq(6, _ => 0xff) && |OrgsBytes(os)| == 20 == j && d == (OrgsBytes(os) + pad)[18 := 0]
    ensures Orgs(d, j) == os[..4] + Torn(os[4])
  {
    hide OrgFits, OrgBytes, Orgs, OrgsBytes, Torn;
    var t := Torn(os[4]);
    TornFits(os[4]);
    TornBytes(os[4], pad);
    OrgsBytesLast(os);
    LongsSize(os[..4]);
    var rest := OrgBytes(t[1]) + pad[3..];
    assert d == OrgsBytes(os[..4]) + (OrgBytes(os[4])[2 := 0] + pad);
    OrgsOfBytes(os[..4], OrgBytes(t[0]) + rest, 4);
    OrgsStep(t[0], rest, 4);
    OrgsStep(t[1], pad[3..], 1);
    NoOrgsLeft(pad[3..], -3);
  }

  lemma {:induction false} SubEventsSize(os: seq<Org>)
    ensures |SubEvents(os)| == |os|
    decreases |os|
  {
    hide SubchOf;
    if os != [] {
      SubEventsSize(os[1..]);
    }
  }

  lemma {:induction false} SubchFig(raw: seq<byte>, fig: nat)
    requires At(raw, fig) == 0x15 && At(raw, fig + 1) == 1
    ensures FigEvents(Rest(raw, fig), 21) == SubEvents(Orgs(Rest(raw, fig + 2), 20))
    ensures AfterFig(raw, fig) == raw
  {
    hide SubEvents, Orgs, At, Rest;
    RestAt(raw, fig, 0);
    RestAt(raw, fig, 1);
    RestAt(raw, fig, 2);
  }

  lemma {:induction false} LabelFig(raw: seq<byte>, n: nat)
    requires At(raw, 0) == 0x21 && At(raw, 1) == 5 && |raw| > LABEL_END
    ensures FigEvents(Rest(raw, 0), n) == [] && AfterFig(raw, 0) == raw[LABEL_END := 0]
  {
  }

  /** A group followed by the end marker. */
  lemma {:induction false} LastGroup(raw: seq<byte>, fig: nat, n: nat)
    requires fig + n < 30 <= |raw| && At(raw, fig) != 0xff && At(raw, fig) % 32 == n
    requires At(raw, fig + n + 1) == 0xff && AfterFig(raw, fig) == raw
    ensures Walk(raw, fig, fig).evs == FigEvents(Rest(raw, fig), n) == FibEvents(Rest(raw, fig), fig)
  {
    hide FigEvents, AfterFig, At, Rest;
    RestAt(raw, fig, 0);
    RestAt(raw, fig, n + 1);
    RestAt(raw, fig + n + 1, 0);
    var d := Rest(raw, fig);
    assert Walk(raw, fig + n + 1, fig + n + 1).evs == [];
    assert FibEvents(Rest(d, n + 1), fig + n + 1) == [];
    assert FigEvents(d, n) + [] == FigEvents(d, n);
  }

  /** A label of one byte, a group of 21 bytes, and the end marker. */
  lemma {:induction false} TwoGroups(raw: seq<byte>)
    requires |raw| == 30 && raw[0] == 0x21 && raw[2] == 0x15 && raw[24] == 0xff
    requires AfterFig(raw, 0) == raw[LABEL_END := 0] && FigEvents(Rest(raw, 0), 1) == []
    requires AfterFig(raw[LABEL_END := 0], 2) == raw[LABEL_END := 0] && AfterFig(raw, 2) == raw
    ensures FibEvents(raw, 0) == FigEvents(Rest(raw, 2), 21)
    ensures Walk(raw, 0, 0).evs == FigEvents(Rest(raw[LABEL_END := 0], 2), 21)
  {
    hide FigEvents, AfterFig;
    var torn := raw[LABEL_END := 0];
    LastGroup(raw, 2, 21);
    LastGroup(torn, 2, 21);
    assert Walk(raw, 0, 0).evs == FigEvents(Rest(raw, 0), 1) + Walk(torn, 2, 2).evs;
    assert Rest(raw, 0) == raw;
    assert FibEvents(raw, 0) == FigEvents(raw, 1) + FibEvents(Rest(raw, 2), 2);
  }

  /** Such a block says five sub-channels, but the walk over it stores six: the fifth one with unequal
      protection and another size, and one that nobody sent. */
  lemma {:induction false} ShortLabelTears(os: seq<Org>)
    requires |os| == 5 && forall k :: 0 <= k < |os| ==> OrgFits(os[k]) && os[k].Long?
    ensures var raw := BehindShortLabel(os);
            && |raw| == 30 && FibEvents(raw, 0) == SubEvents(os)
            && Walk(raw, 0, 0).evs == SubEvents(os[..4] + Torn(os[4])) && Walk(raw, 0, 0).evs != SubEvents(os)
  {
    hide OrgFits, OrgBytes, Orgs, OrgsBytes, Torn, SubEvents, FigEvents, FibEvents, Walk, AfterFig;
    LongsSize(os);
    var raw, pad := BehindShortLabel(os), seq(6, _ => 0xff);
    var torn := raw[LABEL_END := 0];
    SubchFig(raw, 2);
    SubchFig(torn, 2);
    LabelFig(raw, 1);
    assert Rest(raw, 4) == OrgsBytes(os) + pad;
    OrgsOfBytes(os, pad, 0);
    NoOrgsLeft(pad, 0);
    assert os + [] == os;
    assert Rest(torn, 4) == (OrgsBytes(os) + pad)[18 := 0];
    TornOrgs(os, Rest(torn, 4), pad, 20);
    TwoGroups(raw);
    SubEventsSize(os);
    SubEventsSize(os[..4] + Torn(os[4]));
  }
}
