/** The FIC from symbols to the ensemble database: the walk over the groups of every good block. */
module FicProcess {
  import opened Bits
  import opened Tables
  import opened Ensemble
  import opened Figs
  import opened FigWalk
  import opened Viterbi
  import opened Symbols
  import opened Fic

  /** The database as a value. */
  datatype Ens = Ens(eid: nat, services: seq<Entry>, numSrvs: nat, schan: seq<Subch>)

  /** As `ficinit` leaves it: no services, and every sub-channel marked unused. */
  predicate Empty(t: Ens) {
    t.services == [] && t.numSrvs == 0 && |t.schan| == 64 && forall k :: 0 <= k < 64 ==> t.schan[k].subchid > 64
  }

  function WithSubchannel(schan: seq<Subch>, s: Subch): seq<Subch> {
    if 0 <= s.subchid < |schan| && schan[s.subchid].subchid > 64 then schan[s.subchid := s] else schan
  }

  function WithDabplus(schan: seq<Subch>, c: Component): seq<Subch> {
    if c.subchid < |schan| then schan[c.subchid := schan[c.subchid].(dabplus := c.ascty == DABPLUS)] else schan
  }

  function Apply(t: Ens, ev: Event): Ens {
    hide Added, Gain;
    match ev
    case SetEid(eid) => t.(eid := eid)
    case AddSub(s) => t.(schan := WithSubchannel(t.schan, s))
    case AddServ(Call(sid, c)) =>
      t.(services := Added(t.services, sid, c), numSrvs := t.numSrvs + Gain(t.services, sid, c),
         schan := WithDabplus(t.schan, c))
  }

  function ApplyAll(t: Ens, evs: seq<Event>): Ens
    decreases |evs|
  {
    hide Apply;
    if evs == [] then t else ApplyAll(Apply(t, evs[0]), evs[1..])
  }

  lemma {:induction false} ApplyAppend(t: Ens, a: seq<Event>, b: seq<Event>)
    ensures ApplyAll(t, a + b) == ApplyAll(ApplyAll(t, a), b)
    decreases |a|
  {
    hide Apply;
    if a == [] {
      assert a + b == b;
    } else {
      ApplyAppend(Apply(t, a[0]), a[1..], b);
      assert (a + b)[1..] == a[1..] + b;
    }
  }

  ghost function StateOf(e: EnsInfo): Ens
    reads e, e.list, e.schan
  {
    Ens(e.eid, e.Entries(), e.numSrvs, e.schan[..])
  }

  /** Only services that are new have joined the list. */
  twostate predicate Grown(e: EnsInfo)
    reads e
  {
    forall k :: 0 <= k < |e.list| ==> e.list[k] in old(e.list) || fresh(e.list[k])
  }

  method AddCall(e: EnsInfo, call: Call)
    requires e.Valid() && call.c.subchid < 64
    modifies e, e.list, e.schan
    ensures e.Valid() && Grown(e) && StateOf(e) == Apply(old(StateOf(e)), AddServ(call))
  {
    hide Added, Gain, EnsInfo.Linked;
    e.AddService(call.c, call.sid);
  }

  method AddOrg(e: EnsInfo, s: Subch)
    requires e.Valid() && 0 <= s.subchid < 64
    modifies e.schan
    ensures e.Valid() && StateOf(e) == Apply(old(StateOf(e)), AddSub(s))
  {
    hide EnsInfo.Linked;
    e.AddSubchannel(s);
  }

  // Reading from the buffer at a position.

  method Peek(buf: array<byte>, p: nat) returns (b: byte)
    ensures b == At(buf[..], p)
  {
    b := if p < buf.Length then buf[p] else 0;
  }

  /** `spack` */
  method PeekShort(buf: array<byte>, p: nat) returns (v: nat)
    ensures v == Spack(Rest(buf[..], p))
  {
    hide At, Rest;
    var a, b: byte := 0, 0;
    a := Peek(buf, p);
    b := Peek(buf, p + 1);
    RestAt(buf[..], p, 0);
    RestAt(buf[..], p, 1);
    v := 256 * (a as int) + b;
  }

  /** `ipack` */
  method PeekInt(buf: array<byte>, p: nat) returns (v: nat)
    ensures v == Ipack(Rest(buf[..], p))
  {
    hide At, Rest;
    var a := PeekShort(buf, p);
    var b := PeekShort(buf, p + 2);
    RestAt(buf[..], p, 0);
    RestAt(buf[..], p, 1);
    RestAt(buf[..], p, 2);
    RestAt(buf[..], p, 3);
    RestAt(buf[..], p + 2, 0);
    RestAt(buf[..], p + 2, 1);
    v := 0x10000 * a + b;
  }

  lemma {:induction false} OrgInRange(w: nat)
    ensures OrgOfWord(w).subchid < 64 && (OrgOfWord(w).Short? ==> OrgOfWord(w).tabIndx < 64)
  {
  }

  /** Store one entry of FIG 0/1. */
  method StoreOrg(e: EnsInfo, o: Org)
    requires e.Valid() && o.subchid < 64 && (o.Short? ==> o.tabIndx < 64)
    modifies e.schan
    ensures e.Valid() && StateOf(e) == Apply(old(StateOf(e)), AddSub(SubchOf(o)))
  {
    hide EnsInfo.Linked, Apply, UepTable;
    var s: Subch;
    if o.Long? {
      var protlvl := o.opt * 4 + o.protlvl;
      var bitrate := 0;
      if protlvl < 8 {
        var row := EepTable(protlvl);
        bitrate := o.subchsz / row.sizemul * row.ratemul;
      }
      s := Subch(o.subchid, o.startaddr, o.subchsz, bitrate, true, protlvl, 0, false);
    } else {
      var row := UepTable(o.tabIndx);
      s := Subch(o.subchid, o.startaddr, row.subchsz, row.bitrate, false, row.protlvl, o.tabIndx, false);
    }
    AddOrg(e, s);
  }

  lemma {:induction false} NextOrg(t: Ens, d: seq<byte>, p: nat, j: int)
    requires j > 0
    ensures var o := OrgAt(Rest(d, p));
            ApplyAll(t, SubEvents(Orgs(Rest(d, p), j))) ==
            ApplyAll(Apply(t, AddSub(SubchOf(o))), SubEvents(Orgs(Rest(d, p + OrgSize(o)), j - OrgSize(o))))
  {
    hide OrgAt, SubchOf, Apply, Rest, At;
    var o := OrgAt(Rest(d, p));
    RestAt(d, p, OrgSize(o));
    var os := Orgs(Rest(d, p + OrgSize(o)), j - OrgSize(o));
    assert Orgs(Rest(d, p), j) == [o] + os;
    assert SubEvents([o] + os) == [AddSub(SubchOf(o))] + SubEvents(os);
  }

  /** `fig_0_1` */
  method Fig01(e: EnsInfo, buf: array<byte>, fig: nat, figlen: int)
    requires e.Valid()
    modifies e.schan
    ensures e.Valid() && StateOf(e) == ApplyAll(old(StateOf(e)), SubEvents(Orgs(Rest(buf[..], fig), figlen)))
  {
    hide EnsInfo.Linked, Apply, ApplyAll, SubEvents, Orgs, OrgAt, Ipack, OrgOfWord, SubchOf, Rest;
    ghost var t0, evs := StateOf(e), SubEvents(Orgs(Rest(buf[..], fig), figlen));
    var p, j := fig, figlen;
    while j > 0
      invariant e.Valid()
      invariant ApplyAll(StateOf(e), SubEvents(Orgs(Rest(buf[..], p), j))) == ApplyAll(t0, evs)
      decreases j
    {
      var w := PeekInt(buf, p);
      var o := OrgOfWord(w);
      WordIsOrg(Rest(buf[..], p));
      OrgInRange(w);
      NextOrg(StateOf(e), buf[..], p, j);
      StoreOrg(e, o);
      if o.Long? {
        p := p + 4;
        j := j - 4;
      } else {
        p := p + 3;
        j := j - 3;
      }
    }
    NoOrgs(StateOf(e), Rest(buf[..], p), j);
  }

  lemma {:induction false} NoOrgs(t: Ens, d: seq<byte>, j: int)
    requires j <= 0
    ensures ApplyAll(t, SubEvents(Orgs(d, j))) == t
  {
  }

  /** The events of the next n components of a service. */
  function CompEvents(sid: int, d: seq<byte>, n: nat): seq<Event> {
    hide *;
    CallEvents(CallsOf(sid, Comps(d, n)))
  }

  lemma {:induction false} NextComp(t: Ens, sid: int, d: seq<byte>, p: nat, n: nat)
    requires n > 0
    ensures var c := CompAt(Rest(d, p));
            ApplyAll(t, CompEvents(sid, Rest(d, p), n)) ==
            ApplyAll(if c.tmid == 0 then Apply(t, AddServ(Call(sid, Component(c.ascty, c.subchid, c.primary)))) else t,
                     CompEvents(sid, Rest(d, p + 2), n - 1))
  {
    hide CompAt, Apply, Rest, At;
    var c, cs := CompAt(Rest(d, p)), Comps(Rest(d, p + 2), n - 1);
    RestAt(d, p, 2);
    assert Comps(Rest(d, p), n) == [c] + cs;
    var call := Call(sid, Component(c.ascty, c.subchid, c.primary));
    assert CallsOf(sid, [c] + cs) == (if c.tmid == 0 then [call] else []) + CallsOf(sid, cs);
    assert [call] + CallsOf(sid, cs) != []
      && CallEvents([call] + CallsOf(sid, cs)) == [AddServ(call)] + CallEvents(CallsOf(sid, cs));
    assert [] + CallsOf(sid, cs) == CallsOf(sid, cs);
  }

  lemma {:induction false} NoComps(t: Ens, sid: int, d: seq<byte>)
    ensures ApplyAll(t, CompEvents(sid, d, 0)) == t
  {
  }

  lemma {:induction false} CompInRange(w: nat)
    ensures CompOfWord(w).subchid < 64
  {
  }

  /** The loop over the components of a service. */
  method StoreComps(e: EnsInfo, buf: array<byte>, fig: nat, sid: int, scmp: nat)
    requires e.Valid()
    modifies e, e.list, e.schan
    ensures e.Valid() && Grown(e)
    ensures StateOf(e) == ApplyAll(old(StateOf(e)), CompEvents(sid, Rest(buf[..], fig), scmp))
  {
    hide EnsInfo.Linked, Apply, ApplyAll, CompEvents, Spack, CompOfWord, Rest;
    ghost var t0, evs := StateOf(e), CompEvents(sid, Rest(buf[..], fig), scmp);
    var p := fig;
    for k := 0 to scmp
      invariant e.Valid() && Grown(e) && p == fig + 2 * k
      invariant ApplyAll(StateOf(e), CompEvents(sid, Rest(buf[..], p), scmp - k)) == ApplyAll(t0, evs)
    {
      var w := PeekShort(buf, p);
      var c := CompOfWord(w);
      CompInRange(w);
      NextComp(StateOf(e), sid, buf[..], p, scmp - k);
      match c.tmid {
        case 0 => AddCall(e, Call(sid, Component(c.ascty, c.subchid, c.primary)));
        case _ =>
      }
      p := p + 2;
    }
    NoComps(StateOf(e), sid, Rest(buf[..], p));
  }

  lemma {:induction false} NextService(t: Ens, d: seq<byte>, p: nat, pd: bool, j: int)
    requires j > 0
    ensures var n := SidSize(pd);
            var scmp := At(d, p + n) % 16;
            var sid := if pd then Ipack(Rest(d, p)) else Spack(Rest(d, p));
            var size := n + 1 + 2 * scmp;
            ApplyAll(t, ServEvents(Services(Rest(d, p), pd, j))) ==
            ApplyAll(ApplyAll(t, CompEvents(sid, Rest(d, p + n + 1), scmp)),
                     ServEvents(Services(Rest(d, p + size), pd, j - size)))
  {
    hide Ipack, Spack, Comps, Apply, ApplyAll, Rest, At, CallsOf, CallEvents;
    var n := SidSize(pd);
    var s := ServiceAt(Rest(d, p), pd);
    RestAt(d, p, n);
    RestAt(d, p, n + 1);
    RestAt(d, p, ServiceSize(s, pd));
    var ss := Services(Rest(d, p + ServiceSize(s, pd)), pd, j - ServiceSize(s, pd));
    assert Services(Rest(d, p), pd, j) == [s] + ss;
    assert ServEvents([s] + ss) == CallEvents(CallsOf(s.sid, s.comps)) + ServEvents(ss);
    ApplyAppend(t, CallEvents(CallsOf(s.sid, s.comps)), ServEvents(ss));
  }

  lemma {:induction false} NoServices(t: Ens, d: seq<byte>, pd: bool, j: int)
    requires j <= 0
    ensures ApplyAll(t, ServEvents(Services(d, pd, j))) == t
  {
  }

  /** `fig_0_2` */
  method Fig02(e: EnsInfo, buf: array<byte>, fig: nat, pd: bool, figlen: int)
    requires e.Valid()
    modifies e, e.list, e.schan
    ensures e.Valid() && Grown(e)
    ensures StateOf(e) == ApplyAll(old(StateOf(e)), ServEvents(Services(Rest(buf[..], fig), pd, figlen)))
  {
    hide EnsInfo.Linked, Apply, ApplyAll, CompEvents, Spack, Ipack, Rest, At, ServEvents, Services;
    ghost var t0, evs := StateOf(e), ServEvents(Services(Rest(buf[..], fig), pd, figlen));
    var p: nat, j := fig, figlen;
    while j > 0
      invariant e.Valid() && Grown(e)
      invariant ApplyAll(StateOf(e), ServEvents(Services(Rest(buf[..], p), pd, j))) == ApplyAll(t0, evs)
      decreases j
    {
      NextService(StateOf(e), buf[..], p, pd, j);
      var sid: int;
      if pd {
        sid := PeekInt(buf, p);
        p := p + 4;
        j := j - 4;
      } else {
        sid := PeekShort(buf, p);
        p := p + 2;
        j := j - 2;
      }
      var lcn := Peek(buf, p);
      var scmp := lcn % 16;
      p := p + 1;
      j := j - 1;
      StoreComps(e, buf, p, sid, scmp);
      p := p + 2 * scmp;
      j := j - 2 * scmp;
    }
    NoServices(StateOf(e), Rest(buf[..], p), pd, j);
  }

  /** `fig_1_5`: the label is ended where it lies. */
  method Fig15(buf: array<byte>, fig: nat)
    modifies buf
    ensures buf[..] == if fig + 20 < buf.Length then old(buf[..])[fig + 20 := 0] else old(buf[..])
  {
    if fig + 4 + 16 < buf.Length {
      buf[fig + 4 + 16] := 0;
    }
  }

  /** `unpickfig`, `fig_0` and `fig_1`: the jump tables. */
  method UnpickFig(e: EnsInfo, buf: array<byte>, fig: nat, figlen: nat)
    requires e.Valid()
    modifies e, e.list, e.schan, buf
    ensures e.Valid() && Grown(e)
    ensures StateOf(e) == ApplyAll(old(StateOf(e)), FigEvents(Rest(old(buf[..]), fig), figlen))
    ensures buf[..] == AfterFig(old(buf[..]), fig)
  {
    hide EnsInfo.Linked, Spack, At, Rest, SubEvents, Orgs, ServEvents, Services;
    RestAt(buf[..], fig, 0);
    RestAt(buf[..], fig, 1);
    RestAt(buf[..], fig, 2);
    var header := Peek(buf, fig);
    var typ: nat := header / 32;
    var ext := Peek(buf, fig + 1);
    if typ == 0 {
      var extn, pd: nat := ext % 32, ext / 32 % 2;
      match extn {
        case 0 => SetEnsembleId(e, buf, fig + 2);
        case 1 => Fig01(e, buf, fig + 2, figlen - 1);
        case 2 => Fig02(e, buf, fig + 2, pd == 1, figlen - 1);
        case _ =>
      }
    } else if typ == 1 {
      var extn: nat := ext % 8;
      match extn {
        case 0 => SetEnsembleId(e, buf, fig + 2);
        case 5 => Fig15(buf, fig + 2);
        case _ =>
      }
    }
  }

  /** What `fig_0_0` and `fig_1_0` do to the database. */
  method SetEnsembleId(e: EnsInfo, buf: array<byte>, fig: nat)
    requires e.Valid()
    modifies e
    ensures e.Valid() && e.list == old(e.list)
    ensures StateOf(e) == ApplyAll(old(StateOf(e)), [SetEid(Spack(Rest(buf[..], fig)))])
  {
    hide Spack, Rest;
    var v := PeekShort(buf, fig);
    e.eid := v;
    OneEvent(old(StateOf(e)), SetEid(v));
  }

  lemma {:induction false} OneEvent(t: Ens, ev: Event)
    ensures ApplyAll(t, [ev]) == Apply(t, ev)
  {
    hide Apply;
    assert ApplyAll(Apply(t, ev), []) == Apply(t, ev);
  }

  lemma {:induction false} NextFig(t: Ens, d: seq<byte>, fig: nat, j: nat)
    requires j < 30 && At(d, fig) != 0xff
    ensures var n, w := At(d, fig) % 32, Walk(d, fig, j);
            var v := Walk(AfterFig(d, fig), fig + n + 1, j + n + 1);
            && w.raw == v.raw
            && ApplyAll(t, w.evs) == ApplyAll(ApplyAll(t, FigEvents(Rest(d, fig), n)), v.evs)
  {
    hide Apply, ApplyAll, FigEvents, AfterFig, Rest, At;
    var n := At(d, fig) % 32;
    ApplyAppend(t, FigEvents(Rest(d, fig), n), Walk(AfterFig(d, fig), fig + n + 1, j + n + 1).evs);
  }

  lemma {:induction false} LastFig(t: Ens, d: seq<byte>, fig: nat, j: nat)
    requires j >= 30 || At(d, fig) == 0xff
    ensures Walk(d, fig, j).raw == d && ApplyAll(t, Walk(d, fig, j).evs) == t
  {
    hide Apply, At;
  }

  /** The inner loop of `process_fic`. */
  method WalkFib(e: EnsInfo, rawfibs: array<byte>, start: nat)
    requires e.Valid()
    modifies e, e.list, e.schan, rawfibs
    ensures e.Valid() && Grown(e)
    ensures var w := Walk(old(rawfibs[..]), start, 0);
            rawfibs[..] == w.raw && StateOf(e) == ApplyAll(old(StateOf(e)), w.evs)
  {
    hide EnsInfo.Linked, Apply, ApplyAll, At, Walk, FigEvents, AfterFig;
    ghost var w, t0 := Walk(rawfibs[..], start, 0), StateOf(e);
    var fig: nat, j: nat := start, 0;
    var b := Peek(rawfibs, fig);
    while j < 30 && b != 0xff
      invariant e.Valid() && Grown(e) && b == At(rawfibs[..], fig)
      invariant Walk(rawfibs[..], fig, j).raw == w.raw
      invariant ApplyAll(StateOf(e), Walk(rawfibs[..], fig, j).evs) == ApplyAll(t0, w.evs)
      decreases 30 - j
    {
      var figlen: nat := b % 32;
      NextFig(StateOf(e), rawfibs[..], fig, j);
      UnpickFig(e, rawfibs, fig, figlen);
      j := j + figlen + 1;
      fig := fig + figlen + 1;
      b := Peek(rawfibs, fig);
    }
    LastFig(StateOf(e), rawfibs[..], fig, j);
  }

  /** The outer loop of `process_fic`. */
  method WalkFibs(e: EnsInfo, rawfibs: array<byte>, fibs: nat)
    requires e.Valid()
    modifies e, e.list, e.schan, rawfibs
    ensures e.Valid() && Grown(e)
    ensures var w := FibsWalk(old(rawfibs[..]), fibs);
            rawfibs[..] == w.raw && StateOf(e) == ApplyAll(old(StateOf(e)), w.evs)
  {
    hide EnsInfo.Linked, Apply, Walk;
    for i := 0 to fibs
      invariant e.Valid() && Grown(e)
      invariant rawfibs[..] == FibsWalk(old(rawfibs[..]), i).raw
      invariant StateOf(e) == ApplyAll(old(StateOf(e)), FibsWalk(old(rawfibs[..]), i).evs)
    {
      ghost var w := FibsWalk(old(rawfibs[..]), i);
      ApplyAppend(old(StateOf(e)), w.evs, Walk(w.raw, 30 * i, 0).evs);
      WalkFib(e, rawfibs, 30 * i);
    }
  }

  /** `process_fic`: decode three symbols and walk over the good blocks. The walk starts from what the
      decoder has left in the buffer, which is returned for reference. */
  method ProcessFic(e: EnsInfo, sym2: array<byte>, sym3: array<byte>, sym4: array<byte>, rawfibs: array<byte>,
                    m: Mettab, longBits: wordsize) returns (fibs: nat, ghost decoded: seq<byte>)
    requires e.Valid() && sym2.Length == sym3.Length == sym4.Length == SYMBOL_BYTES && rawfibs.Length == 360
    requires rawfibs != sym2 && rawfibs != sym3 && rawfibs != sym4
    modifies rawfibs, e, e.list, e.schan
    ensures e.Valid() && Grown(e)
    ensures FicOutput(m, old(sym2[..]), old(sym3[..]), old(sym4[..]), old(rawfibs[..]), decoded, fibs)
    ensures var w := FibsWalk(decoded, fibs);
            rawfibs[..] == w.raw && StateOf(e) == ApplyAll(old(StateOf(e)), w.evs)
  {
    hide FicOutput, FibsWalk, ApplyAll, EnsInfo.Linked;
    fibs := FicDecode(sym2, sym3, sym4, rawfibs, m, longBits);
    decoded := rawfibs[..];
    WalkFibs(e, rawfibs, fibs);
  }
}
