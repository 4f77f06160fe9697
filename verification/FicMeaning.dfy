/** What printed groups say about an ensemble, and that the database says the same. */
module FicMeaning {
  import opened Bits
  import opened Tables
  import opened Ensemble
  import opened Figs
  import opened FicProcess
  import opened FigWalk
  import opened FicDatabase
  import opened Standard

  // The ensemble identifier.

  /** The identifier that the last group with one has, or the one before. */
  function LastEid(gs: seq<Group>, eid: nat): nat {
    if gs == [] then eid
    else
      match gs[|gs| - 1]
      case EnsembleGroup(e, _, _) => e
      case LabelGroup(e, _, _) => e
      case _ => LastEid(gs[..|gs| - 1], eid)
  }

  // Sub-channels.

  /** The printed descriptions of sub-channels, in order. */
  function PrintedOrgs(gs: seq<Group>): seq<Org> {
    if gs == [] then []
    else (if gs[0].SubchGroup? then gs[0].os else []) + PrintedOrgs(gs[1..])
  }

  /** The stored description is that of the printed entry, section 6.2.1: the long form gives size and level,
      the short form the index of a row of the table. The bit rate of the long form is that of the units that
      fit into the size, where the level is one of the table. */
  predicate Describes(o: Org, s: Subch) {
    s.subchid == o.subchid && s.startaddr == o.startaddr
    && match o
       case Long(_, _, opt, protlvl, subchsz) =>
         && s.eepprot && s.subchsz == subchsz && s.protlvl == 4 * opt + protlvl
         && (s.protlvl < 8 ==> s.bitrate == subchsz / UnitSize(s.protlvl) * UnitRate(s.protlvl))
       case Short(_, _, _, tabIndx) =>
         !s.eepprot && s.uepIndx == tabIndx && tabIndx < 64 &&
         var row := UepTable(tabIndx);
         s.subchsz == row.subchsz && s.bitrate == row.bitrate && s.protlvl == row.protlvl
  }

  lemma {:induction false} StoredDescribes(o: Org)
    requires OrgFits(o)
    ensures Describes(o, SubchOf(o))
  {
    hide UepTable;
  }

  predicate FirstOrg(os: seq<Org>, k: nat, p: nat) {
    p < |os| && os[p].subchid == k && forall q :: 0 <= q < p ==> os[q].subchid != k
  }

  /** s is unused if nothing describes sub-channel k, and otherwise holds the first description. */
  ghost predicate HoldsFirst(os: seq<Org>, k: nat, s: Subch) {
    hide Describes;
    && ((forall p :: 0 <= p < |os| ==> os[p].subchid != k) ==> s.subchid > 64)
    && forall p: nat :: FirstOrg(os, k, p) ==> Describes(os[p], s)
  }

  // Services.

  /** A service component in the MSC stream mode for audio, as it is printed. */
  datatype Naming = Naming(sid: nat, comp: Comp)

  function NamedBy(sid: nat, cs: seq<Comp>): seq<Naming> {
    if cs == [] then [] else (if cs[0].tmid == 0 then [Naming(sid, cs[0])] else []) + NamedBy(sid, cs[1..])
  }

  function NamedIn(ss: seq<ServiceInfo>): seq<Naming> {
    if ss == [] then [] else NamedBy(ss[0].sid, ss[0].comps) + NamedIn(ss[1..])
  }

  function Namings(gs: seq<Group>): seq<Naming> {
    if gs == [] then [] else (if gs[0].ServiceGroup? then NamedIn(gs[0].ss) else []) + Namings(gs[1..])
  }

  /** The calls say what was printed. */
  predicate Same(ns: seq<Naming>, calls: seq<Call>) {
    |ns| == |calls| && forall i :: 0 <= i < |ns| ==>
      && calls[i].sid == ns[i].sid && calls[i].c.subchid == ns[i].comp.subchid
      && calls[i].c.ascty == ns[i].comp.ascty && calls[i].c.primary == ns[i].comp.primary
  }

  lemma {:induction false} SameAppend(ns: seq<Naming>, calls: seq<Call>, ns': seq<Naming>, calls': seq<Call>)
    requires Same(ns, calls) && Same(ns', calls')
    ensures Same(ns + ns', calls + calls')
  {
  }

  // Events of what was printed.

  lemma {:induction false} CallsAppend(a: seq<Event>, b: seq<Event>)
    ensures CallsIn(a + b) == CallsIn(a) + CallsIn(b)
    decreases |b|
  {
    if b == [] {
      assert a + b == a;
    } else {
      var n := |b| - 1;
      CallsAppend(a, b[..n]);
      assert (a + b)[..|a + b| - 1] == a + b[..n] && (a + b)[|a + b| - 1] == b[n];
    }
  }

  lemma {:induction false} GroupsAppend(gs: seq<Group>, hs: seq<Group>)
    ensures GroupsEvents(gs + hs) == GroupsEvents(gs) + GroupsEvents(hs)
    decreases |gs|
  {
    hide GroupEvents;
    if gs == [] {
      assert gs + hs == hs;
    } else {
      GroupsAppend(gs[1..], hs);
      assert (gs + hs)[1..] == gs[1..] + hs;
    }
  }

  lemma {:induction false} GroupsLast(gs: seq<Group>)
    requires gs != []
    ensures GroupsEvents(gs) == GroupsEvents(gs[..|gs| - 1]) + GroupEvents(gs[|gs| - 1])
  {
    hide GroupEvents, GroupsEvents;
    var n := |gs| - 1;
    assert gs == gs[..n] + [gs[n]];
    GroupsAppend(gs[..n], [gs[n]]);
    OneGroup(gs[n]);
  }

  lemma {:induction false} OneGroup(g: Group)
    ensures GroupsEvents([g]) == GroupEvents(g)
  {
    hide GroupEvents;
    assert GroupsEvents([]) == [];
  }

  lemma {:induction false} CallsOfEvents(calls: seq<Call>)
    ensures CallsIn(CallEvents(calls)) == calls
    decreases |calls|
  {
    if calls != [] {
      CallsOfEvents(calls[1..]);
      CallsAppend([AddServ(calls[0])], CallEvents(calls[1..]));
      OneCall(calls[0]);
    }
  }

  lemma {:induction false} OneCall(call: Call)
    ensures CallsIn([AddServ(call)]) == [call]
  {
    assert CallsIn([]) == [];
  }

  lemma {:induction false} SameBy(sid: nat, cs: seq<Comp>)
    ensures Same(NamedBy(sid, cs), CallsOf(sid, cs))
    decreases |cs|
  {
    if cs != [] {
      SameBy(sid, cs[1..]);
      var call := Call(sid, Component(cs[0].ascty, cs[0].subchid, cs[0].primary));
      SameAppend(if cs[0].tmid == 0 then [Naming(sid, cs[0])] else [], if cs[0].tmid == 0 then [call] else [],
                 NamedBy(sid, cs[1..]), CallsOf(sid, cs[1..]));
    }
  }

  lemma {:induction false} SameIn(ss: seq<ServiceInfo>)
    ensures Same(NamedIn(ss), CallsIn(ServEvents(ss)))
    decreases |ss|
  {
    hide Same, CallsOf, CallEvents, NamedBy;
    if ss == [] {
      NothingNamed();
    } else {
      var calls := CallsOf(ss[0].sid, ss[0].comps);
      SameBy(ss[0].sid, ss[0].comps);
      SameIn(ss[1..]);
      CallsOfEvents(calls);
      CallsAppend(CallEvents(calls), ServEvents(ss[1..]));
      SameAppend(NamedBy(ss[0].sid, ss[0].comps), calls, NamedIn(ss[1..]), CallsIn(ServEvents(ss[1..])));
    }
  }

  lemma NothingNamed()
    ensures Same([], CallsIn([]))
  {
  }

  /** Printed sub-channels make no calls. */
  lemma {:induction false} NoCalls(os: seq<Org>)
    ensures CallsIn(SubEvents(os)) == []
    decreases |os|
  {
    hide SubchOf;
    if os != [] {
      NoCalls(os[1..]);
      CallsAppend([AddSub(SubchOf(os[0]))], SubEvents(os[1..]));
      assert CallsIn([]) == [] && CallsIn([AddSub(SubchOf(os[0]))]) == CallsIn([]);
    }
  }

  lemma {:induction false} NoCall(eid: nat)
    ensures CallsIn([SetEid(eid)]) == [] && CallsIn([]) == []
  {
    assert CallsIn([SetEid(eid)]) == CallsIn([]);
  }

  lemma {:induction false} SameOfGroup(g: Group)
    ensures Same(if g.ServiceGroup? then NamedIn(g.ss) else [], CallsIn(GroupEvents(g)))
  {
    hide SubEvents, ServEvents, NamedIn, Same;
    match g {
      case EnsembleGroup(eid, _, _) => NoCall(eid);
      case SubchGroup(_, os) => NoCalls(os);
      case ServiceGroup(_, _, ss) => SameIn(ss);
      case LabelGroup(eid, _, _) => NoCall(eid);
      case OtherGroup(_, _) => NoCall(0);
    }
    NothingNamed();
    NoCall(0);
  }

  lemma {:induction false} SameOfGroups(gs: seq<Group>)
    ensures Same(Namings(gs), CallsIn(GroupsEvents(gs)))
    decreases |gs|
  {
    hide Same, GroupEvents, NamedIn;
    if gs == [] {
      NothingNamed();
    } else {
      SameOfGroup(gs[0]);
      SameOfGroups(gs[1..]);
      CallsAppend(GroupEvents(gs[0]), GroupsEvents(gs[1..]));
      SameAppend(if gs[0].ServiceGroup? then NamedIn(gs[0].ss) else [], CallsIn(GroupEvents(gs[0])),
                 Namings(gs[1..]), CallsIn(GroupsEvents(gs[1..])));
    }
  }

  // The identifier after the groups.

  predicate NoEid(evs: seq<Event>) {
    forall i :: 0 <= i < |evs| ==> !evs[i].SetEid?
  }

  lemma {:induction false} EidStays(t: Ens, evs: seq<Event>)
    requires NoEid(evs)
    ensures ApplyAll(t, evs).eid == t.eid
    decreases |evs|
  {
    hide Added, Gain, WithSubchannel, WithDabplus;
    if evs != [] {
      EidStays(Apply(t, evs[0]), evs[1..]);
    }
  }

  lemma {:induction false} SubsNoEid(os: seq<Org>)
    ensures NoEid(SubEvents(os))
    decreases |os|
  {
    hide SubchOf;
    if os != [] {
      SubsNoEid(os[1..]);
    }
  }

  lemma {:induction false} CallsNoEid(calls: seq<Call>)
    ensures NoEid(CallEvents(calls))
    decreases |calls|
  {
    if calls != [] {
      CallsNoEid(calls[1..]);
    }
  }

  lemma {:induction false} ServsNoEid(ss: seq<ServiceInfo>)
    ensures NoEid(ServEvents(ss))
    decreases |ss|
  {
    hide CallEvents, CallsOf;
    if ss != [] {
      CallsNoEid(CallsOf(ss[0].sid, ss[0].comps));
      ServsNoEid(ss[1..]);
    }
  }

  lemma {:induction false} EidOfGroup(t: Ens, g: Group)
    ensures ApplyAll(t, GroupEvents(g)).eid ==
              if g.EnsembleGroup? || g.LabelGroup? then g.eid else t.eid
  {
    hide SubEvents, ServEvents, Apply, ApplyAll;
    match g {
      case EnsembleGroup(eid, _, _) => OneEvent(t, SetEid(eid)); EidSet(t, eid);
      case SubchGroup(_, os) => SubsNoEid(os); EidStays(t, SubEvents(os));
      case ServiceGroup(_, _, ss) => ServsNoEid(ss); EidStays(t, ServEvents(ss));
      case LabelGroup(eid, _, _) => OneEvent(t, SetEid(eid)); EidSet(t, eid);
      case OtherGroup(_, _) => EidStays(t, []);
    }
  }

  lemma {:induction false} EidSet(t: Ens, eid: nat)
    ensures Apply(t, SetEid(eid)).eid == eid
  {
  }

  /** The database has the identifier of the last group that has one. */
  lemma {:induction false} EidOfGroups(t: Ens, gs: seq<Group>)
    ensures ApplyAll(t, GroupsEvents(gs)).eid == LastEid(gs, t.eid)
    decreases |gs|
  {
    hide GroupEvents, Apply;
    if gs != [] {
      var n := |gs| - 1;
      EidOfGroups(t, gs[..n]);
      GroupsLast(gs);
      ApplyAppend(t, GroupsEvents(gs[..n]), GroupEvents(gs[n]));
      EidOfGroup(ApplyAll(t, GroupsEvents(gs[..n])), gs[n]);
    }
  }

  // The sub-channels after the groups.

  /** The descriptions among some events. */
  function SubsIn(evs: seq<Event>): seq<Subch> {
    if evs == [] then [] else (if evs[0].AddSub? then [evs[0].s] else []) + SubsIn(evs[1..])
  }

  lemma {:induction false} SubsAppend(a: seq<Event>, b: seq<Event>)
    ensures SubsIn(a + b) == SubsIn(a) + SubsIn(b)
    decreases |a|
  {
    if a == [] {
      assert a + b == b;
    } else {
      SubsAppend(a[1..], b);
      assert (a + b)[1..] == a[1..] + b;
    }
  }

  predicate FirstSub(subs: seq<Subch>, k: nat, p: nat) {
    p < |subs| && subs[p].subchid == k && forall q :: 0 <= q < p ==> subs[q].subchid != k
  }

  predicate Unnamed(subs: seq<Subch>, k: nat) {
    forall p :: 0 <= p < |subs| ==> subs[p].subchid != k
  }

  lemma {:induction false} ApplyKeeps(t: Ens, ev: Event, k: nat)
    requires k < |t.schan| && t.schan[k].subchid > 64 && (ev.AddSub? ==> ev.s.subchid != k)
    ensures |Apply(t, ev).schan| == |t.schan| && Apply(t, ev).schan[k].subchid > 64
  {
    hide Added, Gain;
  }

  lemma {:induction false} ApplyStores(t: Ens, s: Subch)
    requires 0 <= s.subchid < |t.schan| && t.schan[s.subchid].subchid > 64
    ensures |Apply(t, AddSub(s)).schan| == |t.schan| && Apply(t, AddSub(s)).schan[s.subchid] == s
  {
  }

  /** An unused sub-channel takes the first description; later ones leave it, but for the audio type. */
  lemma {:induction false} FirstStored(t: Ens, evs: seq<Event>, k: nat)
    requires k < 64 && k < |t.schan| && t.schan[k].subchid > 64
    ensures |ApplyAll(t, evs).schan| > k
    ensures Unnamed(SubsIn(evs), k) ==> ApplyAll(t, evs).schan[k].subchid > 64
    ensures forall p: nat :: FirstSub(SubsIn(evs), k, p) ==>
              ApplyAll(t, evs).schan[k].(dabplus := false) == SubsIn(evs)[p].(dabplus := false)
    decreases |evs|
  {
    hide Apply;
    if evs != [] {
      var ev := evs[0];
      if ev.AddSub? && ev.s.subchid == k {
        ApplyStores(t, ev.s);
        SubchannelStays(Apply(t, ev), evs[1..], k);
        assert SubsIn(evs)[0] == ev.s;
      } else {
        ApplyKeeps(t, ev, k);
        FirstStored(Apply(t, ev), evs[1..], k);
        LaterFirst(evs, k);
      }
    }
  }

  lemma {:induction false} LaterFirst(evs: seq<Event>, k: nat)
    requires evs != [] && !(evs[0].AddSub? && evs[0].s.subchid == k)
    ensures Unnamed(SubsIn(evs), k) ==> Unnamed(SubsIn(evs[1..]), k)
    ensures forall p: nat :: FirstSub(SubsIn(evs), k, p) ==>
              var q := if evs[0].AddSub? then p - 1 else p;
              q >= 0 && FirstSub(SubsIn(evs[1..]), k, q) && SubsIn(evs[1..])[q] == SubsIn(evs)[p]
  {
    var a, b := SubsIn(evs), SubsIn(evs[1..]);
    if evs[0].AddSub? {
      assert a == [evs[0].s] + b;
      assert forall i :: 0 <= i < |b| ==> b[i] == a[i + 1];
    } else {
      assert a == b;
    }
  }

  /** Every description is the stored form of a printed entry, in the same order. */
  predicate Entered(os: seq<Org>, subs: seq<Subch>) {
    hide OrgFits, SubchOf;
    |os| == |subs| && forall i :: 0 <= i < |os| ==> OrgFits(os[i]) && subs[i] == SubchOf(os[i])
  }

  lemma {:induction false} EnteredAppend(os: seq<Org>, subs: seq<Subch>, os': seq<Org>, subs': seq<Subch>)
    requires Entered(os, subs) && Entered(os', subs')
    ensures Entered(os + os', subs + subs')
  {
    hide OrgFits, SubchOf;
  }

  lemma NothingEntered()
    ensures Entered([], SubsIn([]))
  {
  }

  lemma {:induction false} EnteredOrg(o: Org)
    requires OrgFits(o)
    ensures Entered([o], SubsIn([AddSub(SubchOf(o))]))
  {
    hide OrgFits, SubchOf;
    assert SubsIn([]) == [];
  }

  predicate AllFit(os: seq<Org>) {
    hide OrgFits;
    forall k :: 0 <= k < |os| ==> OrgFits(os[k])
  }

  lemma {:induction false} EnteredOrgs(os: seq<Org>)
    requires AllFit(os)
    ensures Entered(os, SubsIn(SubEvents(os)))
    decreases |os|
  {
    hide Entered, SubchOf, OrgFits, SubsIn;
    if os == [] {
      NothingEntered();
    } else {
      EnteredOrg(os[0]);
      EnteredOrgs(os[1..]);
      SubsAppend([AddSub(SubchOf(os[0]))], SubEvents(os[1..]));
      EnteredAppend([os[0]], SubsIn([AddSub(SubchOf(os[0]))]), os[1..], SubsIn(SubEvents(os[1..])));
      assert [os[0]] + os[1..] == os;
    }
  }

  predicate NoSub(evs: seq<Event>) {
    forall i :: 0 <= i < |evs| ==> !evs[i].AddSub?
  }

  lemma {:induction false} NoSubs(evs: seq<Event>)
    requires NoSub(evs)
    ensures SubsIn(evs) == []
    decreases |evs|
  {
    if evs != [] {
      NoSubs(evs[1..]);
    }
  }

  lemma {:induction false} CallsNoSub(calls: seq<Call>)
    ensures NoSub(CallEvents(calls))
    decreases |calls|
  {
    if calls != [] {
      CallsNoSub(calls[1..]);
    }
  }

  lemma {:induction false} ServsNoSub(ss: seq<ServiceInfo>)
    ensures NoSub(ServEvents(ss))
    decreases |ss|
  {
    hide CallEvents, CallsOf;
    if ss != [] {
      CallsNoSub(CallsOf(ss[0].sid, ss[0].comps));
      ServsNoSub(ss[1..]);
    }
  }

  lemma {:induction false} OrgsFit(g: Group)
    requires Printable(g) && g.SubchGroup?
    ensures AllFit(g.os)
  {
    hide OrgFits, GroupBody;
  }

  lemma {:induction false} EnteredGroup(g: Group)
    requires Printable(g)
    ensures Entered(if g.SubchGroup? then g.os else [], SubsIn(GroupEvents(g)))
  {
    hide Entered, SubsIn, SubEvents, ServEvents, Printable;
    NothingEntered();
    match g {
      case EnsembleGroup(eid, _, _) => NoSubs([SetEid(eid)]);
      case SubchGroup(_, os) => OrgsFit(g); EnteredOrgs(os);
      case ServiceGroup(_, _, ss) => ServsNoSub(ss); NoSubs(ServEvents(ss));
      case LabelGroup(eid, _, _) => NoSubs([SetEid(eid)]);
      case OtherGroup(_, _) => NoSubs([]);
    }
    NoSubs([]);
  }

  predicate AllPrintable(gs: seq<Group>) {
    hide Printable;
    forall k :: 0 <= k < |gs| ==> Printable(gs[k])
  }

  lemma {:induction false} EnteredGroups(gs: seq<Group>)
    requires AllPrintable(gs)
    ensures Entered(PrintedOrgs(gs), SubsIn(GroupsEvents(gs)))
    decreases |gs|
  {
    hide Entered, GroupEvents, Printable, SubsIn;
    if gs == [] {
      NothingEntered();
    } else {
      EnteredGroup(gs[0]);
      EnteredGroups(gs[1..]);
      SubsAppend(GroupEvents(gs[0]), GroupsEvents(gs[1..]));
      EnteredAppend(if gs[0].SubchGroup? then gs[0].os else [], SubsIn(GroupEvents(gs[0])),
                    PrintedOrgs(gs[1..]), SubsIn(GroupsEvents(gs[1..])));
    }
  }

  lemma {:induction false} FirstDescribes(os: seq<Org>, subs: seq<Subch>, k: nat, p: nat, s: Subch)
    requires Entered(os, subs) && FirstOrg(os, k, p)
    requires FirstSub(subs, k, p) ==> s.(dabplus := false) == subs[p].(dabplus := false)
    ensures Describes(os[p], s)
  {
    hide OrgFits, UepTable;
    SameIds(os, subs);
    StoredDescribes(os[p]);
  }

  lemma {:induction false} SameIds(os: seq<Org>, subs: seq<Subch>)
    requires Entered(os, subs)
    ensures |os| == |subs| && forall i :: 0 <= i < |os| ==> os[i].subchid == subs[i].subchid
  {
    hide OrgFits, UepTable;
  }

  /** A sub-channel that was unused holds the first description that was printed of it. */
  lemma {:induction false} SubchannelOfGroups(t: Ens, gs: seq<Group>, k: nat)
    requires AllPrintable(gs) && k < 64 && k < |t.schan| && t.schan[k].subchid > 64
    ensures var t' := ApplyAll(t, GroupsEvents(gs));
            k < |t'.schan| && HoldsFirst(PrintedOrgs(gs), k, t'.schan[k])
  {
    hide Describes, ApplyAll, SubsIn, Entered, PrintedOrgs, GroupsEvents;
    var evs, os := GroupsEvents(gs), PrintedOrgs(gs);
    EnteredGroups(gs);
    FirstStored(t, evs, k);
    SameIds(os, SubsIn(evs));
    var s := ApplyAll(t, evs).schan[k];
    forall p: nat | FirstOrg(os, k, p) ensures Describes(os[p], s) {
      FirstDescribes(os, SubsIn(evs), k, p, s);
    }
  }

  // The audio type of a sub-channel that has been described.

  predicate NotNamed(calls: seq<Call>, k: nat) {
    forall p :: 0 <= p < |calls| ==> calls[p].c.subchid != k
  }

  predicate LastCall(calls: seq<Call>, k: nat, p: nat) {
    p < |calls| && calls[p].c.subchid == k && forall q :: p < q < |calls| ==> calls[q].c.subchid != k
  }

  ghost predicate TypeOfCalls(calls: seq<Call>, k: nat, before: bool, after: bool) {
    && (NotNamed(calls, k) ==> after == before)
    && forall p: nat :: LastCall(calls, k, p) ==> after == (calls[p].c.ascty == DABPLUS)
  }

  lemma {:induction false} TypeNext(calls: seq<Call>, call: Call, k: nat, before: bool, after: bool)
    requires TypeOfCalls(calls, k, before, after)
    ensures TypeOfCalls(calls + [call], k, before,
                        if call.c.subchid == k then call.c.ascty == DABPLUS else after)
  {
    var calls' := calls + [call];
    if call.c.subchid == k {
      assert calls'[|calls|].c.subchid == k;
    } else {
      assert forall p :: 0 <= p < |calls| ==> calls[p] == calls'[p];
      assert forall p: nat :: LastCall(calls', k, p) ==> LastCall(calls, k, p);
    }
  }

  lemma {:induction false} TypeAfter(t: Ens, ev: Event, k: nat)
    requires k < |t.schan| && t.schan[k].subchid <= 64
    ensures k < |Apply(t, ev).schan|
    ensures Apply(t, ev).schan[k].dabplus ==
              if ev.AddServ? && ev.call.c.subchid == k then ev.call.c.ascty == DABPLUS else t.schan[k].dabplus
  {
    hide Added, Gain;
  }

  lemma {:induction false} TypeOfEvents(t: Ens, evs: seq<Event>, k: nat)
    requires k < |t.schan| && t.schan[k].subchid <= 64
    ensures var schan := ApplyAll(t, evs).schan;
            k < |schan| && TypeOfCalls(CallsIn(evs), k, t.schan[k].dabplus, schan[k].dabplus)
    decreases |evs|
  {
    hide Apply, TypeOfCalls;
    if evs == [] {
      NoType(t.schan[k].dabplus, k);
    } else {
      var n := |evs| - 1;
      TypeOfEvents(t, evs[..n], k);
      SubchannelStays(t, evs[..n], k);
      assert evs == evs[..n] + [evs[n]];
      ApplyAppend(t, evs[..n], [evs[n]]);
      var t' := ApplyAll(t, evs[..n]);
      OneEvent(t', evs[n]);
      TypeAfter(t', evs[n], k);
      if evs[n].AddServ? {
        TypeNext(CallsIn(evs[..n]), evs[n].call, k, t.schan[k].dabplus, t'.schan[k].dabplus);
      } else {
        assert CallsIn(evs) == CallsIn(evs[..n]);
      }
    }
  }

  lemma NoType(before: bool, k: nat)
    ensures TypeOfCalls([], k, before, before)
  {
  }

  predicate LastNaming(ns: seq<Naming>, k: nat, p: nat) {
    p < |ns| && ns[p].comp.subchid == k && forall q :: p < q < |ns| ==> ns[q].comp.subchid != k
  }

  /** dabplus says whether the last component printed for sub-channel k has the DAB+ audio type, and is as
      before if there is none. */
  ghost predicate TellsType(ns: seq<Naming>, k: nat, before: bool, after: bool) {
    && ((forall p :: 0 <= p < |ns| ==> ns[p].comp.subchid != k) ==> after == before)
    && forall p: nat :: LastNaming(ns, k, p) ==> after == (ns[p].comp.ascty == 0x3f)
  }

  lemma {:induction false} TypeIsTold(ns: seq<Naming>, calls: seq<Call>, k: nat, before: bool, after: bool)
    requires Same(ns, calls) && TypeOfCalls(calls, k, before, after)
    ensures TellsType(ns, k, before, after)
  {
    assert forall p: nat :: LastNaming(ns, k, p) ==> LastCall(calls, k, p);
  }

  /** The audio type of a sub-channel that was described earlier follows the components. */
  lemma {:induction false} TypeOfGroups(t: Ens, gs: seq<Group>, k: nat)
    requires k < |t.schan| && t.schan[k].subchid <= 64
    ensures var t' := ApplyAll(t, GroupsEvents(gs));
            k < |t'.schan| && TellsType(Namings(gs), k, t.schan[k].dabplus, t'.schan[k].dabplus)
  {
    hide ApplyAll, TypeOfCalls, TellsType, Same, Namings, GroupsEvents, CallsIn;
    SameOfGroups(gs);
    TypeOfEvents(t, GroupsEvents(gs), k);
    TypeIsTold(Namings(gs), CallsIn(GroupsEvents(gs)), k, t.schan[k].dabplus,
               ApplyAll(t, GroupsEvents(gs)).schan[k].dabplus);
  }

  // The services after the groups.

  predicate PartNaming(n: Naming, sid: int, primary: bool) {
    n.sid == sid && n.comp.primary == primary
  }

  /** o is the sub-channel of the first component of this kind that was printed for the service. */
  ghost predicate FirstPart(ns: seq<Naming>, sid: int, primary: bool, o: Option<nat>) {
    match o
    case None => forall q :: 0 <= q < |ns| ==> !PartNaming(ns[q], sid, primary)
    case Some(ch) => exists p :: 0 <= p < |ns| && PartNaming(ns[p], sid, primary) && ns[p].comp.subchid == ch
                                 && forall q :: 0 <= q < p ==> !PartNaming(ns[q], sid, primary)
  }

  /** The service is among the first n that were printed. */
  predicate NamedBefore(ns: seq<Naming>, sid: int, n: nat) {
    exists q :: 0 <= q < n && q < |ns| && ns[q].sid == sid
  }

  predicate Listed(es: seq<Entry>, sid: int) {
    exists i :: 0 <= i < |es| && es[i].sid == sid
  }

  /** The list holds the services that were printed with an audio component, each once, in the order of their
      first component, with the first primary and the first secondary one. */
  ghost predicate ListsServices(ns: seq<Naming>, es: seq<Entry>) {
    hide NamedBefore, Listed, FirstPart;
    && DistinctIds(es)
    && (forall q :: 0 <= q < |ns| ==> Listed(es, ns[q].sid))
    && (forall i :: 0 <= i < |es| ==> NamedBefore(ns, es[i].sid, |ns|))
    && (forall i, j, p: nat :: 0 <= i < j < |es| && p < |ns| && ns[p].sid == es[j].sid ==>
          NamedBefore(ns, es[i].sid, p))
    && forall i :: 0 <= i < |es| ==>
         FirstPart(ns, es[i].sid, true, es[i].pa) && FirstPart(ns, es[i].sid, false, es[i].sa)
  }

  ghost predicate Ascending(calls: seq<Call>, f: seq<nat>) {
    hide FirstSeen;
    && (forall i, j :: 0 <= i < j < |f| ==> f[i] < f[j])
    && forall i :: 0 <= i < |f| ==> f[i] < |calls| && FirstSeen(calls, f[i])
  }

  lemma {:induction false} FirstsAscend(calls: seq<Call>, n: nat)
    requires n <= |calls|
    ensures Ascending(calls, Firsts(calls, n))
    decreases n
  {
    hide FirstSeen;
    if n > 0 {
      var f := Firsts(calls, n - 1);
      FirstsAscend(calls, n - 1);
      NextFirst(calls, n - 1);
      hide Firsts;
      assert Firsts(calls, n) == if FirstSeen(calls, n - 1) then f + [n - 1] else f + [];
    }
  }

  lemma {:induction false} OrderIsNaming(ns: seq<Naming>, calls: seq<Call>, es: seq<Entry>, i: nat, j: nat, p: nat)
    requires Same(ns, calls) && es == AfterCalls(calls, |calls|) && i < j < |es| && p < |ns| && ns[p].sid == es[j].sid
    ensures NamedBefore(ns, es[i].sid, p)
  {
    hide AfterCalls, Firsts, Find;
    FirstSeenOrder(calls, |calls|);
    FirstsAscend(calls, |calls|);
    var f := Firsts(calls, |calls|);
    assert calls[f[i]].sid == es[i].sid && calls[f[j]].sid == es[j].sid;
    FirstIsLeast(calls, f[j], p);
    assert ns[f[i]].sid == es[i].sid;
  }

  lemma {:induction false} FirstIsLeast(calls: seq<Call>, m: nat, p: nat)
    requires m < |calls| && p < |calls| && FirstSeen(calls, m) && calls[p].sid == calls[m].sid
    ensures m <= p
  {
  }

  lemma {:induction false} EntryIsNamed(ns: seq<Naming>, calls: seq<Call>, es: seq<Entry>, i: nat)
    requires Same(ns, calls) && es == AfterCalls(calls, |calls|) && i < |es|
    ensures NamedBefore(ns, es[i].sid, |ns|)
  {
    hide AfterCalls, Firsts, Find;
    FirstSeenOrder(calls, |calls|);
    var f := Firsts(calls, |calls|);
    assert ns[f[i]].sid == es[i].sid;
  }

  lemma {:induction false} NamedIsListed(ns: seq<Naming>, calls: seq<Call>, es: seq<Entry>, q: nat)
    requires Same(ns, calls) && es == AfterCalls(calls, |calls|) && q < |ns|
    ensures Listed(es, ns[q].sid)
  {
    hide AfterCalls, Firsts;
    FirstSeenOrder(calls, |calls|);
    assert es[Find(es, calls[q].sid)].sid == ns[q].sid;
  }

  lemma {:induction false} PartIsFirst(ns: seq<Naming>, calls: seq<Call>, sid: int, primary: bool, o: Option<nat>)
    requires Same(ns, calls) && FirstDescribed(calls, |calls|, sid, primary, o)
    ensures FirstPart(ns, sid, primary, o)
  {
    assert forall q :: 0 <= q < |ns| ==> PartNaming(ns[q], sid, primary) == Ensemble.Describes(calls, q, sid, primary);
    if o.Some? {
      var p :| 0 <= p < |calls| && Ensemble.Describes(calls, p, sid, primary) && calls[p].c.subchid == o.value
               && forall q :: 0 <= q < p ==> !Ensemble.Describes(calls, q, sid, primary);
      assert PartNaming(ns[p], sid, primary) && ns[p].comp.subchid == o.value;
    }
  }

  lemma {:induction false} CallsList(ns: seq<Naming>, calls: seq<Call>)
    requires Same(ns, calls)
    ensures ListsServices(ns, AfterCalls(calls, |calls|))
  {
    hide AfterCalls, NamedBefore, Listed, FirstPart, FirstDescribed, Inhabited, Referred, Same;
    var es := AfterCalls(calls, |calls|);
    RunKeeps(calls, |calls|);
    forall q | 0 <= q < |ns| ensures Listed(es, ns[q].sid) {
      NamedIsListed(ns, calls, es, q);
    }
    forall i | 0 <= i < |es|
      ensures NamedBefore(ns, es[i].sid, |ns|)
      ensures FirstPart(ns, es[i].sid, true, es[i].pa) && FirstPart(ns, es[i].sid, false, es[i].sa)
    {
      EntryIsNamed(ns, calls, es, i);
      FirstComponentsStay(calls, |calls|, i);
      PartIsFirst(ns, calls, es[i].sid, true, es[i].pa);
      PartIsFirst(ns, calls, es[i].sid, false, es[i].sa);
    }
    forall i, j, p: nat | 0 <= i < j < |es| && p < |ns| && ns[p].sid == es[j].sid
      ensures NamedBefore(ns, es[i].sid, p)
    {
      OrderIsNaming(ns, calls, es, i, j, p);
    }
  }

  /** The services of a database that started without any. */
  lemma {:induction false} ServicesOfGroups(t: Ens, gs: seq<Group>)
    requires t.services == [] && t.numSrvs == 0
    ensures ListsServices(Namings(gs), ApplyAll(t, GroupsEvents(gs)).services)
  {
    hide ApplyAll, ListsServices, Namings, GroupsEvents, CallsIn, Same, AfterCalls, Gains;
    SameOfGroups(gs);
    ServicesOfEvents(t, GroupsEvents(gs));
    CallsList(Namings(gs), CallsIn(GroupsEvents(gs)));
  }

  // The database.

  lemma {:induction false} SizeStays(t: Ens, evs: seq<Event>)
    ensures |ApplyAll(t, evs).schan| == |t.schan|
    decreases |evs|
  {
    hide Added, Gain;
    if evs != [] {
      SizeStays(Apply(t, evs[0]), evs[1..]);
    }
  }

  /** A database that was empty, with identifier eid, holds what the groups say: the last identifier, the first
      description of every sub-channel, and the services. */
  ghost predicate Holds(t: Ens, gs: seq<Group>, eid: nat) {
    hide HoldsFirst, ListsServices;
    && t.eid == LastEid(gs, eid)
    && |t.schan| == 64 && (forall k: nat :: k < 64 ==> HoldsFirst(PrintedOrgs(gs), k, t.schan[k]))
    && ListsServices(Namings(gs), t.services) && t.numSrvs == Referred(t.services, |t.services|)
  }

  lemma {:induction false} GroupsHeld(t: Ens, gs: seq<Group>)
    requires Empty(t) && AllPrintable(gs)
    ensures Holds(ApplyAll(t, GroupsEvents(gs)), gs, t.eid)
  {
    hide HoldsFirst, ListsServices, ApplyAll, GroupsEvents, LastEid, DistinctIds, Inhabited;
    EidOfGroups(t, gs);
    SizeStays(t, GroupsEvents(gs));
    ServicesOfGroups(t, gs);
    DatabaseInvariant(t, GroupsEvents(gs));
    forall k: nat | k < 64 ensures HoldsFirst(PrintedOrgs(gs), k, ApplyAll(t, GroupsEvents(gs)).schan[k]) {
      SubchannelOfGroups(t, gs, k);
    }
  }

  /** The groups of the first n blocks. */
  function GroupsOf(cs: seq<Content>, n: nat): seq<Group>
    requires n <= |cs|
  {
    if n == 0 then [] else GroupsOf(cs, n - 1) + cs[n - 1].groups
  }

  lemma {:induction false} ContentIsGroups(cs: seq<Content>, n: nat)
    requires n <= |cs|
    ensures ContentEvents(cs, n) == GroupsEvents(GroupsOf(cs, n))
    decreases n
  {
    hide GroupsEvents;
    if n == 0 {
      NoGroups();
    } else {
      ContentIsGroups(cs, n - 1);
      GroupsAppend(GroupsOf(cs, n - 1), cs[n - 1].groups);
    }
  }

  lemma NoGroups()
    ensures GroupsEvents([]) == [] && AllPrintable([])
  {
  }

  lemma {:induction false} AppendPrintable(gs: seq<Group>, hs: seq<Group>)
    requires AllPrintable(gs) && AllPrintable(hs)
    ensures AllPrintable(gs + hs)
  {
    hide Printable;
  }

  lemma {:induction false} HeldPrintable(ps: seq<seq<byte>>, cs: seq<Content>, n: nat)
    requires n <= |cs| && Holding(ps, cs)
    ensures AllPrintable(GroupsOf(cs, n))
    decreases n
  {
    hide Holding, AllPrintable;
    if n == 0 {
      NoGroups();
    } else {
      HeldPrintable(ps, cs, n - 1);
      BlockPrintable(ps, cs, n - 1);
      AppendPrintable(GroupsOf(cs, n - 1), cs[n - 1].groups);
    }
  }

  lemma {:induction false} BlockPrintable(ps: seq<seq<byte>>, cs: seq<Content>, k: nat)
    requires k < |cs| && Holding(ps, cs)
    ensures AllPrintable(cs[k].groups)
  {
    hide Printable, GroupsBytes;
  }

  /** A frame is received on top of the groups gs: the database is that of all groups. */
  lemma {:induction false} FrameHeld(t0: Ens, gs: seq<Group>, ps: seq<seq<byte>>, cs: seq<Content>,
                                     after: seq<byte>, okfibs: nat)
    requires Holding(ps, cs) && Understood(cs, after, okfibs)
    ensures AllPrintable(GroupsOf(cs, |cs|))
    ensures ApplyAll(ApplyAll(t0, GroupsEvents(gs)), FibsWalk(after, okfibs).evs) ==
            ApplyAll(t0, GroupsEvents(gs + GroupsOf(cs, |cs|)))
  {
    hide Holding, AllPrintable, ApplyAll, GroupsEvents, FibsWalk, ContentEvents, GroupsOf;
    HeldPrintable(ps, cs, |cs|);
    ContentIsGroups(cs, |cs|);
    GroupsAppend(gs, GroupsOf(cs, |cs|));
    ApplyAppend(t0, GroupsEvents(gs), GroupsEvents(GroupsOf(cs, |cs|)));
  }
}
