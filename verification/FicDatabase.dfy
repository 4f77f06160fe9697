/** From printed groups on the air to the ensemble database. */
module FicDatabase {
  import opened Bits
  import opened Tables
  import opened Viterbi
  import opened Decoding
  import opened Symbols
  import opened Fic
  import opened FicSender
  import opened Ensemble
  import opened Figs
  import opened FigWalk
  import opened FicProcess
  import opened MscSender

  /** A block: groups, and, if they do not fill its 30 bytes, an end marker and padding. */
  datatype Content = Content(groups: seq<Group>, pad: seq<byte>)

  ghost predicate ContentFits(c: Content) {
    hide Printable;
    && (forall k :: 0 <= k < |c.groups| ==> Printable(c.groups[k]))
    && |GroupsBytes(c.groups)| + |c.pad| == 30 && (c.pad != [] ==> c.pad[0] == 0xff)
  }

  ghost function ContentBytes(c: Content): (p: seq<byte>)
    requires ContentFits(c)
    ensures |p| == 30
  {
    hide Printable;
    GroupsBytes(c.groups) + c.pad
  }

  /** The payload of every block is its content. */
  ghost predicate Holding(ps: seq<seq<byte>>, cs: seq<Content>) {
    hide ContentFits, ContentBytes;
    |ps| == |cs| && forall k :: 0 <= k < |cs| ==> ContentFits(cs[k]) && ps[k] == ContentBytes(cs[k])
  }

  function ContentEvents(cs: seq<Content>, n: nat): seq<Event>
    requires n <= |cs|
  {
    hide GroupsEvents;
    if n == 0 then [] else ContentEvents(cs, n - 1) + GroupsEvents(cs[n - 1].groups)
  }

  lemma {:induction false} JoinedAt(ps: seq<seq<byte>>, n: nat, k: nat) returns (more: seq<byte>)
    requires k < n <= |ps| && forall i :: 0 <= i < |ps| ==> |ps[i]| == 30
    ensures |Joined(ps, k)| == 30 * k && Joined(ps, n) == Joined(ps, k) + (ps[k] + more)
    decreases n
  {
    JoinedSize(ps, k);
    if k == n - 1 {
      more := [];
      assert ps[k] + more == ps[k];
    } else {
      more := JoinedAt(ps, n - 1, k);
      assert Joined(ps, k) + (ps[k] + more) + ps[n - 1] == Joined(ps, k) + (ps[k] + (more + ps[n - 1]));
      more := more + ps[n - 1];
    }
  }

  lemma {:induction false} JoinedSize(ps: seq<seq<byte>>, k: nat)
    requires k <= |ps| && forall i :: 0 <= i < |ps| ==> |ps[i]| == 30
    ensures |Joined(ps, k)| == 30 * k
    decreases k
  {
    if k > 0 {
      JoinedSize(ps, k - 1);
    }
  }

  /** Block k of the buffer starts with its content. */
  lemma {:induction false} BlockEvents(ps: seq<seq<byte>>, cs: seq<Content>, raw: seq<byte>, tail: seq<byte>, k: nat)
    requires Payloads(ps) && Holding(ps, cs) && raw == Joined(ps, |ps|) + tail && k < 12
    ensures FibEvents(Rest(raw, 30 * k), 0) == GroupsEvents(cs[k].groups)
    ensures LabelsInside(Rest(raw, 30 * k), 0)
  {
    hide Printable, Joined, FibEvents, LabelsInside, GroupsBytes;
    var more := JoinedAt(ps, |ps|, k);
    var c := cs[k];
    assert Rest(raw, 30 * k) == ps[k] + more + tail;
    assert ps[k] + more + tail == GroupsBytes(c.groups) + (c.pad + (more + tail));
    FibEventsOfGroups(c.groups, 0, c.pad + (more + tail));
    LabelsOfGroups(c.groups, 0, c.pad + (more + tail));
  }

  lemma {:induction false} BufferEvents(ps: seq<seq<byte>>, cs: seq<Content>, raw: seq<byte>, tail: seq<byte>, n: nat)
    requires Payloads(ps) && Holding(ps, cs) && raw == Joined(ps, |ps|) + tail && n <= 12
    ensures FibsEvents(raw, n) == ContentEvents(cs, n)
    ensures forall k :: 0 <= k < n ==> LabelsInside(Rest(raw, 30 * k), 0)
    decreases n
  {
    hide Joined, Holding, FibEvents, LabelsInside, GroupsEvents, Rest;
    assert |cs| == 12 by { HoldingSize(ps, cs); }
    if n > 0 {
      BufferEvents(ps, cs, raw, tail, n - 1);
      BlockEvents(ps, cs, raw, tail, n - 1);
    }
  }

  lemma {:induction false} HoldingSize(ps: seq<seq<byte>>, cs: seq<Content>)
    requires Holding(ps, cs)
    ensures |ps| == |cs|
  {
  }

  /** The walk over the buffer says to the database what the contents say. */
  ghost predicate Understood(cs: seq<Content>, after: seq<byte>, okfibs: nat) {
    |cs| == 12 && FibsWalk(after, okfibs).evs == ContentEvents(cs, |cs|)
  }

  lemma {:induction false} RestoredUnderstood(ps: seq<seq<byte>>, cs: seq<Content>,
                                              before: seq<byte>, after: seq<byte>, okfibs: nat)
    requires Holding(ps, cs) && Restored(ps, before, after, okfibs)
    ensures Understood(cs, after, okfibs)
  {
    hide Joined, Holding, FibsEvents, FibsWalk, LabelsInside, ContentEvents;
    HoldingSize(ps, cs);
    BufferEvents(ps, cs, after, before[360..], 12);
    FibsUndisturbed(after, 12);
  }

  /** What the groups of a frame say is what happens to the database, in order: through the CRCs,
      dispersal, coding, puncturing and interleaving of the sender and back through the receiver. */
  lemma {:induction false} DatabaseRoundTrip(m: Mettab, g: int, w: int, ps: seq<seq<byte>>, cs: seq<Content>,
                                             s2: Sending, s3: Sending, s4: Sending,
                                             before: seq<byte>, after: seq<byte>, okfibs: nat)
    requires Symmetric(m, g, w) && Payloads(ps) && Holding(ps, cs) && OnAir(ps, s2, s3, s4) && |before| >= 360
    requires |s2.sym| == |s3.sym| == |s4.sym| == SYMBOL_BYTES
    requires FicOutput(m, s2.sym, s3.sym, s4.sym, before, after, okfibs)
    ensures Understood(cs, after, okfibs)
  {
    hide OnAir, FicOutput, Restored, Holding, Understood;
    FicRoundTrip(m, g, w, ps, s2, s3, s4, before, after, okfibs);
    RestoredUnderstood(ps, cs, before, after, okfibs);
  }

  // The services in the database depend on the calls of `add_service` only.

  function CallsIn(evs: seq<Event>): seq<Call> {
    if evs == [] then []
    else CallsIn(evs[..|evs| - 1]) + (if evs[|evs| - 1].AddServ? then [evs[|evs| - 1].call] else [])
  }

  lemma {:induction false} CallsPrefix(calls: seq<Call>, call: Call, n: nat)
    requires n <= |calls|
    ensures AfterCalls(calls + [call], n) == AfterCalls(calls, n) && Gains(calls + [call], n) == Gains(calls, n)
    decreases n
  {
    hide Added, Gain;
    if n > 0 {
      CallsPrefix(calls, call, n - 1);
    }
  }

  /** The services are those of the calls, and num_srvs their count. */
  lemma {:induction false} ServicesOfEvents(t: Ens, evs: seq<Event>)
    requires t.services == [] && t.numSrvs == 0
    ensures var t', calls := ApplyAll(t, evs), CallsIn(evs);
            t'.services == AfterCalls(calls, |calls|) && t'.numSrvs == Gains(calls, |calls|)
    decreases |evs|
  {
    hide Added, Gain;
    if evs != [] {
      var n := |evs| - 1;
      ServicesOfEvents(t, evs[..n]);
      assert evs == evs[..n] + [evs[n]];
      ApplyAppend(t, evs[..n], [evs[n]]);
      OneEvent(ApplyAll(t, evs[..n]), evs[n]);
      var calls := CallsIn(evs[..n]);
      if evs[n].AddServ? {
        assert CallsIn(evs) == calls + [evs[n].call];
        CallsPrefix(calls, evs[n].call, |calls|);
      } else {
        assert CallsIn(evs) == calls;
      }
    }
  }

  /** In every database that events can build: identifiers distinct, every service with a sub-channel,
      and num_srvs the number of primaries and secondaries. */
  lemma {:induction false} DatabaseInvariant(t: Ens, evs: seq<Event>)
    requires t.services == [] && t.numSrvs == 0
    ensures var t' := ApplyAll(t, evs);
            DistinctIds(t'.services) && Inhabited(t'.services) && t'.numSrvs == Referred(t'.services, |t'.services|)
  {
    hide DistinctIds, Inhabited, Referred, AfterCalls, Gains, ApplyAll;
    ServicesOfEvents(t, evs);
    RunKeeps(CallsIn(evs), |CallsIn(evs)|);
  }

  /** A sub-channel keeps its first description; later ones only set the audio type. */
  lemma {:induction false} SubchannelStays(t: Ens, evs: seq<Event>, k: nat)
    requires k < |t.schan| && t.schan[k].subchid <= 64
    ensures var schan := ApplyAll(t, evs).schan;
            k < |schan| && schan[k].(dabplus := false) == t.schan[k].(dabplus := false)
    decreases |evs|
  {
    hide Added, Gain;
    if evs != [] {
      SubchannelStays(Apply(t, evs[0]), evs[1..], k);
    }
  }

  /** What the parser makes of an entry can be decoded, except for an option that the table of
      protection profiles does not have and for a sub-channel smaller than one unit of its profile. */
  lemma {:induction false} ParsedIsProper(o: Org)
    requires OrgFits(o)
    ensures Proper(SubchOf(o)) <==>
              o.Long? ==> 4 * o.opt + o.protlvl < 8 && o.subchsz >= EepTable(4 * o.opt + o.protlvl).sizemul
  {
    hide UepTable;
  }
}
