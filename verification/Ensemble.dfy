/** The ensemble database: the services found so far, in a linked list, and the sub-channels. */
module Ensemble {
  import opened Tables

  datatype Option<T> = None | Some(value: T)

  /** A service component description (MSC stream audio). */
  datatype Component = Component(ascty: nat, subchid: nat, primary: bool)

  /** A service: its identifier and the sub-channels of its primary and its secondary audio. */
  datatype Entry = Entry(sid: int, pa: Option<nat>, sa: Option<nat>)

  const DABPLUS := 0x3f
  const UNUSED := 0xffff

  function Indicator(o: Option<nat>): nat {
    if o.Some? then 1 else 0
  }

  /** Sub-channels that the first n services refer to. */
  function Referred(es: seq<Entry>, n: nat): nat
    requires n <= |es|
  {
    if n == 0 then 0 else Referred(es, n - 1) + Indicator(es[n - 1].pa) + Indicator(es[n - 1].sa)
  }

  /** Position of a service identifier, or the length of the list. */
  function Find(es: seq<Entry>, sid: int): (i: nat)
    ensures i <= |es| && (i < |es| ==> es[i].sid == sid) && forall k :: 0 <= k < i ==> es[k].sid != sid
  {
    FindFrom(es, sid, 0)
  }

  function FindFrom(es: seq<Entry>, sid: int, i: nat): (j: nat)
    requires i <= |es|
    ensures i <= j <= |es| && (j < |es| ==> es[j].sid == sid) && forall k :: i <= k < j ==> es[k].sid != sid
    decreases |es| - i
  {
    if i == |es| || es[i].sid == sid then i else FindFrom(es, sid, i + 1)
  }

  function Known(es: seq<Entry>, sid: int): seq<Entry> {
    if Find(es, sid) < |es| then es else es + [Entry(sid, None, None)]
  }

  /** The first component of each kind stays. */
  function WithComponent(e: Entry, c: Component): Entry {
    if c.primary && e.pa.None? then e.(pa := Some(c.subchid))
    else if !c.primary && e.sa.None? then e.(sa := Some(c.subchid))
    else e
  }

  function Added(es: seq<Entry>, sid: int, c: Component): seq<Entry> {
    var es', i := Known(es, sid), Find(es, sid);
    es'[i := WithComponent(es'[i], c)]
  }

  /** Whether the call makes a new reference. */
  function Gain(es: seq<Entry>, sid: int, c: Component): nat {
    var es', i := Known(es, sid), Find(es, sid);
    if WithComponent(es'[i], c) != es'[i] then 1 else 0
  }

  /** What a row of the list of services shows, and what selecting it should deliver. */
  datatype Row = Row(sid: int, sch: Option<nat>)

  /** A line of the list: its number, its row, and the description of the sub-channel. */
  datatype Line = Line(number: nat, row: Row, shown: Option<Subch>)

  function Shown(schan: seq<Subch>, sch: Option<nat>): Option<Subch> {
    if sch.Some? && sch.value < |schan| then Some(schan[sch.value]) else None
  }

  function LineOf(schan: seq<Subch>, k: nat, row: Row): Line {
    Line(k, row, Shown(schan, row.sch))
  }

  /** The lines of some rows, numbered from i on. */
  function LinesOf(schan: seq<Subch>, i: nat, rows: seq<Row>): (lines: seq<Line>)
    ensures |lines| == |rows|
  {
    seq(|rows|, k requires 0 <= k < |rows| => LineOf(schan, i + k, rows[k]))
  }

  lemma {:induction false} LinesAppend(schan: seq<Subch>, i: nat, a: seq<Row>, b: seq<Row>)
    ensures LinesOf(schan, i, a + b) == LinesOf(schan, i, a) + LinesOf(schan, i + |a|, b)
  {
    hide LineOf;
  }

  lemma {:induction false} LinesSay(schan: seq<Subch>, rows: seq<Row>)
    ensures var lines := LinesOf(schan, 0, rows);
            forall k :: 0 <= k < |rows| ==>
              && lines[k].number == k && lines[k].row == rows[k]
              && (rows[k].sch == None ==> lines[k].shown == None)
              && (rows[k].sch.Some? && rows[k].sch.value < |schan| ==> lines[k].shown == Some(schan[rows[k].sch.value]))
  {
  }

  /** The rows of the first n services. */
  function Rows(es: seq<Entry>, n: nat): seq<Row>
    requires n <= |es|
  {
    if n == 0 then [] else Rows(es, n - 1) + RowsOf(es[n - 1])
  }

  lemma {:induction false} NoRows(schan: seq<Subch>, es: seq<Entry>)
    ensures Rows(es, 0) == [] && LinesOf(schan, 0, []) == []
  {
  }

  lemma {:induction false} NextRows(es: seq<Entry>, n: nat)
    requires n < |es|
    ensures Rows(es, n + 1) == Rows(es, n) + RowsOf(es[n])
  {
    hide RowsOf;
  }

  function RowsOf(e: Entry): seq<Row> {
    [Row(e.sid, e.pa)] + (if e.pa.Some? && e.sa.Some? then [Row(e.sid, e.sa)] else [])
  }

  /** Numbers that the selection passes over for the first n services. */
  function Slots(es: seq<Entry>, n: nat): nat
    requires n <= |es|
  {
    if n == 0 then 0 else Slots(es, n - 1) + (if es[n - 1].sa.Some? then 2 else 1)
  }

  /** The selection after the first n services. */
  function Choice(es: seq<Entry>, n: nat, i: int, sel: Row): Row
    requires n <= |es|
  {
    if n == 0 then sel
    else
      var e, j := es[n - 1], Slots(es, n - 1);
      if j == i - 1 && e.sa.Some? then Row(e.sid, e.sa)
      else if j == i then Row(e.sid, e.pa)
      else Choice(es, n - 1, i, sel)
  }

  /** One element of the linked list. */
  class Service {
    var sid: int
    var pa: Option<nat>
    var sa: Option<nat>
    var next: Service?
    var prev: Service?

    constructor (sid: int)
      ensures this.sid == sid && pa == None && sa == None && next == null && prev == null
    {
      this.sid := sid;
      pa, sa, next, prev := None, None, null, null;
    }

    function Value(): Entry
      reads this
    {
      Entry(sid, pa, sa)
    }
  }

  function After(list: seq<Service>, i: nat): Service?
    requires i < |list|
  {
    if i + 1 < |list| then list[i + 1] else null
  }

  function Before(list: seq<Service>, i: nat): Service?
    requires i < |list|
  {
    if i > 0 then list[i - 1] else null
  }

  class EnsInfo {
    var eid: nat
    var numSrvs: nat
    var srv: Service?
    const schan: array<Subch>
    ghost var list: seq<Service>

    /** The list that starts at srv runs through the services, with prev links back, and ends. */
    ghost predicate Linked()
      reads this, list
    {
      && (forall i, j :: 0 <= i < j < |list| ==> list[i] != list[j])
      && srv == (if list == [] then null else list[0])
      && forall i :: 0 <= i < |list| ==>
           list[i].next == After(list, i) && list[i].prev == Before(list, i)
    }

    ghost function Entries(): (es: seq<Entry>)
      reads this, list
      ensures |es| == |list|
    {
      seq(|list|, i requires 0 <= i < |list| reads this, list => list[i].Value())
    }

    ghost predicate Valid()
      reads this, list, schan
    {
      && schan.Length == 64 && Linked()
    }

    /** `ficinit` */
    constructor ()
      ensures Valid() && Entries() == [] && numSrvs == 0 && fresh(schan)
      ensures forall k :: 0 <= k < 64 ==> schan[k].subchid == UNUSED
    {
      eid, numSrvs, srv, list := 0, 0, null, [];
      schan := new Subch[64](_ => Subch(UNUSED, 0, 0, 0, false, 0, 0, false));
    }

    /** `find_service` */
    method FindService(sid: int) returns (s: Service?)
      requires Valid()
      ensures var i := Find(Entries(), sid); s == if i < |list| then list[i] else null
    {
      ghost var i := 0;
      s := srv;
      while s != null
        invariant 0 <= i <= |list| && s == (if i < |list| then list[i] else null)
        invariant Find(Entries(), sid) == FindFrom(Entries(), sid, i)
        decreases |list| - i
      {
        assert Entries()[i] == s.Value();
        if s.sid == sid {
          return;
        }
        s := s.next;
        i := i + 1;
      }
    }

    /** Link a new service after the last one. */
    method Link(ptr: Service, s: Service)
      requires Valid() && list != [] && ptr == list[|list| - 1] && s !in list && s.next == null
      modifies this`list, ptr`next, s`prev
      ensures Valid() && list == old(list) + [s] && Entries() == old(Entries()) + [s.Value()]
    {
      hide Linked, After, Before;
      LinkFacts();
      ghost var before, n, es := list, |list|, Entries();
      assert forall i :: 0 <= i < n ==> before[i] != s && (i < n - 1 ==> before[i] != ptr);
      assert forall i :: 0 <= i < n ==> before[i].next == After(before, i) && before[i].prev == Before(before, i);
      assert forall i :: 0 <= i < n ==> before[i].Value() == es[i];
      ptr.next := s;
      s.prev := ptr;
      assert forall i :: 0 <= i < n ==> before[i].prev == Before(before, i) && before[i].Value() == es[i];
      assert forall i :: 0 <= i < n - 1 ==> before[i].next == After(before, i);
      list := list + [s];
      ListLinked(before, s);
      EntriesOf(before, s, es);
    }

    lemma {:induction false} EntriesOf(before: seq<Service>, s: Service, es: seq<Entry>)
      requires list == before + [s] && |es| == |before|
      requires forall i :: 0 <= i < |before| ==> before[i].Value() == es[i]
      ensures Entries() == es + [s.Value()]
    {
      forall i | 0 <= i < |list| ensures Entries()[i] == (es + [s.Value()])[i] {
        assert list[i] == if i < |before| then before[i] else s;
      }
    }

    lemma LinkFacts()
      requires Linked()
      ensures forall i, j :: 0 <= i < j < |list| ==> list[i] != list[j]
      ensures forall i :: 0 <= i < |list| ==> list[i].next == After(list, i) && list[i].prev == Before(list, i)
      ensures list != [] ==> srv == list[0]
    {
    }

    lemma {:induction false} ListLinked(before: seq<Service>, s: Service)
      requires before != [] && list == before + [s] && s !in before && s.next == null
      requires srv == before[0] && before[|before| - 1].next == s && s.prev == before[|before| - 1]
      requires forall i, j :: 0 <= i < j < |before| ==> before[i] != before[j]
      requires forall i :: 0 <= i < |before| ==> before[i].prev == Before(before, i)
      requires forall i :: 0 <= i < |before| - 1 ==> before[i].next == After(before, i)
      ensures Linked()
    {
      forall i | 0 <= i < |list| ensures list[i].next == After(list, i) && list[i].prev == Before(list, i) {
        if i < |before| {
          assert list[i] == before[i] && Before(list, i) == Before(before, i);
        }
      }
    }

    /** Append a new service: walk to the last one and link it there. */
    method Append(sid: int) returns (s: Service)
      requires Valid()
      modifies this`srv, this`list, list
      ensures Valid() && fresh(s) && list == old(list) + [s]
      ensures Entries() == old(Entries()) + [Entry(sid, None, None)]
    {
      s := new Service(sid);
      assert Linked() && Entries() == old(Entries());
      var ptr := srv;
      if ptr == null {
        srv := s;
        s.next := null;
        s.prev := null;
        list := [s];
      } else {
        ghost var i := 0;
        while ptr != null
          invariant 0 <= i < |list| && ptr == list[i] && list == old(list) && s.next == null
          invariant Linked() && Entries() == old(Entries()) && s.Value() == Entry(sid, None, None)
          decreases |list| - i
        {
          assert list[i].next == After(list, i);
          if ptr.next == null {
            Link(ptr, s);
            break;
          } else {
            ptr := ptr.next;
            i := i + 1;
          }
        }
      }
    }

    /** The service with this identifier, appended if it is not known yet. */
    method Lookup(sid: int) returns (s: Service, ghost i: nat)
      requires Valid()
      modifies this`srv, this`list, list
      ensures Valid() && old(list) <= list && forall k :: old(|list|) <= k < |list| ==> fresh(list[k])
      ensures Entries() == Known(old(Entries()), sid)
      ensures i == Find(old(Entries()), sid) && i < |list| && s == list[i]
    {
      i := Find(Entries(), sid);
      var found := FindService(sid);
      if found == null {
        s := Append(sid);
      } else {
        s := found;
      }
    }

    /** One service's reference changes, nothing else in the list. */
    method SetComponent(s: Service, c: Component, ghost i: nat)
      requires Valid() && i < |list| && s == list[i]
      modifies this`numSrvs, s`pa, s`sa
      ensures Valid() && Entries() == old(Entries())[i := WithComponent(old(Entries())[i], c)]
      ensures numSrvs == old(numSrvs) + (if WithComponent(old(Entries())[i], c) != old(Entries())[i] then 1 else 0)
    {
      hide After, Before;
      ghost var e := s.Value();
      if (c.primary && s.pa == None) || (!c.primary && s.sa == None) {
        if c.primary && s.pa == None {
          s.pa := Some(c.subchid);
          numSrvs := numSrvs + 1;
        } else if !c.primary && s.sa == None {
          s.sa := Some(c.subchid);
          numSrvs := numSrvs + 1;
        }
      }
      assert forall k :: 0 <= k < |list| && k != i ==> list[k] != s && list[k].Value() == old(list[k].Value());
    }

    /** `add_service` */
    method AddService(c: Component, sid: int)
      requires Valid() && c.subchid < 64
      modifies this`srv, this`list, this`numSrvs, list, schan
      ensures Valid() && old(list) <= list && forall k :: old(|list|) <= k < |list| ==> fresh(list[k])
      ensures Entries() == Added(old(Entries()), sid, c)
      ensures numSrvs == old(numSrvs) + Gain(old(Entries()), sid, c)
      ensures schan[..] == old(schan[..])[c.subchid := old(schan[c.subchid]).(dabplus := c.ascty == DABPLUS)]
    {
      hide Linked;
      var s, i := Lookup(sid);
      if c.ascty == 0x3f {
        schan[c.subchid] := schan[c.subchid].(dabplus := true);
      } else {
        schan[c.subchid] := schan[c.subchid].(dabplus := false);
      }
      SetComponent(s, c, i);
    }

    /** `add_subchannel`: the first description of a sub-channel stays. */
    method AddSubchannel(s: Subch)
      requires Valid() && 0 <= s.subchid < 64
      modifies schan
      ensures Valid() && Entries() == old(Entries())
      ensures schan[..] == if old(schan[s.subchid]).subchid > 64 then old(schan[..])[s.subchid := s] else old(schan[..])
    {
      hide Linked;
      if schan[s.subchid].subchid > 64 {
        schan[s.subchid] := s;
      }
    }

    method Describe(i: nat, row: Row) returns (line: Line)
      ensures line == LineOf(schan[..], i, row)
    {
      var shown: Option<Subch> := None;
      match row.sch {
        case Some(ch) =>
          if ch < schan.Length {
            shown := Some(schan[ch]);
          }
        case None =>
      }
      line := Line(i, row, shown);
    }

    method DispService(p: Service, i: nat) returns (lines: seq<Line>)
      ensures lines == LinesOf(schan[..], i, RowsOf(p.Value()))
    {
      hide LineOf;
      var line := Describe(i, Row(p.sid, p.pa));
      lines := [line];
      if p.pa != None {
        if p.sa != None {
          line := Describe(i + 1, Row(p.sid, p.sa));
          lines := lines + [line];
        }
      }
    }

    /** `disp_ensemble`: the rows with the numbers printed beside them and what is known of their
        sub-channels. */
    method DispEnsemble() returns (id: nat, lines: seq<Line>)
      requires Valid()
      ensures var rows := Rows(Entries(), |list|);
              && id == eid && |lines| == |rows|
              && forall k :: 0 <= k < |rows| ==>
                   && lines[k].number == k && lines[k].row == rows[k]
                   && (rows[k].sch == None ==> lines[k].shown == None)
                   && (rows[k].sch.Some? && rows[k].sch.value < 64 ==> lines[k].shown == Some(schan[rows[k].sch.value]))
    {
      hide LineOf, LinesOf, RowsOf, Rows;
      id := eid;
      ghost var n := 0;
      var p := srv;
      lines := [];
      NoRows(schan[..], Entries());
      while p != null
        invariant 0 <= n <= |list| && p == (if n < |list| then list[n] else null)
        invariant lines == LinesOf(schan[..], 0, Rows(Entries(), n))
        decreases |list| - n
      {
        assert Entries()[n] == p.Value() && p.next == After(list, n);
        LinesAppend(schan[..], 0, Rows(Entries(), n), RowsOf(p.Value()));
        NextRows(Entries(), n);
        var more := DispService(p, |lines|);
        lines := lines + more;
        p := p.next;
        n := n + 1;
      }
      LinesSay(schan[..], Rows(Entries(), n));
    }

    /** `user_select_service`, for the number that the user typed; -1 means that there is none yet. */
    method UserSelectService(i: int, sel: Row) returns (sel': Row)
      requires Valid()
      ensures sel' == if i == -1 then sel
                      else if 0 <= i < numSrvs then Choice(Entries(), |list|, i, sel)
                      else sel.(sch := None)
    {
      sel' := sel;
      if i == -1 {
        return;
      }
      if i < numSrvs && i >= 0 {
        ghost var n := 0;
        var p, j := srv, 0;
        while p != null
          invariant 0 <= n <= |list| && p == (if n < |list| then list[n] else null)
          invariant j == Slots(Entries(), n) && sel' == Choice(Entries(), n, i, sel)
          decreases |list| - n
        {
          assert Entries()[n] == p.Value() && p.next == After(list, n);
          if j == i || (j == i - 1 && p.sa != None) {
            sel' := sel'.(sid := p.sid);
            if j == i - 1 && p.sa != None {
              sel' := sel'.(sch := p.sa);
            } else {
              sel' := sel'.(sch := p.pa);
            }
          }
          if p.sa == None {
            j := j + 1;
          } else {
            j := j + 2;
          }
          p := p.next;
          n := n + 1;
        }
      } else {
        sel' := sel.(sch := None);
      }
    }
  }

  // Properties of every run of `add_service`.

  datatype Call = Call(sid: int, c: Component)

  function AfterCalls(calls: seq<Call>, n: nat): seq<Entry>
    requires n <= |calls|
  {
    if n == 0 then [] else Added(AfterCalls(calls, n - 1), calls[n - 1].sid, calls[n - 1].c)
  }

  function Gains(calls: seq<Call>, n: nat): nat
    requires n <= |calls|
  {
    if n == 0 then 0
    else Gains(calls, n - 1) + Gain(AfterCalls(calls, n - 1), calls[n - 1].sid, calls[n - 1].c)
  }

  predicate DistinctIds(es: seq<Entry>) {
    forall i, j :: 0 <= i < j < |es| ==> es[i].sid != es[j].sid
  }

  /** Every service refers to a sub-channel. */
  predicate Inhabited(es: seq<Entry>) {
    forall i :: 0 <= i < |es| ==> es[i].pa.Some? || es[i].sa.Some?
  }

  lemma {:induction false} ReferredPrefix(es: seq<Entry>, es': seq<Entry>, n: nat)
    requires n <= |es| && n <= |es'| && forall k :: 0 <= k < n ==> es[k] == es'[k]
    ensures Referred(es, n) == Referred(es', n)
    decreases n
  {
    if n > 0 {
      ReferredPrefix(es, es', n - 1);
    }
  }

  lemma {:induction false} ReferredUpdate(es: seq<Entry>, i: nat, e: Entry, n: nat)
    requires i < n <= |es|
    ensures Referred(es[i := e], n) == Referred(es, n) - Indicator(es[i].pa) - Indicator(es[i].sa)
                                 + Indicator(e.pa) + Indicator(e.sa)
    decreases n
  {
    if i == n - 1 {
      ReferredPrefix(es, es[i := e], n - 1);
    } else {
      ReferredUpdate(es, i, e, n - 1);
    }
  }

  /** One call keeps the identifiers distinct, leaves no service without a sub-channel, and counts
      right. */
  lemma {:induction false} AddedKeeps(es: seq<Entry>, sid: int, c: Component)
    requires DistinctIds(es) && Inhabited(es)
    ensures DistinctIds(Added(es, sid, c)) && Inhabited(Added(es, sid, c))
    ensures Referred(Added(es, sid, c), |Added(es, sid, c)|) == Referred(es, |es|) + Gain(es, sid, c)
  {
    hide Find;
    var es', i := Known(es, sid), Find(es, sid);
    ReferredPrefix(es, es', |es|);
    ReferredUpdate(es', i, WithComponent(es'[i], c), |es'|);
  }

  /** num_srvs counts the references, in every run. */
  lemma {:induction false} RunKeeps(calls: seq<Call>, n: nat)
    requires n <= |calls|
    ensures var es := AfterCalls(calls, n);
            DistinctIds(es) && Inhabited(es) && Gains(calls, n) == Referred(es, |es|)
    decreases n
  {
    hide Added, Gain, DistinctIds, Inhabited;
    if n > 0 {
      RunKeeps(calls, n - 1);
      AddedKeeps(AfterCalls(calls, n - 1), calls[n - 1].sid, calls[n - 1].c);
    } else {
      NoEntries();
    }
  }

  lemma NoEntries()
    ensures DistinctIds([]) && Inhabited([]) && Referred([], 0) == 0
  {
  }

  /** Call m names a service for the first time. */
  predicate FirstSeen(calls: seq<Call>, m: nat)
    requires m < |calls|
  {
    forall q :: 0 <= q < m ==> calls[q].sid != calls[m].sid
  }

  /** The calls that name a service for the first time, in order. */
  function Firsts(calls: seq<Call>, n: nat): (f: seq<nat>)
    requires n <= |calls|
    ensures forall k :: 0 <= k < |f| ==> f[k] < n
  {
    if n == 0 then [] else Firsts(calls, n - 1) + (if FirstSeen(calls, n - 1) then [n - 1] else [])
  }

  /** The list holds every service that was named, in the order in which they were first named. */
  predicate InOrder(calls: seq<Call>, n: nat)
    requires n <= |calls|
  {
    var es, f := AfterCalls(calls, n), Firsts(calls, n);
    && |es| == |f| && (forall k :: 0 <= k < |es| ==> es[k].sid == calls[f[k]].sid)
    && forall q :: 0 <= q < n ==> Find(es, calls[q].sid) < |es|
  }

  lemma {:induction false} NewIffFirst(calls: seq<Call>, n: nat)
    requires n < |calls| && InOrder(calls, n)
    ensures FirstSeen(calls, n) <==> Find(AfterCalls(calls, n), calls[n].sid) == |AfterCalls(calls, n)|
  {
    hide AfterCalls, Find, Firsts;
    var es, sid := AfterCalls(calls, n), calls[n].sid;
    var i := Find(es, sid);
    if i < |es| {
      assert calls[Firsts(calls, n)[i]].sid == sid;
    }
  }

  lemma {:induction false} AllFound(calls: seq<Call>, n: nat, q: nat)
    requires q <= n < |calls| && InOrder(calls, n)
    ensures Find(AfterCalls(calls, n + 1), calls[q].sid) < |AfterCalls(calls, n + 1)|
  {
    hide Find, Firsts, Added;
    var es, es', sid := AfterCalls(calls, n), AfterCalls(calls, n + 1), calls[n].sid;
    AddedIds(es, sid, calls[n].c);
    if q < n {
      FindKept(es, es', calls[q].sid);
    } else {
      FindAt(es', sid, Find(es, sid));
    }
  }

  lemma {:induction false} SidsNext(calls: seq<Call>, n: nat, k: nat)
    requires n < |calls| && InOrder(calls, n) && k < |AfterCalls(calls, n + 1)|
    ensures |Firsts(calls, n + 1)| == |AfterCalls(calls, n + 1)|
    ensures AfterCalls(calls, n + 1)[k].sid == calls[Firsts(calls, n + 1)[k]].sid
  {
    hide Find, Added, FirstSeen, AfterCalls, Firsts;
    NewIffFirst(calls, n);
    NextCall(calls, n);
    NextFirst(calls, n);
    AddedIds(AfterCalls(calls, n), calls[n].sid, calls[n].c);
    if k < |AfterCalls(calls, n)| {
      assert AfterCalls(calls, n)[k].sid == calls[Firsts(calls, n)[k]].sid;
    }
  }

  lemma {:induction false} NextCall(calls: seq<Call>, n: nat)
    requires n < |calls|
    ensures AfterCalls(calls, n + 1) == Added(AfterCalls(calls, n), calls[n].sid, calls[n].c)
  {
    hide Added;
  }

  lemma {:induction false} NextFirst(calls: seq<Call>, n: nat)
    requires n < |calls|
    ensures Firsts(calls, n + 1) == Firsts(calls, n) + (if FirstSeen(calls, n) then [n] else [])
  {
    hide FirstSeen;
  }

  lemma {:induction false} OrderNext(calls: seq<Call>, n: nat)
    requires n < |calls| && InOrder(calls, n)
    ensures InOrder(calls, n + 1)
  {
    hide Find, Firsts, AfterCalls;
    var es', f' := AfterCalls(calls, n + 1), Firsts(calls, n + 1);
    AllFound(calls, n, n);
    SidsNext(calls, n, 0);
    forall k | 0 <= k < |es'| ensures es'[k].sid == calls[f'[k]].sid {
      SidsNext(calls, n, k);
    }
    forall q | 0 <= q < n + 1 ensures Find(AfterCalls(calls, n + 1), calls[q].sid) < |AfterCalls(calls, n + 1)| {
      AllFound(calls, n, q);
    }
  }

  lemma {:induction false} NoneInOrder(calls: seq<Call>)
    ensures InOrder(calls, 0)
  {
  }

  lemma {:induction false} FirstSeenOrder(calls: seq<Call>, n: nat)
    requires n <= |calls|
    ensures InOrder(calls, n)
    decreases n
  {
    hide InOrder;
    NoneInOrder(calls);
    if n > 0 {
      FirstSeenOrder(calls, n - 1);
      OrderNext(calls, n - 1);
    }
  }

  lemma {:induction false} AddedIds(es: seq<Entry>, sid: int, c: Component)
    ensures var es' := Added(es, sid, c);
            && |es| <= |es'| && (forall k :: 0 <= k < |es| ==> es'[k].sid == es[k].sid)
            && (if Find(es, sid) < |es| then |es'| == |es| else |es'| == |es| + 1 && es'[|es|].sid == sid)
  {
    hide Find;
  }

  lemma {:induction false} FindAt(es: seq<Entry>, sid: int, i: nat)
    requires i < |es| && es[i].sid == sid
    ensures Find(es, sid) <= i
  {
    hide FindFrom;
  }

  lemma {:induction false} FindKept(es: seq<Entry>, es': seq<Entry>, sid: int)
    requires |es| <= |es'| && (forall k :: 0 <= k < |es| ==> es'[k].sid == es[k].sid) && Find(es, sid) < |es|
    ensures Find(es', sid) < |es'|
  {
    hide Find;
    FindAt(es', sid, Find(es, sid));
  }

  /** Call q describes the primary, or the secondary, component of a service. */
  predicate Describes(calls: seq<Call>, q: nat, sid: int, primary: bool)
    requires q < |calls|
  {
    calls[q].sid == sid && calls[q].c.primary == primary
  }

  /** o is the sub-channel of the first of the n calls that describe this component. */
  ghost predicate FirstDescribed(calls: seq<Call>, n: nat, sid: int, primary: bool, o: Option<nat>)
    requires n <= |calls|
  {
    match o
    case None => forall q :: 0 <= q < n ==> !Describes(calls, q, sid, primary)
    case Some(ch) => exists p :: 0 <= p < n && Describes(calls, p, sid, primary) && calls[p].c.subchid == ch
                                 && forall q :: 0 <= q < p ==> !Describes(calls, q, sid, primary)
  }

  lemma {:induction false} DescribedNext(calls: seq<Call>, n: nat, sid: int, primary: bool, o: Option<nat>)
    requires n < |calls| && FirstDescribed(calls, n, sid, primary, o)
    ensures FirstDescribed(calls, n + 1, sid, primary,
                           if o.None? && Describes(calls, n, sid, primary) then Some(calls[n].c.subchid) else o)
  {
    if o.None? && Describes(calls, n, sid, primary) {
      assert Describes(calls, n, sid, primary) && calls[n].c.subchid == Some(calls[n].c.subchid).value;
    }
  }

  lemma {:induction false} NotYetDescribed(calls: seq<Call>, n: nat, sid: int)
    requires n < |calls| && calls[n].sid == sid && Find(AfterCalls(calls, n), sid) == |AfterCalls(calls, n)|
    ensures FirstDescribed(calls, n, sid, true, None) && FirstDescribed(calls, n, sid, false, None)
  {
    hide AfterCalls, Find, Firsts;
    FirstSeenOrder(calls, n);
  }

  /** A service keeps the first primary and the first secondary sub-channel it was described with. */
  lemma {:induction false} FirstComponentsStay(calls: seq<Call>, n: nat, k: nat)
    requires n <= |calls| && k < |AfterCalls(calls, n)|
    ensures var e := AfterCalls(calls, n)[k];
            FirstDescribed(calls, n, e.sid, true, e.pa) && FirstDescribed(calls, n, e.sid, false, e.sa)
    decreases n
  {
    hide Find, FirstDescribed, Added;
    var es, call := AfterCalls(calls, n - 1), calls[n - 1];
    var i := Find(es, call.sid);
    RunKeeps(calls, n - 1);
    AddedAt(es, call.sid, call.c, k);
    if k < |es| {
      FirstComponentsStay(calls, n - 1, k);
      DescribedNext(calls, n - 1, es[k].sid, true, es[k].pa);
      DescribedNext(calls, n - 1, es[k].sid, false, es[k].sa);
    } else {
      NotYetDescribed(calls, n - 1, call.sid);
      DescribedNext(calls, n - 1, call.sid, true, None);
      DescribedNext(calls, n - 1, call.sid, false, None);
    }
  }

  lemma {:induction false} AddedAt(es: seq<Entry>, sid: int, c: Component, k: nat)
    requires DistinctIds(es) && k < |Added(es, sid, c)|
    ensures var e := if k < |es| then es[k] else Entry(sid, None, None);
            Added(es, sid, c)[k] == if e.sid == sid then WithComponent(e, c) else e
    ensures k >= |es| ==> Find(es, sid) == |es|
  {
    hide FindFrom;
  }

  // The numbers printed and the numbers selected.

  lemma {:induction false} RowsCount(es: seq<Entry>, n: nat)
    requires n <= |es| && Inhabited(es)
    ensures |Rows(es, n)| == Referred(es, n)
    decreases n
  {
    if n > 0 {
      RowsCount(es, n - 1);
    }
  }

  /** Every service has a row with its primary sub-channel, and after it one with the secondary if it has both. */
  lemma {:induction false} RowsShow(es: seq<Entry>, i: nat)
    requires i < |es|
    ensures var k, rows := |Rows(es, i)|, Rows(es, |es|);
            && k < |rows| && rows[k] == Row(es[i].sid, es[i].pa)
            && (es[i].pa.Some? && es[i].sa.Some? ==> k + 1 < |rows| && rows[k + 1] == Row(es[i].sid, es[i].sa))
  {
    hide Rows;
    NextRows(es, i);
    RowsPrefix(es, i + 1, |es|);
  }

  /** Every service but perhaps the last has a primary. */
  predicate PrimaryBeforeLast(es: seq<Entry>) {
    forall k :: 0 <= k < |es| - 1 ==> es[k].pa.Some?
  }

  lemma {:induction false} SlotsAreRows(es: seq<Entry>, n: nat)
    requires n <= |es| && forall k :: 0 <= k < n ==> es[k].pa.Some?
    ensures Slots(es, n) == |Rows(es, n)|
    decreases n
  {
    if n > 0 {
      SlotsAreRows(es, n - 1);
    }
  }

  lemma {:induction false} ChoiceIsRow(es: seq<Entry>, n: nat, i: nat, sel: Row)
    requires n <= |es| && i < |Rows(es, n)| && forall k :: 0 <= k < n - 1 ==> es[k].pa.Some?
    ensures Choice(es, n, i, sel) == Rows(es, n)[i]
    decreases n
  {
    if n > 0 {
      SlotsAreRows(es, n - 1);
      if i < |Rows(es, n - 1)| {
        ChoiceIsRow(es, n - 1, i, sel);
      }
    }
  }

  /** A service without a primary is given two numbers but one row. */
  lemma {:induction false} ChoiceSlips(es: seq<Entry>, k: nat, n: nat, sel: Row)
    requires k < n <= |es| && Inhabited(es) && es[k].pa.None?
    ensures Slots(es, n) >= Slots(es, k) + 2
    ensures Choice(es, n, Slots(es, k) + 1, sel) == Row(es[k].sid, es[k].sa)
    decreases n
  {
    if n > k + 1 {
      ChoiceSlips(es, k, n - 1, sel);
    }
  }

  lemma {:induction false} RowsPrefix(es: seq<Entry>, n: nat, n': nat)
    requires n <= n' <= |es|
    ensures Rows(es, n) <= Rows(es, n')
    decreases n'
  {
    if n < n' {
      RowsPrefix(es, n, n' - 1);
    }
  }

  lemma {:induction false} RowAfter(es: seq<Entry>, k: nat)
    requires k + 1 < |es| && Inhabited(es) && es[k].pa.None? && forall m :: 0 <= m < k ==> es[m].pa.Some?
    ensures var i := Slots(es, k) + 1;
            i < |Rows(es, |es|)| && Rows(es, |es|)[i] == Row(es[k + 1].sid, es[k + 1].pa)
  {
    SlotsAreRows(es, k);
    RowsPrefix(es, k + 2, |es|);
    var r := Rows(es, k + 1);
    assert r == Rows(es, k) + [Row(es[k].sid, None)];
    assert Rows(es, k + 2) == r + RowsOf(es[k + 1]);
  }

  lemma {:induction false} FirstWithoutPrimary(es: seq<Entry>, n: nat) returns (k: nat)
    requires n < |es| && es[n].pa.None?
    ensures k <= n && es[k].pa.None? && forall m :: 0 <= m < k ==> es[m].pa.Some?
  {
    k := 0;
    while es[k].pa.Some?
      invariant k <= n && forall m :: 0 <= m < k ==> es[m].pa.Some?
      decreases n - k
    {
      k := k + 1;
    }
  }

  ghost predicate SelectsRows(es: seq<Entry>, sel: Row) {
    forall i :: 0 <= i < |Rows(es, |es|)| ==> Choice(es, |es|, i, sel) == Rows(es, |es|)[i]
  }

  /** Every number that is printed selects the row beside it exactly when every service but perhaps
      the last has a primary component. */
  lemma {:induction false} SelectionIff(es: seq<Entry>, sel: Row)
    requires DistinctIds(es) && Inhabited(es)
    ensures SelectsRows(es, sel) <==> PrimaryBeforeLast(es)
  {
    hide Rows, Choice, Slots;
    if PrimaryBeforeLast(es) {
      forall i | 0 <= i < |Rows(es, |es|)| ensures Choice(es, |es|, i, sel) == Rows(es, |es|)[i] {
        ChoiceIsRow(es, |es|, i, sel);
      }
    } else {
      var n: nat :| n < |es| - 1 && es[n].pa.None?;
      var k := FirstWithoutPrimary(es, n);
      RowAfter(es, k);
      ChoiceSlips(es, k, |es|, sel);
    }
  }

  /** Two calls lead to a list where it fails: a service with a secondary component only, and one with a
      primary. Number 1 stands beside the second service and selects the first. */
  lemma WrongSelection(ch: nat, ch': nat, sel: Row)
    ensures var calls := [Call(1, Component(0, ch, false)), Call(2, Component(0, ch', true))];
            var es := AfterCalls(calls, 2);
            && es == [Entry(1, None, Some(ch)), Entry(2, Some(ch'), None)]
            && Rows(es, 2) == [Row(1, None), Row(2, Some(ch'))]
            && Choice(es, 2, 1, sel) == Row(1, Some(ch)) && !SelectsRows(es, sel)
  {
    var calls := [Call(1, Component(0, ch, false)), Call(2, Component(0, ch', true))];
    var e, none: seq<Entry> := Entry(1, None, Some(ch)), [];
    assert Find(none, 1) == 0;
    AddedNew(none, 1, calls[0].c);
    assert AfterCalls(calls, 0) == none && AfterCalls(calls, 1) == [e];
    assert Find([e], 2) == 1;
    AddedNew([e], 2, calls[1].c);
    var es := AfterCalls(calls, 2);
    assert es == [e] + [Entry(2, Some(ch'), None)];
    assert Rows(es, 0) == [] && Rows(es, 1) == Rows(es, 0) + RowsOf(e) && Rows(es, 2) == Rows(es, 1) + RowsOf(es[1]);
    assert Slots(es, 0) == 0 && Slots(es, 1) == Slots(es, 0) + 2;
    assert Choice(es, 1, 1, sel) == Row(1, Some(ch));
  }

  lemma {:induction false} AddedNew(es: seq<Entry>, sid: int, c: Component)
    requires Find(es, sid) == |es|
    ensures Added(es, sid, c) == es + [WithComponent(Entry(sid, None, None), c)]
  {
  }
}
