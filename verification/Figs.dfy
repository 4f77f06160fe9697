/** Fast information groups: the formats of the sub-channel organization (FIG 0/1) and of the basic
    service organization (FIG 0/2), printed and parsed. */
module Figs {
  import opened Bits
  import opened Tables
  import opened Ensemble

  // Bytes past the end of a buffer, which the source reads without a check, count as zero.

  function At(d: seq<byte>, i: nat): byte {
    if i < |d| then d[i] else 0
  }

  function Rest(d: seq<byte>, k: nat): seq<byte> {
    if k <= |d| then d[k..] else []
  }

  lemma {:induction false} RestAt(d: seq<byte>, p: nat, i: nat)
    ensures At(Rest(d, p), i) == At(d, p + i) && Rest(Rest(d, p), i) == Rest(d, p + i)
  {
  }

  /** `spack` and `ipack`: two and four bytes, the first one highest. */
  function Spack(d: seq<byte>): nat {
    Join16(At(d, 0), At(d, 1))
  }

  function Join16(a: nat, b: nat): nat {
    256 * a + b
  }

  function Ipack(d: seq<byte>): nat {
    0x10000 * Join16(At(d, 0), At(d, 1)) + Join16(At(d, 2), At(d, 3))
  }

  function Split16(v: nat): seq<byte>
    requires v < 0x10000
  {
    [v / 256, v % 256]
  }

  lemma {:induction false} SpackSplit(v: nat, more: seq<byte>)
    requires v < 0x10000
    ensures Spack(Split16(v) + more) == v
  {
  }

  // Sub-channel organization, section 6.2 of EN 300 401.

  datatype Org =
    | Long(subchid: nat, startaddr: nat, opt: nat, protlvl: nat, subchsz: nat)
    | Short(subchid: nat, startaddr: nat, tableSw: nat, tabIndx: nat)

  predicate OrgFits(o: Org) {
    && o.subchid < 64 && o.startaddr < 1024
    && match o
       case Long(_, _, opt, protlvl, subchsz) => opt < 8 && protlvl < 4 && subchsz < 1024
       case Short(_, _, tableSw, tabIndx) => tableSw < 2 && tabIndx < 64
  }

  function OrgSize(o: Org): nat {
    if o.Long? then 4 else 3
  }

  function OrgBytes(o: Org): (b: seq<byte>)
    requires OrgFits(o)
    ensures |b| == OrgSize(o)
  {
    Split16(1024 * o.subchid + o.startaddr) +
    match o
    case Long(_, _, opt, protlvl, subchsz) => Split16(0x8000 + 4096 * opt + 1024 * protlvl + subchsz)
    case Short(_, _, tableSw, tabIndx) => [64 * tableSw + tabIndx]
  }

  /** The entry at the front, from its bytes. */
  function OrgAt(d: seq<byte>): Org {
    OrgOfBytes(At(d, 0), At(d, 1), At(d, 2), At(d, 3))
  }

  function OrgOfBytes(a: byte, b: byte, c: byte, e: byte): Org {
    var subchid, startaddr := a / 4, 256 * (a % 4) + b;
    if c >= 128 then Long(subchid, startaddr, c / 16 % 8, c / 4 % 4, 256 * (c % 4) + e)
    else Short(subchid, startaddr, c / 64, c % 64)
  }

  /** The source takes the same fields from a word. */
  function OrgOfWord(w: nat): Org {
    var subchid, startaddr := w / 0x4000000 % 64, w / 0x10000 % 1024;
    if w / 0x8000 % 2 == 1 then Long(subchid, startaddr, w / 0x1000 % 8, w / 0x400 % 4, w % 1024)
    else Short(subchid, startaddr, w / 0x4000 % 2, w / 0x100 % 64)
  }

  lemma {:induction false} Quotient(w: nat, d: nat, q: nat, r: nat)
    requires w == d * q + r && r < d
    ensures w / d == q && w % d == r
  {
    if w / d < q {
      ProductMono(d, w / d + 1, q);
    } else if w / d > q {
      ProductMono(d, q + 1, w / d);
    }
  }

  lemma {:induction false} ProductMono(d: nat, a: nat, b: nat)
    requires a <= b
    ensures d * a <= d * b
  {
  }

  /** The field of values below n that starts at the digit of weight d. */
  lemma {:induction false} Field(w: nat, d: nat, n: nat, high: nat, v: nat, low: nat)
    requires w == d * (n * high + v) + low && low < d && v < n
    ensures w / d % n == v
  {
    Quotient(w, d, n * high + v, low);
    Quotient(n * high + v, n, high, v);
  }

  /** The first four bytes of two printed halves. */
  lemma {:induction false} IpackHalves(h: nat, l: nat, more: seq<byte>)
    requires h < 0x10000 && l < 0x10000
    ensures Ipack(Split16(h) + Split16(l) + more) == 0x10000 * h + l
  {
  }

  /** A byte by its highest digit, three, two and two digits. */
  lemma {:induction false} SplitByte(c: byte)
    ensures var f, opt, protlvl, q := c / 128, c / 16 % 8, c / 4 % 4, c % 4;
            && c == 128 * f + 16 * opt + 4 * protlvl + q && f < 2
            && c / 64 == 2 * f + opt / 4 && c % 64 == 16 * (opt % 4) + 4 * protlvl + q
  {
    var f, r := c / 128, c % 128;
    var opt, r' := r / 16, r % 16;
    Digits(8 * f + opt, 16, r');
    Digits(f, 8, opt);
    Digits(32 * f + 4 * opt + r' / 4, 4, r' % 4);
    Digits(8 * f + opt, 4, r' / 4);
    Digits(2 * f + opt / 4, 64, 16 * (opt % 4) + r');
  }

  lemma {:induction false} UpperFields(subchid: nat, startaddr: nat, l: nat, w: nat)
    requires subchid < 64 && startaddr < 1024 && l < 0x10000 && w == 0x4000000 * subchid + 0x10000 * startaddr + l
    ensures w / 0x4000000 % 64 == subchid && w / 0x10000 % 1024 == startaddr
  {
    Field(w, 0x4000000, 64, 0, subchid, 0x10000 * startaddr + l);
    Field(w, 0x10000, 1024, subchid, startaddr, l);
  }

  lemma {:induction false} LongFields(h: nat, f: nat, opt: nat, protlvl: nat, n: nat, w: nat)
    requires f < 2 && opt < 8 && protlvl < 4 && n < 1024
    requires w == 0x10000 * h + 0x8000 * f + 0x1000 * opt + 0x400 * protlvl + n
    ensures w / 0x8000 % 2 == f && w / 0x1000 % 8 == opt && w / 0x400 % 4 == protlvl && w % 1024 == n
  {
    Field(w, 0x8000, 2, h, f, 0x1000 * opt + 0x400 * protlvl + n);
    Field(w, 0x1000, 8, 2 * h + f, opt, 0x400 * protlvl + n);
    Field(w, 0x400, 4, 16 * h + 8 * f + opt, protlvl, n);
    Field(w, 1, 1024, 64 * h + 32 * f + 4 * opt + protlvl, n, 0);
  }

  lemma {:induction false} ShortFields(h: nat, f: nat, tableSw: nat, tabIndx: nat, e: nat, w: nat)
    requires f < 2 && tableSw < 2 && tabIndx < 64 && e < 256
    requires w == 0x10000 * h + 0x8000 * f + 0x4000 * tableSw + 0x100 * tabIndx + e
    ensures w / 0x4000 % 2 == tableSw && w / 0x100 % 64 == tabIndx
  {
    Field(w, 0x4000, 2, 2 * h + f, tableSw, 0x100 * tabIndx + e);
    Field(w, 0x100, 64, 4 * h + 2 * f + tableSw, tabIndx, e);
  }

  lemma {:induction false} FieldsOfWord(a: byte, b: byte, c: byte, e: byte, w: nat)
    requires w == 0x10000 * Join16(a, b) + Join16(c, e)
    ensures OrgOfWord(w) == OrgOfBytes(a, b, c, e)
  {
    var h, l, n := 256 * a + b, 256 * c + e, 256 * (a % 4) + b;
    assert a == 4 * (a / 4) + a % 4;
    UpperFields(a / 4, n, l, w);
    SplitByte(c);
    var f, opt, protlvl, q := c / 128, c / 16 % 8, c / 4 % 4, c % 4;
    LongFields(h, f, opt, protlvl, 256 * q + e, w);
    ShortFields(h, f, opt / 4, 16 * (opt % 4) + 4 * protlvl + q, e, w);
  }

  lemma {:induction false} WordIsOrg(d: seq<byte>)
    ensures OrgOfWord(Ipack(d)) == OrgAt(d)
  {
    hide OrgOfWord, OrgOfBytes, At;
    FieldsOfWord(At(d, 0), At(d, 1), At(d, 2), At(d, 3), Ipack(d));
  }

  lemma {:induction false} Digits(high: nat, d: nat, v: nat)
    requires v < d
    ensures (d * high + v) / d == high && (d * high + v) % d == v
  {
    Quotient(d * high + v, d, high, v);
  }

  lemma {:induction false} FourBytes(h: nat, l: nat, more: seq<byte>)
    requires h < 0x10000 && l < 0x10000
    ensures var d := Split16(h) + Split16(l) + more;
            At(d, 0) == h / 256 && At(d, 1) == h % 256 && At(d, 2) == l / 256 && At(d, 3) == l % 256
  {
  }

  lemma {:induction false} ThreeBytes(h: nat, b: byte, more: seq<byte>)
    requires h < 0x10000
    ensures var d := Split16(h) + [b] + more;
            At(d, 0) == h / 256 && At(d, 1) == h % 256 && At(d, 2) == b
  {
  }

  lemma {:induction false} HeadFields(subchid: nat, startaddr: nat)
    requires subchid < 64 && startaddr < 1024
    ensures var h := 1024 * subchid + startaddr;
            h / 256 / 4 == subchid && 256 * (h / 256 % 4) + h % 256 == startaddr
  {
    var q, r := startaddr / 256, startaddr % 256;
    Digits(4 * subchid + q, 256, r);
    Digits(subchid, 4, q);
  }

  lemma {:induction false} TailFields(opt: nat, protlvl: nat, subchsz: nat)
    requires opt < 8 && protlvl < 4 && subchsz < 1024
    ensures var l := 0x8000 + 4096 * opt + 1024 * protlvl + subchsz;
            && l < 0x10000 && l / 256 >= 128 && l / 256 / 16 % 8 == opt && l / 256 / 4 % 4 == protlvl
            && 256 * (l / 256 % 4) + l % 256 == subchsz
  {
    var q, r := subchsz / 256, subchsz % 256;
    Digits(0x80 + 16 * opt + 4 * protlvl + q, 256, r);
    Digits(8 + opt, 16, 4 * protlvl + q);
    Digits(0x20 + 4 * opt + protlvl, 4, q);
    Digits(8 + opt, 4, protlvl);
  }

  lemma {:induction false} OrgAtLong(o: Org, more: seq<byte>)
    requires OrgFits(o) && o.Long?
    ensures OrgAt(OrgBytes(o) + more) == o
  {
    hide At, Split16;
    FourBytes(1024 * o.subchid + o.startaddr, 0x8000 + 4096 * o.opt + 1024 * o.protlvl + o.subchsz, more);
    HeadFields(o.subchid, o.startaddr);
    TailFields(o.opt, o.protlvl, o.subchsz);
  }

  lemma {:induction false} OrgAtShort(o: Org, more: seq<byte>)
    requires OrgFits(o) && o.Short?
    ensures OrgAt(OrgBytes(o) + more) == o
  {
    hide At, Split16;
    ThreeBytes(1024 * o.subchid + o.startaddr, 64 * o.tableSw + o.tabIndx, more);
    HeadFields(o.subchid, o.startaddr);
    Digits(o.tableSw, 64, o.tabIndx);
  }

  /** The entries in the first j bytes. */
  function Orgs(d: seq<byte>, j: int): (os: seq<Org>)
    decreases j
  {
    if j <= 0 then [] else [OrgAt(d)] + Orgs(Rest(d, OrgSize(OrgAt(d))), j - OrgSize(OrgAt(d)))
  }

  function OrgsBytes(os: seq<Org>): seq<byte>
    requires forall k :: 0 <= k < |os| ==> OrgFits(os[k])
  {
    if os == [] then [] else OrgBytes(os[0]) + OrgsBytes(os[1..])
  }

  lemma {:induction false} OrgsStep(o: Org, more: seq<byte>, j: int)
    requires OrgFits(o) && j > 0
    ensures Orgs(OrgBytes(o) + more, j) == [o] + Orgs(more, j - OrgSize(o))
  {
    hide OrgAt, OrgBytes, OrgFits;
    if o.Long? {
      OrgAtLong(o, more);
    } else {
      OrgAtShort(o, more);
    }
    assert Rest(OrgBytes(o) + more, OrgSize(o)) == more;
  }

  /** Parsing what was printed gives the entries back, whatever follows, and goes on behind them if the length
      says so. */
  lemma {:induction false} OrgsOfBytes(os: seq<Org>, more: seq<byte>, k: int)
    requires (forall i :: 0 <= i < |os| ==> OrgFits(os[i])) && k > -3
    ensures Orgs(OrgsBytes(os) + more, |OrgsBytes(os)| + k) == os + Orgs(more, k)
    decreases |os|
  {
    hide OrgAt, OrgBytes, OrgFits, Orgs;
    if os == [] {
      assert OrgsBytes(os) + more == more;
    } else {
      var b, tail := OrgBytes(os[0]), OrgsBytes(os[1..]);
      assert OrgsBytes(os) + more == b + (tail + more);
      OrgsStep(os[0], tail + more, |b| + |tail| + k);
      OrgsOfBytes(os[1..], more, k);
      assert [os[0]] + (os[1..] + Orgs(more, k)) == os + Orgs(more, k);
    }
  }

  lemma {:induction false} NoOrgsLeft(d: seq<byte>, j: int)
    requires j <= 0
    ensures Orgs(d, j) == []
  {
  }

  /** What the parser stores for an entry; the bit rate of an option that the table does not have counts
      as zero. */
  function SubchOf(o: Org): Subch {
    match o
    case Long(subchid, startaddr, opt, protlvl, subchsz) =>
      var level := opt * 4 + protlvl;
      Subch(subchid, startaddr, subchsz,
            if level < 8 then subchsz / EepTable(level).sizemul * EepTable(level).ratemul else 0, true, level, 0, false)
    case Short(subchid, startaddr, _, tabIndx) =>
      if tabIndx < 64 then
        var row := UepTable(tabIndx);
        Subch(subchid, startaddr, row.subchsz, row.bitrate, false, row.protlvl, tabIndx, false)
      else Subch(subchid, startaddr, 0, 0, false, 0, tabIndx, false)
  }

  // Basic service organization, section 6.3.1 of EN 300 401.

  /** A service component: the type of its transport mechanism and what follows it. */
  datatype Comp = Comp(tmid: nat, ascty: nat, subchid: nat, primary: bool, caflag: bool)

  datatype ServiceInfo = ServiceInfo(sid: nat, flags: nat, comps: seq<Comp>)

  predicate CompFits(c: Comp) {
    c.tmid < 4 && c.ascty < 64 && c.subchid < 64
  }

  predicate ServiceFits(s: ServiceInfo, pd: bool) {
    && s.sid < (if pd then 0x1_0000_0000 else 0x10000) && s.flags < 16 && |s.comps| < 16
    && forall k :: 0 <= k < |s.comps| ==> CompFits(s.comps[k])
  }

  function CompBytes(c: Comp): (b: seq<byte>)
    requires CompFits(c)
    ensures |b| == 2
  {
    Split16(0x4000 * c.tmid + 0x100 * c.ascty + 4 * c.subchid + 2 * Flag(c.primary) + Flag(c.caflag))
  }

  function CompOfWord(w: nat): Comp {
    Comp(w / 0x4000 % 4, w / 0x100 % 64, w / 4 % 64, w / 2 % 2 == 1, w % 2 == 1)
  }

  function CompAt(d: seq<byte>): Comp {
    CompOfWord(Spack(d))
  }

  lemma {:induction false} CompAtBytes(c: Comp, more: seq<byte>)
    requires CompFits(c)
    ensures CompAt(CompBytes(c) + more) == c
  {
    hide Spack, Split16;
    var p: nat, f: nat := Flag(c.primary), Flag(c.caflag);
    var w := 0x4000 * c.tmid + 0x100 * c.ascty + 4 * c.subchid + 2 * p + f;
    SpackSplit(w, more);
    Field(w, 0x4000, 4, 0, c.tmid, 0x100 * c.ascty + 4 * c.subchid + 2 * p + f);
    Field(w, 0x100, 64, c.tmid, c.ascty, 4 * c.subchid + 2 * p + f);
    Field(w, 4, 64, 64 * c.tmid + c.ascty, c.subchid, 2 * p + f);
    Field(w, 2, 2, 64 * (64 * c.tmid + c.ascty) + c.subchid, p, f);
    Field(w, 1, 2, 2 * (64 * (64 * c.tmid + c.ascty) + c.subchid) + p, f, 0);
  }

  function Comps(d: seq<byte>, n: nat): (cs: seq<Comp>)
    ensures |cs| == n
    decreases n
  {
    hide CompAt;
    if n == 0 then [] else [CompAt(d)] + Comps(Rest(d, 2), n - 1)
  }

  function CompsBytes(cs: seq<Comp>): (b: seq<byte>)
    requires forall k :: 0 <= k < |cs| ==> CompFits(cs[k])
    ensures |b| == 2 * |cs|
  {
    if cs == [] then [] else CompBytes(cs[0]) + CompsBytes(cs[1..])
  }

  lemma {:induction false} CompsOfBytes(cs: seq<Comp>, more: seq<byte>)
    requires forall k :: 0 <= k < |cs| ==> CompFits(cs[k])
    ensures Comps(CompsBytes(cs) + more, |cs|) == cs
    decreases |cs|
  {
    hide CompAt, CompBytes;
    if cs != [] {
      var tail := CompsBytes(cs[1..]);
      CompAtBytes(cs[0], tail + more);
      CompsOfBytes(cs[1..], more);
      assert CompBytes(cs[0]) + tail + more == CompBytes(cs[0]) + (tail + more);
      assert Rest(CompBytes(cs[0]) + (tail + more), 2) == tail + more;
    }
  }

  function SidSize(pd: bool): nat {
    if pd then 4 else 2
  }

  /** The service at the front. */
  function ServiceAt(d: seq<byte>, pd: bool): ServiceInfo {
    var n := SidSize(pd);
    ServiceInfo(if pd then Ipack(d) else Spack(d), At(d, n) / 16, Comps(Rest(d, n + 1), At(d, n) % 16))
  }

  function ServiceSize(s: ServiceInfo, pd: bool): nat {
    SidSize(pd) + 1 + 2 * |s.comps|
  }

  function SidBytes(sid: nat, pd: bool): (b: seq<byte>)
    requires sid < if pd then 0x1_0000_0000 else 0x10000
    ensures |b| == SidSize(pd)
  {
    if pd then Split16(sid / 0x10000) + Split16(sid % 0x10000) else Split16(sid)
  }

  function ServiceBytes(s: ServiceInfo, pd: bool): (b: seq<byte>)
    requires ServiceFits(s, pd)
    ensures |b| == ServiceSize(s, pd)
  {
    SidBytes(s.sid, pd) + [16 * s.flags + |s.comps|] + CompsBytes(s.comps)
  }

  lemma {:induction false} SidOfBytes(sid: nat, pd: bool, more: seq<byte>)
    requires sid < if pd then 0x1_0000_0000 else 0x10000
    ensures (if pd then Ipack(SidBytes(sid, pd) + more) else Spack(SidBytes(sid, pd) + more)) == sid
  {
    hide Ipack, Spack, Split16;
    if pd {
      IpackHalves(sid / 0x10000, sid % 0x10000, more);
    } else {
      SpackSplit(sid, more);
    }
  }

  lemma {:induction false} ServiceAtBytes(s: ServiceInfo, pd: bool, more: seq<byte>)
    requires ServiceFits(s, pd)
    ensures ServiceAt(ServiceBytes(s, pd) + more, pd) == s
  {
    hide Ipack, Spack, SidBytes, CompsBytes, Comps;
    var sid, n, v := SidBytes(s.sid, pd), SidSize(pd), 16 * s.flags + |s.comps|;
    var tail := CompsBytes(s.comps) + more;
    var d := ServiceBytes(s, pd) + more;
    assert d == sid + ([v] + tail);
    SidOfBytes(s.sid, pd, [v] + tail);
    assert At(d, n) == v && v / 16 == s.flags && v % 16 == |s.comps|;
    assert Rest(d, n + 1) == tail;
    CompsOfBytes(s.comps, more);
  }

  /** The services in the first j bytes. */
  function Services(d: seq<byte>, pd: bool, j: int): seq<ServiceInfo>
    decreases j
  {
    if j <= 0 then []
    else
      var s := ServiceAt(d, pd);
      [s] + Services(Rest(d, ServiceSize(s, pd)), pd, j - ServiceSize(s, pd))
  }

  function ServicesBytes(ss: seq<ServiceInfo>, pd: bool): seq<byte>
    requires forall k :: 0 <= k < |ss| ==> ServiceFits(ss[k], pd)
  {
    if ss == [] then [] else ServiceBytes(ss[0], pd) + ServicesBytes(ss[1..], pd)
  }

  /** Parsing what was printed gives the services back, whatever follows. */
  lemma {:induction false} ServicesOfBytes(ss: seq<ServiceInfo>, pd: bool, more: seq<byte>)
    requires forall k :: 0 <= k < |ss| ==> ServiceFits(ss[k], pd)
    ensures Services(ServicesBytes(ss, pd) + more, pd, |ServicesBytes(ss, pd)|) == ss
    decreases |ss|
  {
    hide ServiceAt, ServiceBytes, ServiceFits;
    if ss != [] {
      var s, tail := ss[0], ServicesBytes(ss[1..], pd);
      ServiceAtBytes(s, pd, tail + more);
      ServicesOfBytes(ss[1..], pd, more);
      assert ServiceBytes(s, pd) + tail + more == ServiceBytes(s, pd) + (tail + more);
      assert Rest(ServiceBytes(s, pd) + (tail + more), ServiceSize(s, pd)) == tail + more;
    }
  }

  /** The calls of `add_service` for one service: its components in the MSC stream mode for audio. */
  function CallsOf(sid: int, cs: seq<Comp>): seq<Call> {
    if cs == [] then []
    else
      var call := Call(sid, Component(cs[0].ascty, cs[0].subchid, cs[0].primary));
      (if cs[0].tmid == 0 then [call] else []) + CallsOf(sid, cs[1..])
  }

  // Groups and blocks.

  datatype Event = SetEid(eid: nat) | AddSub(s: Subch) | AddServ(call: Call)

  function SubEvents(os: seq<Org>): seq<Event> {
    if os == [] then [] else [AddSub(SubchOf(os[0]))] + SubEvents(os[1..])
  }

  function CallEvents(calls: seq<Call>): seq<Event> {
    if calls == [] then [] else [AddServ(calls[0])] + CallEvents(calls[1..])
  }

  function ServEvents(ss: seq<ServiceInfo>): seq<Event> {
    if ss == [] then [] else CallEvents(CallsOf(ss[0].sid, ss[0].comps)) + ServEvents(ss[1..])
  }

  /** `fig_0`: the extension byte decides, and n bytes follow it. */
  function Fig0Events(ext: byte, d: seq<byte>, n: int): seq<Event> {
    hide SubEvents, ServEvents, Orgs, Services, Spack;
    var extn, pd := ext % 32, ext / 32 % 2 == 1;
    if extn == 0 then [SetEid(Spack(d))]
    else if extn == 1 then SubEvents(Orgs(d, n))
    else if extn == 2 then ServEvents(Services(d, pd, n))
    else []
  }

  /** The effect of the group at the front, of figlen bytes after its header: `unpickfig` and the jump
      tables behind it. */
  function FigEvents(d: seq<byte>, figlen: nat): seq<Event> {
    hide Fig0Events, Spack;
    var typ, ext := At(d, 0) / 32, At(d, 1);
    if typ == 0 then Fig0Events(ext, Rest(d, 2), figlen - 1)
    else if typ == 1 then (if ext % 8 == 0 then [SetEid(Spack(Rest(d, 2)))] else [])
    else []
  }

  /** The effect of the groups of a block from byte j on, read from bytes that nothing changes: groups
      follow one another up to an end marker or byte 30. */
  function FibEvents(d: seq<byte>, j: nat): seq<Event>
    decreases if j < 30 then 30 - j else 0
  {
    hide FigEvents;
    if j >= 30 || At(d, 0) == 0xff then []
    else
      var figlen := At(d, 0) % 32;
      FigEvents(d, figlen) + FibEvents(Rest(d, figlen + 1), j + figlen + 1)
  }

  /** A group of a known kind, or one that the parser passes over. */
  datatype Group =
    | EnsembleGroup(eid: nat, cn: nat, rest: seq<byte>)
    | SubchGroup(cn: nat, os: seq<Org>)
    | ServiceGroup(cn: nat, pd: bool, ss: seq<ServiceInfo>)
    | LabelGroup(eid: nat, charset: nat, text: seq<byte>)
    | OtherGroup(typ: nat, body: seq<byte>)

  /** The upper bits of the extension byte, C/N, OE and P/D or the character set, are free for the groups
      that do not use them. A label for a data service, FIG 1/5, has its 22 bytes at least. */
  predicate GroupFits(g: Group) {
    match g
    case EnsembleGroup(eid, cn, rest) => eid < 0x10000 && cn < 8
    case SubchGroup(cn, os) => cn < 8 && forall k :: 0 <= k < |os| ==> OrgFits(os[k])
    case ServiceGroup(cn, pd, ss) => cn < 4 && forall k :: 0 <= k < |ss| ==> ServiceFits(ss[k], pd)
    case LabelGroup(eid, charset, text) => eid < 0x10000 && charset < 32
    case OtherGroup(typ, body) =>
      && typ < 8 && body != []
      && (typ == 0 ==> body[0] % 32 > 2) && (typ == 1 ==> body[0] % 8 != 0)
      && (typ == 1 && body[0] % 8 == 5 ==> |body| >= 22)
  }

  function GroupType(g: Group): nat {
    if g.OtherGroup? then g.typ else if g.LabelGroup? then 1 else 0
  }

  function GroupBody(g: Group): (b: seq<byte>)
    requires GroupFits(g)
    ensures b != []
  {
    match g
    case EnsembleGroup(eid, cn, rest) => [32 * cn] + Split16(eid) + rest
    case SubchGroup(cn, os) => [32 * cn + 1] + OrgsBytes(os)
    case ServiceGroup(cn, pd, ss) => [64 * cn + 32 * Flag(pd) + 2] + ServicesBytes(ss, pd)
    case LabelGroup(eid, charset, text) => [8 * charset] + Split16(eid) + text
    case OtherGroup(_, body) => body
  }

  /** The group fits the five bits of its length, and its header is not the end marker. */
  predicate Printable(g: Group) {
    GroupFits(g) && |GroupBody(g)| < 32 && !(GroupType(g) == 7 && |GroupBody(g)| == 31)
  }

  function GroupBytes(g: Group): (b: seq<byte>)
    requires Printable(g)
    ensures |b| == 1 + |GroupBody(g)|
  {
    [32 * GroupType(g) + |GroupBody(g)|] + GroupBody(g)
  }

  function GroupEvents(g: Group): seq<Event> {
    match g
    case EnsembleGroup(eid, _, _) => [SetEid(eid)]
    case SubchGroup(_, os) => SubEvents(os)
    case ServiceGroup(_, _, ss) => ServEvents(ss)
    case LabelGroup(eid, _, _) => [SetEid(eid)]
    case OtherGroup(_, _) => []
  }

  lemma {:induction false} HeaderOf(g: Group, more: seq<byte>)
    requires Printable(g)
    ensures var d, n := GroupBytes(g) + more, |GroupBody(g)|;
            && At(d, 0) / 32 == GroupType(g) && At(d, 0) % 32 == n && At(d, 0) != 0xff
            && At(d, 1) == GroupBody(g)[0] && Rest(d, 2) == GroupBody(g)[1..] + more && Rest(d, n + 1) == more
  {
    hide GroupBody, GroupFits;
    var b := GroupBody(g);
    var d := GroupBytes(g) + more;
    assert d == [32 * GroupType(g) + |b|] + b + more;
    assert d[1] == b[0] && d[2..] == b[1..] + more && d[|b| + 1..] == more;
  }

  lemma {:induction false} EnsembleExtension(ext: byte, eid: nat, more: seq<byte>, n: int)
    requires ext % 32 == 0 && eid < 0x10000
    ensures Fig0Events(ext, Split16(eid) + more, n) == [SetEid(eid)]
  {
    hide Spack, Split16;
    SpackSplit(eid, more);
  }

  lemma {:induction false} SubchExtension(ext: byte, os: seq<Org>, more: seq<byte>)
    requires ext % 32 == 1 && forall k :: 0 <= k < |os| ==> OrgFits(os[k])
    ensures Fig0Events(ext, OrgsBytes(os) + more, |OrgsBytes(os)|) == SubEvents(os)
  {
    hide SubEvents, Orgs, OrgsBytes, OrgFits;
    OrgsOfBytes(os, more, 0);
    NoOrgsLeft(more, 0);
    assert os + [] == os;
  }

  lemma {:induction false} ServiceExtension(ext: byte, pd: bool, ss: seq<ServiceInfo>, more: seq<byte>)
    requires ext % 32 == 2 && ext / 32 % 2 == Flag(pd) && forall k :: 0 <= k < |ss| ==> ServiceFits(ss[k], pd)
    ensures Fig0Events(ext, ServicesBytes(ss, pd) + more, |ServicesBytes(ss, pd)|) == ServEvents(ss)
  {
    hide ServEvents, Services, ServicesBytes, ServiceFits;
    ServicesOfBytes(ss, pd, more);
  }

  /** A group of type 0 goes to the handler of its extension. */
  lemma {:induction false} Fig0OfGroup(g: Group, ext: byte, b: seq<byte>, more: seq<byte>)
    requires Printable(g) && GroupType(g) == 0 && GroupBody(g) == [ext] + b
    ensures FigEvents(GroupBytes(g) + more, |GroupBody(g)|) == Fig0Events(ext, b + more, |b|)
  {
    hide Fig0Events, GroupBytes, GroupFits, GroupBody;
    HeaderOf(g, more);
    assert GroupBody(g)[1..] == b;
  }

  lemma {:induction false} EnsembleEvents(g: Group, more: seq<byte>)
    requires Printable(g) && g.EnsembleGroup?
    ensures FigEvents(GroupBytes(g) + more, |GroupBody(g)|) == GroupEvents(g)
  {
    hide FigEvents, Fig0Events, Split16, GroupBytes;
    var b := Split16(g.eid) + g.rest;
    assert GroupBody(g) == [32 * g.cn] + b;
    assert b + more == Split16(g.eid) + (g.rest + more);
    ExtensionByte(g.cn, 0);
    Fig0OfGroup(g, 32 * g.cn, b, more);
    EnsembleExtension(32 * g.cn, g.eid, g.rest + more, |b|);
  }

  lemma {:induction false} SubchEvents(g: Group, more: seq<byte>)
    requires Printable(g) && g.SubchGroup?
    ensures FigEvents(GroupBytes(g) + more, |GroupBody(g)|) == GroupEvents(g)
  {
    hide FigEvents, Fig0Events, SubEvents, OrgsBytes, OrgFits, GroupBytes;
    ExtensionByte(g.cn, 1);
    Fig0OfGroup(g, 32 * g.cn + 1, OrgsBytes(g.os), more);
    SubchExtension(32 * g.cn + 1, g.os, more);
  }

  lemma {:induction false} ServiceEvents(g: Group, more: seq<byte>)
    requires Printable(g) && g.ServiceGroup?
    ensures FigEvents(GroupBytes(g) + more, |GroupBody(g)|) == GroupEvents(g)
  {
    hide FigEvents, Fig0Events, ServEvents, ServicesBytes, ServiceFits, GroupBytes;
    var ext := 64 * g.cn + 32 * Flag(g.pd) + 2;
    ExtensionByte(2 * g.cn + Flag(g.pd), 2);
    Fig0OfGroup(g, ext, ServicesBytes(g.ss, g.pd), more);
    ServiceExtension(ext, g.pd, g.ss, more);
  }

  lemma {:induction false} LabelEvents(g: Group, more: seq<byte>)
    requires Printable(g) && g.LabelGroup?
    ensures FigEvents(GroupBytes(g) + more, |GroupBody(g)|) == GroupEvents(g)
  {
    hide Fig0Events, GroupBytes, Split16, Spack, GroupFits;
    EidFits(g);
    var b := Split16(g.eid) + g.text;
    assert GroupBody(g) == [8 * g.charset] + b && GroupBody(g)[1..] == b;
    HeaderOf(g, more);
    assert b + more == Split16(g.eid) + (g.text + more);
    CharsetByte(g.charset);
    SpackSplit(g.eid, g.text + more);
  }

  lemma {:induction false} CharsetByte(charset: nat)
    ensures 8 * charset % 8 == 0
  {
  }

  lemma {:induction false} EidFits(g: Group)
    requires GroupFits(g) && g.LabelGroup?
    ensures g.eid < 0x10000
  {
  }

  lemma {:induction false} OtherEvents(g: Group, more: seq<byte>)
    requires Printable(g) && g.OtherGroup?
    ensures FigEvents(GroupBytes(g) + more, |GroupBody(g)|) == GroupEvents(g)
  {
    hide GroupBytes;
    HeaderOf(g, more);
  }

  /** Dispatching a printed group has the effect that was printed, whatever follows. */
  lemma {:induction false} FigEventsOfGroup(g: Group, more: seq<byte>)
    requires Printable(g)
    ensures FigEvents(GroupBytes(g) + more, |GroupBody(g)|) == GroupEvents(g)
  {
    hide *;
    match g {
      case EnsembleGroup(_, _, _) => EnsembleEvents(g, more);
      case SubchGroup(_, _) => SubchEvents(g, more);
      case ServiceGroup(_, _, _) => ServiceEvents(g, more);
      case LabelGroup(_, _, _) => LabelEvents(g, more);
      case OtherGroup(_, _) => OtherEvents(g, more);
    }
  }

  lemma {:induction false} ExtensionByte(high: nat, extn: nat)
    requires extn < 32
    ensures var v := 32 * high + extn; v % 32 == extn && v / 32 == high
  {
  }

  function GroupsBytes(gs: seq<Group>): seq<byte>
    requires forall k :: 0 <= k < |gs| ==> Printable(gs[k])
  {
    hide Printable;
    if gs == [] then [] else GroupBytes(gs[0]) + GroupsBytes(gs[1..])
  }

  function GroupsEvents(gs: seq<Group>): seq<Event> {
    if gs == [] then [] else GroupEvents(gs[0]) + GroupsEvents(gs[1..])
  }

  /** The groups fill the block from byte j on, or an end marker follows them. */
  predicate Ends(gs: seq<Group>, j: nat, more: seq<byte>)
    requires forall k :: 0 <= k < |gs| ==> Printable(gs[k])
  {
    hide Printable;
    j + |GroupsBytes(gs)| == 30 || (j + |GroupsBytes(gs)| < 30 && At(more, 0) == 0xff)
  }

  lemma {:induction false} FibStep(g: Group, d: seq<byte>, j: nat)
    requires Printable(g) && j < 30
    ensures FibEvents(GroupBytes(g) + d, j) == GroupEvents(g) + FibEvents(d, j + |GroupBytes(g)|)
  {
    hide GroupFits, GroupEvents, FigEvents, GroupBody, GroupType;
    HeaderOf(g, d);
    FigEventsOfGroup(g, d);
  }

  lemma {:induction false} FibEnd(d: seq<byte>, j: nat)
    requires j >= 30 || At(d, 0) == 0xff
    ensures FibEvents(d, j) == []
  {
  }

  lemma {:induction false} EndsTail(gs: seq<Group>, j: nat, more: seq<byte>)
    requires (forall k :: 0 <= k < |gs| ==> Printable(gs[k])) && Ends(gs, j, more) && gs != []
    ensures j < 30 && Ends(gs[1..], j + |GroupBytes(gs[0])|, more)
    ensures GroupsBytes(gs) + more == GroupBytes(gs[0]) + (GroupsBytes(gs[1..]) + more)
  {
    hide Printable, GroupBody;
  }

  /** The groups read from a block are exactly those that were printed, in order. */
  lemma {:induction false} FibEventsOfGroups(gs: seq<Group>, j: nat, more: seq<byte>)
    requires (forall k :: 0 <= k < |gs| ==> Printable(gs[k])) && Ends(gs, j, more)
    ensures FibEvents(GroupsBytes(gs) + more, j) == GroupsEvents(gs)
    decreases |gs|
  {
    hide Printable, GroupBytes, GroupEvents, FibEvents;
    if gs == [] {
      assert GroupsBytes(gs) + more == more;
      FibEnd(more, j);
    } else {
      EndsTail(gs, j, more);
      FibStep(gs[0], GroupsBytes(gs[1..]) + more, j);
      hide Ends, GroupsBytes;
      FibEventsOfGroups(gs[1..], j + |GroupBytes(gs[0])|, more);
    }
  }
}
