/** Where the handlers' guarantees end, stated exactly. */
module Boundaries {
  import opened Base
  import opened PortNames
  import opened Grout
  import opened Machine
  import opened Safety
  import opened Attach
  import opened RefStore
  import opened Gateways
  import opened BridgeNames
  import opened Lifecycle
  import opened Progress

  // ---------- a bridge named like a port ----------

  const EMPTY_WORLD := World(map[], {}, 0, {})

  /** Every ADD uses bridge B, and every port is named by groutPortName. */
  ghost predicate Uses(sha: bytes -> Digest, B: bytes, h: seq<Turn>) {
    forall k :: 0 <= k < |h| ==> Names(sha, B, h[k].job)
  }

  predicate Names(sha: bytes -> Digest, B: bytes, job: Job) {
    match job
    case Add(att, port, bridge, _, _, _, _) => port == GroutPortName(sha, att) && bridge == B
    case Del(att, port, _) => port == GroutPortName(sha, att)
    case Check(att, port, _, _, _) => port == GroutPortName(sha, att)
    case _ => true
  }

  /** No serial history on bridge B ever leaves a port whose bridge is gone. */
  ghost predicate KeepsDomains(env: Faults, sha: bytes -> Digest, B: bytes) {
    forall h :: Serial(env, EMPTY_WORLD, h) && Uses(sha, B, h) ==> NoDangling(WorldOf(EMPTY_WORLD, h).ifaces)
  }

  /** One attachment's port is called B, another one's is not. */
  ghost predicate Clash(sha: bytes -> Digest, B: bytes) {
    exists a, b :: GroutPortName(sha, a) == B && GroutPortName(sha, b) != B
  }

  // ---------- without a clash ----------

  /** Every interface is called B, or is a member of one that is. With `one`, all are called B. */
  ghost predicate Star(one: bool, B: bytes, t: Table) {
    forall i :: i in t ==>
      && i != 0
      && if t[i].name == B then t[i].domain == 0 else !one && t[i].domain in t && t[t[i].domain].name == B
  }

  /** Not a domain: a member, or any interface if all are called B. */
  ghost predicate Leaf(one: bool, B: bytes, t: Table, i: Id) {
    i in t ==> one || t[i].name != B
  }

  ghost predicate Members(l: seq<Info>, t: Table) {
    forall x :: x in l && x.id in t ==> t[x.id].domain != 0
  }

  ghost predicate StarPc(one: bool, B: bytes, job: Job, pc: Pc, t: Table) {
    if pc.AddGateway? || pc.AddDir? || pc.AddPort? then pc.bid in t && t[pc.bid].name == B
    else if pc.AddMove? || pc.AddConfigure? || pc.AddUndo? then Leaf(one, B, t, pc.pid)
    else if pc.DelPort? then Leaf(one, B, t, pc.target.id)
    else if pc.SweepFlush? || pc.SweepDrop? then Memberless(t, pc.bid)
    else if pc.GcReap? then Members([pc.head] + pc.rest, t)
    else if pc.GcSock? then Members(pc.rest, t)
    else true
  }

  /** Ports are called B exactly in the case `one`. */
  predicate Suits(one: bool, B: bytes, job: Job) {
    match job
    case Add(_, port, bridge, _, _, _, _) => bridge == B && (port == B <==> one)
    case Del(_, port, _) => port == B <==> one
    case _ => true
  }

  lemma StarDrop(one: bool, B: bytes, t: Table, i: Id)
    requires Star(one, B, t) && (Memberless(t, i) || Leaf(one, B, t, i))
    ensures Star(one, B, t - {i})
  {
    assert Memberless(t, i) || i !in t by {
      if i in t && Leaf(one, B, t, i) {
        assert forall j :: j in t ==> t[j].domain != i;
      }
    }
  }

  lemma StarMake(one: bool, B: bytes, job: Job, env: Faults, pc: Pc, w: World, r: Reply, w': World)
    requires job.Add? && (pc.AddMake? || pc.AddPort?) && Suits(one, B, job) && Star(one, B, w.ifaces)
    requires StarPc(one, B, job, pc, w.ifaces) && Answers(env, AddCall(job, pc), w, r, w')
    ensures Star(one, B, w'.ifaces) && StarPc(one, B, job, ResumeAdd(job, pc, r), w'.ifaces)
  {
    if pc.AddPort? {
      assert one ==> NameTaken(w.ifaces, job.port);
    }
    assert Star(one, B, w'.ifaces);
  }

  lemma StarFind(one: bool, B: bytes, job: Job, env: Faults, pc: Pc, w: World, r: Reply, w': World)
    requires job.Add? && (pc.AddFind? || pc.AddRefind?) && Suits(one, B, job) && Answers(env, List, w, r, w')
    ensures StarPc(one, B, job, ResumeAdd(job, pc, r), w.ifaces)
  {
  }

  lemma StarAdd(one: bool, B: bytes, job: Job, env: Faults, pc: Pc, w: World, r: Reply, w': World)
    requires job.Add? && AddPc(pc) && Suits(one, B, job) && Star(one, B, w.ifaces) && StarPc(one, B, job, pc, w.ifaces)
    requires Answers(env, AddCall(job, pc), w, r, w')
    ensures Star(one, B, w'.ifaces) && StarPc(one, B, job, ResumeAdd(job, pc, r), w'.ifaces)
  {
    if pc.AddMake? || pc.AddPort? {
      StarMake(one, B, job, env, pc, w, r, w');
    } else if pc.AddUndo? {
      StarDrop(one, B, w.ifaces, pc.pid);
    } else if pc.AddGateway? {
      StarAddrs(one, B, job, env, pc, w, r, w');
    } else if pc.AddFind? || pc.AddRefind? {
      StarFind(one, B, job, env, pc, w, r, w');
    } else {
      assert w'.ifaces == w.ifaces;
    }
  }

  lemma StarAddrs(one: bool, B: bytes, job: Job, env: Faults, pc: Pc, w: World, r: Reply, w': World)
    requires job.Add? && pc.AddGateway? && Star(one, B, w.ifaces) && StarPc(one, B, job, pc, w.ifaces)
    requires Answers(env, AddAddr(pc.bid, pc.gw), w, r, w')
    ensures Star(one, B, w'.ifaces) && StarPc(one, B, job, ResumeAdd(job, pc, r), w'.ifaces)
  {
    var t, t' := w.ifaces, w'.ifaces;
    assert forall i :: i in t' <==> i in t;
    forall i | i in t'
      ensures t'[i].name == t[i].name && t'[i].domain == t[i].domain
    {
    }
  }

  lemma StarDel(one: bool, B: bytes, job: Job, env: Faults, pc: Pc, w: World, r: Reply, w': World)
    requires job.Del? && DelPc(pc) && Suits(one, B, job) && Star(one, B, w.ifaces) && StarPc(one, B, job, pc, w.ifaces)
    requires Answers(env, DelCall(job, pc), w, r, w')
    ensures Star(one, B, w'.ifaces) && StarPc(one, B, job, ResumeDel(job, pc, r), w'.ifaces)
  {
    if pc.DelPort? {
      StarDrop(one, B, w.ifaces, pc.target.id);
    }
  }

  lemma StarSweep(one: bool, B: bytes, job: Job, env: Faults, pc: Pc, w: World, r: Reply, w': World)
    requires (job.Del? || job.Gc?) && SweepPc(pc) && Star(one, B, w.ifaces) && StarPc(one, B, job, pc, w.ifaces)
    requires Answers(env, SweepCall(pc), w, r, w')
    ensures Star(one, B, w'.ifaces) && StarPc(one, B, job, ResumeSweep(job, pc, r), w'.ifaces)
  {
    if pc.SweepDrop? {
      StarDrop(one, B, w.ifaces, pc.bid);
    } else if pc.Sweep? && r.Listed? {
      SweepSees(r.l, w.ifaces, pc.bid);
    }
  }

  lemma MembersNext(one: bool, B: bytes, job: Job, bid: Id, todo: seq<Info>, reaped: bool, t: Table)
    requires Members(todo, t)
    ensures StarPc(one, B, job, GcNext(bid, todo, reaped), t)
  {
    if todo != [] {
      assert [todo[0]] + todo[1..] == todo;
    }
  }

  lemma StarGc(one: bool, B: bytes, job: Job, env: Faults, pc: Pc, w: World, r: Reply, w': World)
    requires job.Gc? && GcPc(pc) && Star(one, B, w.ifaces) && StarPc(one, B, job, pc, w.ifaces)
    requires Answers(env, GcCall(job, pc), w, r, w')
    ensures Star(one, B, w'.ifaces) && StarPc(one, B, job, ResumeGc(job, pc, r), w'.ifaces)
  {
    match pc {
      case GcFind =>
        if r.Listed? && FindBridge(r.l, job.bridge).Some? {
          var b := FindBridge(r.l, job.bridge).value;
          StaleOfMeans(r.l, b, job.valid);
          assert b != 0;
          MembersNext(one, B, job, b, StaleOf(r.l, b, job.valid), false, w'.ifaces);
        }
      case GcReap(bid, x, rest, reaped) =>
        assert x in [x] + rest && forall y :: y in rest ==> y in [x] + rest;
        StarDrop(one, B, w.ifaces, x.id);
        MembersNext(one, B, job, bid, rest, reaped, w'.ifaces);
      case GcSock(bid, _, rest) => MembersNext(one, B, job, bid, rest, true, w'.ifaces);
      case GcIpam =>
    }
  }

  lemma StarStep(one: bool, B: bytes, job: Job, env: Faults, pc: Pc, w: World, r: Reply, w': World)
    requires Belongs(job, pc) && !pc.Done? && Suits(one, B, job) && Star(one, B, w.ifaces) && StarPc(one, B, job, pc, w.ifaces)
    requires Answers(env, CallOf(job, pc), w, r, w')
    ensures Star(one, B, w'.ifaces) && StarPc(one, B, job, Resume(job, pc, r), w'.ifaces)
  {
    if SweepPc(pc) {
      StarSweep(one, B, job, env, pc, w, r, w');
    } else {
      match job {
        case Add(_, _, _, _, _, _, _) => StarAdd(one, B, job, env, pc, w, r, w');
        case Del(_, _, _) => StarDel(one, B, job, env, pc, w, r, w');
        case Check(_, _, _, _, _) => assert w' == w;
        case Gc(_, _, _, _) => StarGc(one, B, job, env, pc, w, r, w');
      }
    }
  }

  lemma {:induction false} StarRun(one: bool, B: bytes, job: Job, env: Faults, w0: World, evs: seq<Event>)
    requires Legal(env, job, w0, evs) && Suits(one, B, job) && Star(one, B, w0.ifaces)
    ensures Star(one, B, WorldAfter(w0, evs).ifaces)
    ensures StarPc(one, B, job, PcAfter(job, evs), WorldAfter(w0, evs).ifaces)
  {
    if evs != [] {
      var init, e := evs[..|evs| - 1], evs[|evs| - 1];
      StarRun(one, B, job, env, w0, init);
      StarStep(one, B, job, env, PcAfter(job, init), WorldAfter(w0, init), e.reply, e.after);
    }
  }

  lemma {:induction false} StarSerial(one: bool, B: bytes, env: Faults, h: seq<Turn>)
    requires Serial(env, EMPTY_WORLD, h) && forall k :: 0 <= k < |h| ==> Suits(one, B, h[k].job)
    ensures Star(one, B, WorldOf(EMPTY_WORLD, h).ifaces)
  {
    if h != [] {
      var t := h[|h| - 1];
      StarSerial(one, B, env, h[..|h| - 1]);
      StarRun(one, B, t.job, env, WorldOf(EMPTY_WORLD, h[..|h| - 1]), t.evs);
    }
  }

  /** Without a clash either no port is called B, or all are and then none can be created beside the bridge. */
  lemma NoClashSafe(env: Faults, sha: bytes -> Digest, B: bytes, h: seq<Turn>)
    requires !Clash(sha, B) && Serial(env, EMPTY_WORLD, h) && Uses(sha, B, h)
    ensures NoDangling(WorldOf(EMPTY_WORLD, h).ifaces)
  {
    var one := GroutPortName(sha, Attachment([], [])) == B;
    assert forall a :: GroutPortName(sha, a) == B <==> one;
    forall k | 0 <= k < |h|
      ensures Suits(one, B, h[k].job)
    {
      assert Names(sha, B, h[k].job);
    }
    StarSerial(one, B, env, h);
  }

  // ---------- with a clash ----------

  /** Grout with a bridge called B and one port on it. */
  function Victim(q: bytes, B: bytes): Table {
    map[1 := Iface(B, KIND_BRIDGE, 0, 0, {}), 2 := Iface(q, KIND_PORT, 1, 0, {})]
  }

  function AddJob(a: Attachment, q: bytes, B: bytes): Job {
    Add(a, q, B, 0, false, [], [])
  }

  /** ADD up to its first list call, in any world. */
  lemma AddReachesFind(env: Faults, job: Job, w0: World, ips: Entries) returns (evs: seq<Event>)
    requires job.Add?
    ensures Stands(env, job, w0, evs, AddFind(ips), w0.(ipam := w0.ipam + {job.att}))
    ensures |evs| == 2 && Converted(evs) && evs[0].reply.ips == ips
  {
    var w1 := w0.(ipam := w0.ipam + {job.att});
    var e1, e2 := Event(Allocated(ips, []), w1), Event(Ack, w1);
    Advance(env, job, w0, [], AddAlloc, w0, e1);
    Advance(env, job, w0, [] + [e1], AddConvert(ips), w1, e2);
    evs := [] + [e1] + [e2];
  }

  /** ADD in an empty grout up to the point where it has to make the bridge. */
  lemma AddReachesMake(env: Faults, job: Job, ips: Entries) returns (evs: seq<Event>)
    requires job.Add?
    ensures Stands(env, job, EMPTY_WORLD, evs, AddMake(ips), EMPTY_WORLD.(ipam := {job.att}))
    ensures Converted(evs) && evs[0].reply.ips == ips
  {
    var w1 := EMPTY_WORLD.(ipam := {job.att});
    assert w1 == EMPTY_WORLD.(ipam := EMPTY_WORLD.ipam + {job.att});
    var before := AddReachesFind(env, job, EMPTY_WORLD, ips);
    var e := Event(Listed([]), w1);
    assert IsListing([], w1.ifaces);
    Advance(env, job, EMPTY_WORLD, before, AddFind(ips), w1, e);
    evs := before + [e];
  }

  /** Grout once ADD has made the bridge. */
  function OneBridge(a: Attachment, B: bytes): World {
    World(map[1 := Iface(B, KIND_BRIDGE, 0, 0, {})], {a}, 0, {})
  }

  lemma AddMakesBridge(env: Faults, job: Job, ips: Entries) returns (evs: seq<Event>)
    requires job.Add?
    ensures Stands(env, job, EMPTY_WORLD, evs, AddBridged(job, 1, ips), OneBridge(job.att, job.bridge))
    ensures Converted(evs) && evs[0].reply.ips == ips
  {
    var w1, e := EMPTY_WORLD.(ipam := {job.att}), Event(Created(1), OneBridge(job.att, job.bridge));
    var before := AddReachesMake(env, job, ips);
    var c := AddIface(job.bridge, KIND_BRIDGE, 0, 0, None);
    assert Creatable(w1, c, 1) && Create(w1, c, 1) == e.after;
    Advance(env, job, EMPTY_WORLD, before, AddMake(ips), w1, e);
    evs := before + [e];
  }

  lemma VictimMade(a: Attachment, q: bytes, B: bytes)
    requires q != B
    ensures var c := AddIface(q, KIND_PORT, 1, 0, None);
            Creatable(OneBridge(a, B), c, 2) && Create(OneBridge(a, B), c, 2) == World(Victim(q, B), {a}, 0, {})
  {
  }

  lemma AddMakes(env: Faults, a: Attachment, q: bytes, B: bytes) returns (evs: seq<Event>)
    requires q != B
    ensures Stands(env, AddJob(a, q, B), EMPTY_WORLD, evs, Done(Ok), World(Victim(q, B), {a}, 0, {}))
  {
    var w2, e := OneBridge(a, B), Event(Created(2), World(Victim(q, B), {a}, 0, {}));
    var before := AddMakesBridge(env, AddJob(a, q, B), []);
    VictimMade(a, q, B);
    Advance(env, AddJob(a, q, B), EMPTY_WORLD, before, AddPort(1), w2, e);
    evs := before + [e];
  }

  lemma VictimListing(q: bytes, B: bytes)
    ensures var x, y := InfoOf(1, Victim(q, B)[1]), InfoOf(2, Victim(q, B)[2]);
            IsListing([x, y], Victim(q, B)) && FindNamed([x, y], B) == Some(x)
  {
    var x, y := InfoOf(1, Victim(q, B)[1]), InfoOf(2, Victim(q, B)[2]);
    var l := [x, y];
    assert l[0] == x && l[1] == y;
  }

  lemma DelBreaks(env: Faults, a: Attachment, q: bytes, B: bytes, w: World) returns (evs: seq<Event>)
    requires w.ifaces == Victim(q, B)
    ensures Legal(env, Del(a, B, []), w, evs) && !NoDangling(WorldAfter(w, evs).ifaces)
  {
    var job := Del(a, B, []);
    var x, y := InfoOf(1, Victim(q, B)[1]), InfoOf(2, Victim(q, B)[2]);
    var l := [x, y];
    VictimListing(q, B);
    var w' := Drop(w, 1);
    var e1, e2 := Event(Listed(l), w), Event(Ack, w');
    Advance(env, job, w, [], DelFind, w, e1);
    Advance(env, job, w, [] + [e1], DelPort(x), w, e2);
    evs := [] + [e1] + [e2];
    assert 2 in w'.ifaces && w'.ifaces[2].domain == 1 && 1 !in w'.ifaces;
  }

  /** Two turns, the second in the world the first has left. */
  lemma SerialTwo(env: Faults, w0: World, t: Turn, t': Turn)
    requires Legal(env, t.job, w0, t.evs) && Legal(env, t'.job, WorldAfter(w0, t.evs), t'.evs)
    ensures Serial(env, w0, [t, t']) && WorldOf(w0, [t]) == WorldAfter(w0, t.evs)
    ensures WorldOf(w0, [t, t']) == WorldAfter(WorldAfter(w0, t.evs), t'.evs)
  {
    assert [t][..0] == [] && [t, t'][..1] == [t];
    assert WorldOf(w0, []) == w0 && Serial(env, w0, []);
    assert Serial(env, w0, [t]);
  }

  /** ADD of b on a bridge called B, then DEL of a, whose port is called B: DEL deletes the bridge
      under b's port. */
  lemma BreakingHistory(env: Faults, sha: bytes -> Digest, B: bytes, a: Attachment, b: Attachment) returns (h: seq<Turn>)
    requires GroutPortName(sha, a) == B && GroutPortName(sha, b) != B
    ensures Serial(env, EMPTY_WORLD, h) && Uses(sha, B, h) && !NoDangling(WorldOf(EMPTY_WORLD, h).ifaces)
  {
    var q := GroutPortName(sha, b);
    var evs := AddMakes(env, b, q, B);
    var evs' := DelBreaks(env, a, q, B, WorldAfter(EMPTY_WORLD, evs));
    var t, t' := Turn(AddJob(b, q, B), evs), Turn(Del(a, B, []), evs');
    SerialTwo(env, EMPTY_WORLD, t, t');
    h := [t, t'];
  }

  /** For a given digest function, a history that leaves a port on a deleted bridge exists exactly if
      the port of some attachment is called like the bridge and that of another is not. */
  lemma BridgeNameExact(env: Faults, sha: bytes -> Digest, B: bytes)
    ensures KeepsDomains(env, sha, B) <==> !Clash(sha, B)
  {
    if Clash(sha, B) {
      var a, b :| GroutPortName(sha, a) == B && GroutPortName(sha, b) != B;
      var h := BreakingHistory(env, sha, B, a, b);
    } else {
      forall h | Serial(env, EMPTY_WORLD, h) && Uses(sha, B, h)
        ensures NoDangling(WorldOf(EMPTY_WORLD, h).ifaces)
      {
        NoClashSafe(env, sha, B, h);
      }
    }
  }

  /** "grk-aaaaaaaaaaa", or its neighbour if B is that name. */
  function OtherPort(B: bytes): (q: bytes)
    ensures PortShaped(q) && q != B
  {
    var q: bytes := PORT_PREFIX + [0x61, 0x61, 0x61, 0x61, 0x61, 0x61, 0x61, 0x61, 0x61, 0x61, 0x61];
    if q != B then q else PORT_PREFIX + [0x62, 0x61, 0x61, 0x61, 0x61, 0x61, 0x61, 0x61, 0x61, 0x61, 0x61]
  }

  /** Two names of digests are the port names of two attachments under some digest function. */
  lemma ClashOf(B: bytes, d: Digest, e: Digest) returns (sha: bytes -> Digest)
    requires PortName(d) == B && PortName(e) != B
    ensures Clash(sha, B)
  {
    var a, b := Attachment([0x61], [0x65]), Attachment([0x62], [0x65]);
    sha := k => if k == Key(a) then d else e;
    assert Key(a)[0] == 0x61 && Key(b)[0] == 0x62;
    assert sha(Key(a)) == d && sha(Key(b)) == e;
    assert GroutPortName(sha, a) == B && GroutPortName(sha, b) != B;
  }

  lemma NoClash(sha: bytes -> Digest, B: bytes)
    requires !PortShaped(B)
    ensures !Clash(sha, B)
  {
    forall a
      ensures GroutPortName(sha, a) != B
    {
      PortNameShape(sha(Key(a)));
    }
  }

  /** Whatever the digest function, whether a configured bridge name is safe can be read off the name:
      it is, exactly if it does not have the shape of a port name. */
  lemma BridgeShapeExact(env: Faults, B: bytes)
    ensures (forall sha: bytes -> Digest :: KeepsDomains(env, sha, B)) <==> !PortShaped(B)
  {
    if PortShaped(B) {
      var sha := ClashOf(B, DigestOf(B), DigestOf(OtherPort(B)));
      BridgeNameExact(env, sha, B);
    } else {
      forall sha: bytes -> Digest
        ensures KeepsDomains(env, sha, B)
      {
        NoClash(sha, B);
        BridgeNameExact(env, sha, B);
      }
    }
  }

  // ---------- an allocation that is not released ----------

  /** Every failed ADD for which IPAM gave this result, and it could be converted, releases it once. */
  ghost predicate AlwaysReleases(env: Faults, job: Job, ips: Entries)
    requires job.Add?
  {
    forall w0, evs :: FailsWith(env, job, w0, evs, ips) ==> WorldAfter(w0, evs).releases == w0.releases + 1
  }

  ghost predicate FailsWith(env: Faults, job: Job, w0: World, evs: seq<Event>, ips: Entries) {
    && Inv(w0.ifaces) && Complete(env, job, w0, evs) && PcAfter(job, evs).r.Err?
    && Converted(evs) && evs[0].reply.ips == ips
  }

  /** The run that leaks: the bridge is there, and gatewaysFor panics. */
  lemma LeakingRun(env: Faults, job: Job, ips: Entries) returns (evs: seq<Event>)
    requires job.Add? && GatewaysFor(ips).None?
    ensures FailsWith(env, job, EMPTY_WORLD, evs, ips) && PcAfter(job, evs) == Done(Err(GatewayPanic))
    ensures job.att in WorldAfter(EMPTY_WORLD, evs).ipam && WorldAfter(EMPTY_WORLD, evs).releases == 0
  {
    evs := AddMakesBridge(env, job, ips);
  }

  /** One IPv4 address without a mask and without a gateway. */
  const MASKLESS: Entries := [Some(IPConfig(IPNet([10, 0, 0, 2], []), None))]

  /** With that result any ADD in an empty grout ends in the panic and keeps its allocation. */
  lemma MasklessLeaks(env: Faults, job: Job) returns (evs: seq<Event>)
    requires job.Add?
    ensures FailsWith(env, job, EMPTY_WORLD, evs, MASKLESS) && PcAfter(job, evs) == Done(Err(GatewayPanic))
    ensures job.att in WorldAfter(EMPTY_WORLD, evs).ipam && WorldAfter(EMPTY_WORLD, evs).releases == 0
  {
    UnderivableExact(MASKLESS[0].value);
    assert GatewaysFrom(MASKLESS, false, false) == None;
    evs := LeakingRun(env, job, MASKLESS);
  }

  /** Whether a failed ADD always releases its allocation can be read off the IPAM result: it does exactly
      if the result does not make gatewaysFor panic. */
  lemma ReleaseExact(env: Faults, job: Job, ips: Entries)
    requires job.Add? && JobOk(job)
    ensures AlwaysReleases(env, job, ips) <==> GatewaysFor(ips).Some?
  {
    if GatewaysFor(ips).None? {
      var evs := LeakingRun(env, job, ips);
      assert WorldAfter(EMPTY_WORLD, evs).releases != EMPTY_WORLD.releases + 1;
    } else {
      forall w0, evs | FailsWith(env, job, w0, evs, ips)
        ensures WorldAfter(w0, evs).releases == w0.releases + 1
      {
        FailedAdd(env, job, w0, evs);
      }
    }
  }

  // ---------- two networks on one bridge ----------

  lemma VictimReady(q: bytes, B: bytes)
    requires PortShaped(q) && !PortShaped(B)
    ensures Ready(Victim(q, B), {B}) && NameTaken(Victim(q, B), q) && Home(Victim(q, B), q) == B
  {
    var t := Victim(q, B);
    assert 2 in t && t[2].name == q && t[2].domain == 1;
    HomeIs(t, 2);
  }

  /** GC of one network removes a live port of another: for every network of more than 12 bytes there is a
      12-byte one on the same bridge, and its GC, which lists only its own attachments, deletes the port
      that ADD has just made for the long one. */
  lemma GcCrosses(fnv: bytes -> Word, sha: bytes -> Digest, network: bytes, a: Attachment) returns (h: seq<Turn>)
    requires |network| > 12
    ensures var B := BridgeNameFor(fnv, network);
            && Short(fnv, network) != network && BridgeNameFor(fnv, Short(fnv, network)) == B
            && Loses(h, EMPTY_WORLD, GroutPortName(sha, a))
            && h[0].job == AddJob(a, GroutPortName(sha, a), B) && PcAfter(h[0].job, h[0].evs) == Done(Ok)
            && h[1].job == Gc(BridgeNameFor(fnv, Short(fnv, network)), {}, {}, [])
  {
    var B, q := BridgeNameFor(fnv, network), GroutPortName(sha, a);
    BridgeNameShape(fnv, network);
    PortNameShape(sha(Key(a)));
    SharedBridge(fnv, network, Short(fnv, network));
    h := AddThenForeignGc(a, q, B);
  }

  lemma GcTakes(q: bytes, B: bytes, w: World) returns (evs: seq<Event>)
    requires PortShaped(q) && !PortShaped(B) && w.ifaces == Victim(q, B)
    ensures Complete(Reliable, Gc(B, {}, {}, []), w, evs)
    ensures NameTaken(w.ifaces, q) && !NameTaken(WorldAfter(w, evs).ifaces, q)
  {
    var gc := Gc(B, {}, {}, []);
    evs := Completable(Reliable, gc, w, [], GcFind, w);
    VictimReady(q, B);
    GcScope({B}, gc, w, evs, q);
  }

  /** Both turns complete; the name is there after the first and gone after the second. */
  ghost predicate Loses(h: seq<Turn>, w0: World, q: bytes) {
    && |h| == 2 && Serial(Reliable, w0, h) && AllComplete(h)
    && NameTaken(WorldOf(w0, h[..1]).ifaces, q) && !NameTaken(WorldOf(w0, h).ifaces, q)
  }

  lemma LosesPair(w0: World, t: Turn, t': Turn, q: bytes)
    requires Complete(Reliable, t.job, w0, t.evs) && Complete(Reliable, t'.job, WorldAfter(w0, t.evs), t'.evs)
    requires NameTaken(WorldAfter(w0, t.evs).ifaces, q)
    requires !NameTaken(WorldAfter(WorldAfter(w0, t.evs), t'.evs).ifaces, q)
    ensures Loses([t, t'], w0, q)
  {
    SerialTwo(Reliable, w0, t, t');
    assert [t, t'][..1] == [t];
  }

  lemma AddThenForeignGc(a: Attachment, q: bytes, B: bytes) returns (h: seq<Turn>)
    requires PortShaped(q) && !PortShaped(B)
    ensures Loses(h, EMPTY_WORLD, q)
    ensures h[0].job == AddJob(a, q, B) && PcAfter(h[0].job, h[0].evs) == Done(Ok) && h[1].job == Gc(B, {}, {}, [])
  {
    var evs := AddMakes(Reliable, a, q, B);
    var more := GcTakes(q, B, WorldAfter(EMPTY_WORLD, evs));
    var t, t' := Turn(AddJob(a, q, B), evs), Turn(Gc(B, {}, {}, []), more);
    LosesPair(EMPTY_WORLD, t, t', q);
    h := [t, t'];
  }

  // ---------- a bridge name taken by something else ----------

  /** Grout in which a port of another kind bears the bridge's name. */
  function Taken(B: bytes): World {
    World(map[1 := Iface(B, KIND_PORT, 0, 0, {})], {}, 0, {})
  }

  lemma TakenListing(B: bytes)
    ensures var x := InfoOf(1, Taken(B).ifaces[1]);
            IsListing([x], Taken(B).ifaces) && FindBridge([x], B) == None && FindNamed([x], B) == Some(x)
  {
    var x := InfoOf(1, Taken(B).ifaces[1]);
    assert [x][0] == x;
  }

  /** ADD up to the point where it has to make the bridge. */
  lemma AddMisses(env: Faults, a: Attachment, q: bytes, B: bytes) returns (evs: seq<Event>)
    ensures Stands(env, AddJob(a, q, B), Taken(B), evs, AddMake([]), Taken(B).(ipam := {a}))
  {
    var job, w0, w1 := AddJob(a, q, B), Taken(B), Taken(B).(ipam := {a});
    assert w1 == w0.(ipam := w0.ipam + {a});
    var before := AddReachesFind(env, job, w0, []);
    TakenListing(B);
    var e := Event(Listed([InfoOf(1, w0.ifaces[1])]), w1);
    Advance(env, job, w0, before, AddFind([]), w1, e);
    evs := before + [e];
  }

  /** The bridge cannot be created, and is then found by name. */
  lemma AddFallsBack(env: Faults, a: Attachment, q: bytes, B: bytes) returns (evs: seq<Event>)
    ensures Stands(env, AddJob(a, q, B), Taken(B), evs, AddPort(1), Taken(B).(ipam := {a}))
  {
    var job, w0, w1 := AddJob(a, q, B), Taken(B), Taken(B).(ipam := {a});
    var before := AddMisses(env, a, q, B);
    TakenListing(B);
    var e1, e2 := Event(Failed, w1), Event(Listed([InfoOf(1, w0.ifaces[1])]), w1);
    Advance(env, job, w0, before, AddMake([]), w1, e1);
    Advance(env, job, w0, before + [e1], AddRefind([]), w1, e2);
    evs := before + [e1] + [e2];
  }

  /** ADD succeeds with its port on something that is not a bridge. */
  lemma AddOnPort(env: Faults, a: Attachment, q: bytes, B: bytes) returns (evs: seq<Event>)
    requires q != B
    ensures Legal(env, AddJob(a, q, B), Taken(B), evs) && PcAfter(AddJob(a, q, B), evs) == Done(Ok)
    ensures var t := WorldAfter(Taken(B), evs).ifaces;
            2 in t && t[2].name == q && t[2].domain == 1 && 1 in t && t[1].kind == KIND_PORT
  {
    var before := AddFallsBack(env, a, q, B);
    var w1, c := Taken(B).(ipam := {a}), AddIface(q, KIND_PORT, 1, 0, None);
    assert Creatable(w1, c, 2);
    var e := Event(Created(2), Create(w1, c, 2));
    Advance(env, AddJob(a, q, B), Taken(B), before, AddPort(1), w1, e);
    evs := before + [e];
  }
}
