/** What DEL and GC do to grout: exactly, when cleanup calls are reliable, and at most,
    whatever fails and wherever the handler is cut short. */
module Cleanup {
  import opened Base
  import opened PortNames
  import opened Grout
  import opened Machine
  import opened Safety

  // ---------- collecting an empty bridge ----------

  ghost predicate Collectable(t: Table, b: Id) {
    b in t && t[b].kind == KIND_BRIDGE && Memberless(t, b)
  }

  ghost function CollectBridge(t: Table, b: Id): Table {
    if Collectable(t, b) then t - {b} else t
  }

  function WithAddrs(t: Table, b: Id, addrs: set<IPNet>): Table
    requires b in t
  {
    t[b := t[b].(addrs := addrs)]
  }

  /** Where gcBridgeIfEmpty, entered with table t1, may stand: exactly so if `exact`. */
  ghost predicate SweepAt(exact: bool, pc: Pc, t1: Table, t: Table) {
    if pc.Sweep? then t == t1
    else if pc.SweepFlush? then t == t1 && Collectable(t1, pc.bid)
    else
      && pc.SweepDrop? && Collectable(t1, pc.bid)
      && exists kept :: kept <= t1[pc.bid].addrs && t == WithAddrs(t1, pc.bid, kept) && (exact ==> kept == {})
  }

  /** What gcBridgeIfEmpty leaves of t1. */
  ghost predicate SweepLeaves(exact: bool, b: Id, t1: Table, t: Table) {
    if exact then t == CollectBridge(t1, b)
    else
      || t == t1
      || (Collectable(t1, b) && (t == t1 - {b} || exists kept :: kept <= t1[b].addrs && t == WithAddrs(t1, b, kept)))
  }

  lemma SweepTracks(env: Faults, job: Job, pc: Pc, w: World, r: Reply, w': World, t1: Table)
    requires (job.Del? || job.Gc?) && SweepPc(pc) && SweepAt(env.Reliable?, pc, t1, w.ifaces)
    requires Answers(env, SweepCall(pc), w, r, w')
    ensures var next := ResumeSweep(job, pc, r);
            if SweepPc(next) then next.bid == pc.bid && SweepAt(env.Reliable?, next, t1, w'.ifaces)
            else SweepLeaves(env.Reliable?, pc.bid, t1, w'.ifaces)
    ensures w' == w.(ifaces := w'.ifaces)
  {
    var b := pc.bid;
    match pc {
      case Sweep(_) =>
        if r.Listed? {
          SweepSees(r.l, w.ifaces, b);
        }
      case SweepFlush(_) =>
        if r.Ack? {
          assert {} <= t1[b].addrs && w'.ifaces == WithAddrs(t1, b, {});
        } else {
          var kept :| kept <= w.ifaces[b].addrs && w' == SetAddrs(w, b, kept);
          assert w'.ifaces == WithAddrs(t1, b, kept);
        }
      case SweepDrop(_) =>
        var kept :| kept <= t1[b].addrs && w.ifaces == WithAddrs(t1, b, kept) && (env.Reliable? ==> kept == {});
        assert Drop(w, b).ifaces == t1 - {b};
    }
  }

  /** t is t1, or t1 with the memberless bridge b flushed or deleted. */
  ghost predicate Within(b: Id, t1: Table, t: Table) {
    && t.Keys <= t1.Keys
    && forall i :: i in t1 ==>
         || (i in t && t[i] == t1[i])
         || (i == b && Collectable(t1, b) && (i in t ==> t[i] == t1[i].(addrs := t[i].addrs) && t[i].addrs <= t1[i].addrs))
  }

  lemma SweepWithin(exact: bool, pc: Pc, b: Id, t1: Table, t: Table)
    requires SweepLeaves(exact, b, t1, t) || (SweepPc(pc) && pc.bid == b && SweepAt(exact, pc, t1, t))
    ensures Within(b, t1, t)
  {
  }

  // ---------- DEL ----------

  ghost function Without(t: Table, name: bytes): Table {
    map i | i in t && t[i].name != name :: t[i]
  }

  /** The abstract effect of DEL: the port goes, and its bridge with it if that was the last member. */
  ghost function DelTable(t: Table, port: bytes): Table {
    if NameTaken(t, port) then
      var p :| p in t && t[p].name == port;
      CollectBridge(Without(t, port), t[p].domain)
    else t
  }

  lemma DropIsWithout(t: Table, x: Info)
    requires InTable(x, t) && UniqueNames(t)
    ensures t - {x.id} == Without(t, x.name)
  {
  }

  /** The socket is gone, or its removal failed. */
  ghost predicate SockGone(exact: bool, job: Job, w0: World, w: World)
    requires job.Del?
  {
    || w.socks == w0.socks - {SockPath(job.dir, job.port)}
    || (!exact && w.socks == w0.socks)
  }

  /** The table once the port has been deleted, or its deletion failed. */
  ghost predicate PortGone(exact: bool, t0: Table, port: bytes, t1: Table) {
    t1 == Without(t0, port) || (!exact && t1 == t0)
  }

  ghost predicate IsPort(t0: Table, port: bytes, x: Info) {
    InTable(x, t0) && x.name == port
  }

  /** Grout and sockets as DEL leaves them, before IPAM is released. */
  ghost predicate DelLeaves(exact: bool, job: Job, w0: World, w: World)
    requires job.Del?
  {
    var t0 := w0.ifaces;
    if !NameTaken(t0, job.port) then w.ifaces == t0 && w.socks == w0.socks
    else
      && SockGone(exact, job, w0, w)
      && exists x, t1 :: IsPort(t0, job.port, x) && PortGone(exact, t0, job.port, t1) &&
                         SweepLeaves(exact, x.domain, t1, w.ifaces)
  }

  /** Where DEL may stand, having started in w0. */
  ghost predicate DelAt(exact: bool, job: Job, w0: World, pc: Pc, w: World)
    requires job.Del?
  {
    var t0 := w0.ifaces;
    && (pc.Done? || (w.ipam == w0.ipam && w.releases == w0.releases))
    && if pc.DelFind? then w == w0
       else if pc.DelPort? then w == w0 && IsPort(t0, job.port, pc.target)
       else if pc.DelSock? then
         w.socks == w0.socks && IsPort(t0, job.port, pc.target) && PortGone(exact, t0, job.port, w.ifaces)
       else if pc.DelRelease? then DelLeaves(exact, job, w0, w)
       else if pc.Done? then
         && (if pc.r.Ok? then DelLeaves(exact, job, w0, w) && w.releases == w0.releases + 1 else !exact && w == w0)
         && (w.ipam == w0.ipam - {job.att} || (!exact && w.ipam == w0.ipam))
       else
         && SweepPc(pc) && SockGone(exact, job, w0, w)
         && exists x, t1 :: IsPort(t0, job.port, x) && x.domain == pc.bid && PortGone(exact, t0, job.port, t1) &&
                            SweepAt(exact, pc, t1, w.ifaces)
  }

  lemma DelFindTracks(env: Faults, job: Job, w0: World, pc: Pc, w: World, r: Reply, w': World)
    requires job.Del? && pc.DelFind? && DelAt(env.Reliable?, job, w0, pc, w) && Answers(env, DelCall(job, pc), w, r, w')
    ensures DelAt(env.Reliable?, job, w0, ResumeDel(job, pc, r), w')
  {
  }

  lemma DelPortTracks(env: Faults, job: Job, w0: World, pc: Pc, w: World, r: Reply, w': World)
    requires job.Del? && JobOk(job) && Inv(w0.ifaces) && pc.DelPort?
    requires DelAt(env.Reliable?, job, w0, pc, w) && Answers(env, DelCall(job, pc), w, r, w')
    ensures DelAt(env.Reliable?, job, w0, ResumeDel(job, pc, r), w')
  {
    DropIsWithout(w0.ifaces, pc.target);
    assert Deletable(w0, pc.target.id);
  }

  lemma DelSockTracks(env: Faults, job: Job, w0: World, pc: Pc, w: World, r: Reply, w': World)
    requires job.Del? && Inv(w0.ifaces) && pc.DelSock?
    requires DelAt(env.Reliable?, job, w0, pc, w) && Answers(env, DelCall(job, pc), w, r, w')
    ensures DelAt(env.Reliable?, job, w0, ResumeDel(job, pc, r), w')
  {
    var exact, x := env.Reliable?, pc.target;
    assert SockGone(exact, job, w0, w') && w'.ifaces == w.ifaces;
    if x.domain == 0 {
      assert SweepLeaves(exact, 0, w'.ifaces, w'.ifaces);
      assert NameTaken(w0.ifaces, job.port);
      assert DelLeaves(exact, job, w0, w');
    } else {
      assert SweepAt(exact, Sweep(x.domain), w'.ifaces, w'.ifaces);
    }
  }

  lemma DelReleaseTracks(env: Faults, job: Job, w0: World, pc: Pc, w: World, r: Reply, w': World)
    requires job.Del? && pc.DelRelease? && DelAt(env.Reliable?, job, w0, pc, w) && Answers(env, DelCall(job, pc), w, r, w')
    ensures DelAt(env.Reliable?, job, w0, ResumeDel(job, pc, r), w')
  {
    assert w'.ifaces == w.ifaces && w'.socks == w.socks;
    assert DelLeaves(env.Reliable?, job, w0, w');
  }

  lemma DelTracks(env: Faults, job: Job, w0: World, pc: Pc, w: World, r: Reply, w': World)
    requires job.Del? && JobOk(job) && Inv(w0.ifaces) && DelPc(pc)
    requires DelAt(env.Reliable?, job, w0, pc, w) && Answers(env, DelCall(job, pc), w, r, w')
    ensures DelAt(env.Reliable?, job, w0, ResumeDel(job, pc, r), w')
  {
    if pc.DelFind? {
      DelFindTracks(env, job, w0, pc, w, r, w');
    } else if pc.DelPort? {
      DelPortTracks(env, job, w0, pc, w, r, w');
    } else if pc.DelSock? {
      DelSockTracks(env, job, w0, pc, w, r, w');
    } else {
      DelReleaseTracks(env, job, w0, pc, w, r, w');
    }
  }

  lemma DelSweepTracks(env: Faults, job: Job, w0: World, pc: Pc, w: World, r: Reply, w': World)
    requires job.Del? && Inv(w0.ifaces) && SweepPc(pc)
    requires DelAt(env.Reliable?, job, w0, pc, w) && Answers(env, SweepCall(pc), w, r, w')
    ensures DelAt(env.Reliable?, job, w0, ResumeSweep(job, pc, r), w')
  {
    var exact := env.Reliable?;
    var x, t1 :| IsPort(w0.ifaces, job.port, x) && x.domain == pc.bid && PortGone(exact, w0.ifaces, job.port, t1) &&
                 SweepAt(exact, pc, t1, w.ifaces);
    SweepTracks(env, job, pc, w, r, w', t1);
  }

  lemma {:induction false} DelRun(env: Faults, job: Job, w0: World, evs: seq<Event>)
    requires job.Del? && JobOk(job) && Inv(w0.ifaces) && Legal(env, job, w0, evs)
    ensures DelAt(env.Reliable?, job, w0, PcAfter(job, evs), WorldAfter(w0, evs))
  {
    if evs != [] {
      var init := evs[..|evs| - 1];
      DelRun(env, job, w0, init);
      var pc, w, e := PcAfter(job, init), WorldAfter(w0, init), evs[|evs| - 1];
      if SweepPc(pc) {
        DelSweepTracks(env, job, w0, pc, w, e.reply, e.after);
      } else {
        DelTracks(env, job, w0, pc, w, e.reply, e.after);
      }
    }
  }

  /** With reliable cleanup, DEL succeeds and does exactly this. */
  lemma DelExact(job: Job, w0: World, evs: seq<Event>)
    requires job.Del? && JobOk(job) && Inv(w0.ifaces) && Complete(Reliable, job, w0, evs)
    ensures PcAfter(job, evs) == Done(Ok)
    ensures var w := WorldAfter(w0, evs);
            && w.ifaces == DelTable(w0.ifaces, job.port)
            && w.ipam == w0.ipam - {job.att} && w.releases == w0.releases + 1
            && w.socks == if NameTaken(w0.ifaces, job.port) then w0.socks - {SockPath(job.dir, job.port)} else w0.socks
  {
    DelRun(Reliable, job, w0, evs);
    assert forall x, y :: InTable(x, w0.ifaces) && y in w0.ifaces && w0.ifaces[y].name == x.name ==> y == x.id;
  }

  lemma DelShape(exact: bool, job: Job, w0: World, pc: Pc, w: World)
    requires job.Del? && Belongs(job, pc) && DelAt(exact, job, w0, pc, w)
    ensures w.ifaces == w0.ifaces ||
            exists x, t1 :: IsPort(w0.ifaces, job.port, x) && PortGone(false, w0.ifaces, job.port, t1) && Within(x.domain, t1, w.ifaces)
  {
    var t0, t := w0.ifaces, w.ifaces;
    if t != t0 {
      if pc.DelSock? {
        assert PortGone(false, t0, job.port, t) && Within(pc.target.domain, t, t);
      } else if SweepPc(pc) {
        var x, t1 :| IsPort(t0, job.port, x) && x.domain == pc.bid && PortGone(exact, t0, job.port, t1) && SweepAt(exact, pc, t1, t);
        SweepWithin(exact, pc, x.domain, t1, t);
        assert PortGone(false, t0, job.port, t1);
      } else {
        var x, t1 :| IsPort(t0, job.port, x) && PortGone(exact, t0, job.port, t1) && SweepLeaves(exact, x.domain, t1, t);
        SweepWithin(exact, pc, x.domain, t1, t);
        assert PortGone(false, t0, job.port, t1);
      }
    }
  }

  lemma DelReach(t0: Table, port: bytes, x: Info, t1: Table, t: Table, i: Id)
    requires IsPort(t0, port, x) && PortGone(false, t0, port, t1) && Within(x.domain, t1, t)
    requires i in t0 && t0[i].name != port
    ensures t.Keys <= t0.Keys
    ensures || (i in t && t[i] == t0[i])
            || (&& i == x.domain && t0[i].kind == KIND_BRIDGE
                && (forall j :: j in t0 && t0[j].domain == i ==> t0[j].name == port && j !in t)
                && (i in t ==> t[i] == t0[i].(addrs := t[i].addrs) && t[i].addrs <= t0[i].addrs))
  {
    assert i in t1 && t1[i] == t0[i];
    if t1 != t0 {
      assert forall j :: j in t0 && j !in t1 ==> t0[j].name == port;
    }
  }

  /** Whatever fails, wherever it stops: DEL touches only its own port and, once that was the last
      member, the bridge it was on. */
  lemma DelSafety(env: Faults, job: Job, w0: World, evs: seq<Event>, i: Id)
    requires job.Del? && JobOk(job) && Inv(w0.ifaces) && Legal(env, job, w0, evs)
    requires i in w0.ifaces && w0.ifaces[i].name != job.port
    ensures WorldAfter(w0, evs).ifaces.Keys <= w0.ifaces.Keys
    ensures var t0, t := w0.ifaces, WorldAfter(w0, evs).ifaces;
            || (i in t && t[i] == t0[i])
            || (&& t0[i].kind == KIND_BRIDGE
                && (exists p :: p in t0 && t0[p].name == job.port && t0[p].domain == i)
                && (forall j :: j in t0 && t0[j].domain == i ==> t0[j].name == job.port && j !in t)
                && (i in t ==> t[i] == t0[i].(addrs := t[i].addrs) && t[i].addrs <= t0[i].addrs))
  {
    DelRun(env, job, w0, evs);
    var t0, t := w0.ifaces, WorldAfter(w0, evs).ifaces;
    DelShape(env.Reliable?, job, w0, PcAfter(job, evs), WorldAfter(w0, evs));
    if t != t0 {
      var x, t1 :| IsPort(t0, job.port, x) && PortGone(false, t0, job.port, t1) && Within(x.domain, t1, t);
      DelReach(t0, job.port, x, t1, t, i);
    }
  }

  // ---------- GC ----------

  ghost predicate IsNet(t: Table, b: Id, bridge: bytes) {
    b in t && t[b].name == bridge && t[b].kind == KIND_BRIDGE
  }

  /** Interface i is a stale plugin port of the bridge b. */
  ghost predicate StaleAt(t: Table, b: Id, valid: set<bytes>, i: Id) {
    i in t && Stale(InfoOf(i, t[i]), b, valid)
  }

  /** t0 without its stale ports, except those still listed in todo. */
  ghost function Reaped(t0: Table, b: Id, valid: set<bytes>, todo: seq<Info>): Table {
    map i | i in t0 && (StaleAt(t0, b, valid, i) ==> InfoOf(i, t0[i]) in todo) :: t0[i]
  }

  /** Some stale ports outside todo may be gone; nothing else differs. */
  ghost predicate Shrunk(t0: Table, b: Id, valid: set<bytes>, todo: seq<Info>, t: Table) {
    && t.Keys <= t0.Keys
    && (forall i :: i in t ==> t[i] == t0[i])
    && (forall i :: i in t0 && i !in t ==> StaleAt(t0, b, valid, i) && InfoOf(i, t0[i]) !in todo)
  }

  ghost predicate ReapAt(exact: bool, t0: Table, b: Id, valid: set<bytes>, todo: seq<Info>, reaped: bool, t: Table) {
    && Shrunk(t0, b, valid, todo, t)
    && (exact ==> t == Reaped(t0, b, valid, todo) && (reaped <==> t != t0))
    && (reaped ==> t != t0)
  }

  /** The abstract effect of GC: retain the valid ports of this bridge, and collect the bridge
      if that emptied it. */
  ghost function GcTable(t: Table, bridge: bytes, valid: set<bytes>): Table {
    if exists b :: IsNet(t, b, bridge) then
      var b :| IsNet(t, b, bridge);
      var kept := Reaped(t, b, valid, []);
      if kept != t then CollectBridge(kept, b) else t
    else t
  }

  ghost predicate GcAt(exact: bool, job: Job, w0: World, pc: Pc, w: World)
    requires job.Gc?
  {
    var t0, t := w0.ifaces, w.ifaces;
    if pc.GcFind? then w == w0
    else if pc.GcReap? then
      IsNet(t0, pc.bid, job.bridge) && ReapAt(exact, t0, pc.bid, job.valid, [pc.head] + pc.rest, pc.reaped, t)
    else if pc.GcSock? then IsNet(t0, pc.bid, job.bridge) && ReapAt(exact, t0, pc.bid, job.valid, pc.rest, true, t)
    else if pc.GcIpam? then GcLeaves(exact, job, t0, t)
    else if pc.Done? then (if pc.r.Ok? then GcLeaves(exact, job, t0, t) else !exact && w == w0)
    else
      SweepPc(pc) && IsNet(t0, pc.bid, job.bridge) &&
      exists t1 :: ReapAt(exact, t0, pc.bid, job.valid, [], true, t1) && SweepAt(exact, pc, t1, t)
  }

  ghost predicate GcLeaves(exact: bool, job: Job, t0: Table, t: Table)
    requires job.Gc?
  {
    if forall b :: !IsNet(t0, b, job.bridge) then t == t0
    else exists b, t1, reaped ::
      && IsNet(t0, b, job.bridge) && ReapAt(exact, t0, b, job.valid, [], reaped, t1)
      && (if reaped then SweepLeaves(exact, b, t1, t) else t == t1)
  }

  lemma GcNextAt(exact: bool, job: Job, w0: World, b: Id, todo: seq<Info>, reaped: bool, w: World)
    requires job.Gc? && IsNet(w0.ifaces, b, job.bridge) && ReapAt(exact, w0.ifaces, b, job.valid, todo, reaped, w.ifaces)
    ensures GcAt(exact, job, w0, GcNext(b, todo, reaped), w)
  {
    if todo != [] {
      assert [todo[0]] + todo[1..] == todo;
    } else if reaped {
      assert SweepAt(exact, Sweep(b), w.ifaces, w.ifaces);
    }
  }

  lemma GcFindTracks(env: Faults, job: Job, w0: World, r: Reply, w': World)
    requires job.Gc? && Answers(env, List, w0, r, w')
    ensures GcAt(env.Reliable?, job, w0, ResumeGc(job, GcFind, r), w')
  {
    var t0 := w0.ifaces;
    if r.Listed? {
      var b := FindBridge(r.l, job.bridge);
      if b.Some? {
        var todo := StaleOf(r.l, b.value, job.valid);
        StaleOfMeans(r.l, b.value, job.valid);
        assert Reaped(t0, b.value, job.valid, todo) == t0;
        GcNextAt(env.Reliable?, job, w0, b.value, todo, false, w');
      } else {
        assert forall b :: b in t0 ==> InfoOf(b, t0[b]) in r.l;
        assert forall b :: !IsNet(t0, b, job.bridge);
      }
    }
  }

  /** Deleting, or failing to delete, the next port of the old listing. */
  lemma ReapTable(t0: Table, b: Id, valid: set<bytes>, x: Info, rest: seq<Info>, t: Table)
    requires Shrunk(t0, b, valid, [x] + rest, t) && Pending([x] + rest, b, valid, t)
    ensures Shrunk(t0, b, valid, rest, t) && Shrunk(t0, b, valid, rest, t - {x.id})
    ensures t == Reaped(t0, b, valid, [x] + rest) ==> t - {x.id} == Reaped(t0, b, valid, rest)
    ensures x.id in t && t - {x.id} != t0
  {
    var todo := [x] + rest;
    assert x in todo && forall y :: y in rest ==> y in todo;
    assert forall y :: y in todo ==> y == x || y in rest;
    forall y | y in rest
      ensures y.id != x.id
    {
      var k :| 0 <= k < |rest| && rest[k] == y;
      assert todo[0].id != todo[k + 1].id;
    }
  }

  lemma GcReapTracks(env: Faults, job: Job, w0: World, pc: Pc, w: World, r: Reply, w': World)
    requires job.Gc? && Inv(w0.ifaces) && pc.GcReap? && PcInv(job, pc, w.ifaces)
    requires GcAt(env.Reliable?, job, w0, pc, w) && Answers(env, DelIface(pc.head.id), w, r, w')
    ensures GcAt(env.Reliable?, job, w0, ResumeGc(job, pc, r), w')
  {
    var x, rest, t0, b := pc.head, pc.rest, w0.ifaces, pc.bid;
    assert x in [x] + rest;
    ReapTable(t0, b, job.valid, x, rest, w.ifaces);
    assert t0[x.id] == w.ifaces[x.id] && PortShaped(x.name) && Deletable(w, x.id);
    if !r.Ack? {
      assert !env.Reliable?;
      GcNextAt(env.Reliable?, job, w0, b, rest, pc.reaped, w');
    }
  }

  lemma GcTracks(env: Faults, job: Job, w0: World, pc: Pc, w: World, r: Reply, w': World)
    requires job.Gc? && Inv(w0.ifaces) && GcPc(pc) && PcInv(job, pc, w.ifaces)
    requires GcAt(env.Reliable?, job, w0, pc, w) && Answers(env, GcCall(job, pc), w, r, w')
    ensures GcAt(env.Reliable?, job, w0, ResumeGc(job, pc, r), w')
  {
    match pc {
      case GcFind => GcFindTracks(env, job, w0, r, w');
      case GcReap(_, _, _, _) => GcReapTracks(env, job, w0, pc, w, r, w');
      case GcSock(b, _, rest) => GcNextAt(env.Reliable?, job, w0, b, rest, true, w');
      case GcIpam => GcIpamTracks(env, job, w0, w, r, w');
    }
  }

  lemma GcIpamTracks(env: Faults, job: Job, w0: World, w: World, r: Reply, w': World)
    requires job.Gc? && GcAt(env.Reliable?, job, w0, GcIpam, w) && Answers(env, Collect(job.keep), w, r, w')
    ensures GcAt(env.Reliable?, job, w0, Done(Ok), w')
  {
    assert w'.ifaces == w.ifaces;
  }

  lemma GcSweepTracks(env: Faults, job: Job, w0: World, pc: Pc, w: World, r: Reply, w': World)
    requires job.Gc? && SweepPc(pc)
    requires GcAt(env.Reliable?, job, w0, pc, w) && Answers(env, SweepCall(pc), w, r, w')
    ensures GcAt(env.Reliable?, job, w0, ResumeSweep(job, pc, r), w')
  {
    var exact := env.Reliable?;
    var t1 :| ReapAt(exact, w0.ifaces, pc.bid, job.valid, [], true, t1) && SweepAt(exact, pc, t1, w.ifaces);
    SweepTracks(env, job, pc, w, r, w', t1);
    if !SweepPc(ResumeSweep(job, pc, r)) {
      assert GcLeaves(exact, job, w0.ifaces, w'.ifaces) by {
        assert IsNet(w0.ifaces, pc.bid, job.bridge) && SweepLeaves(exact, pc.bid, t1, w'.ifaces);
      }
    }
  }

  lemma {:induction false} GcRun(env: Faults, job: Job, w0: World, evs: seq<Event>)
    requires job.Gc? && Inv(w0.ifaces) && Legal(env, job, w0, evs)
    ensures GcAt(env.Reliable?, job, w0, PcAfter(job, evs), WorldAfter(w0, evs))
  {
    if evs != [] {
      var init := evs[..|evs| - 1];
      GcRun(env, job, w0, init);
      RunSafe(env, job, w0, init);
      var pc, w, e := PcAfter(job, init), WorldAfter(w0, init), evs[|evs| - 1];
      if SweepPc(pc) {
        GcSweepTracks(env, job, w0, pc, w, e.reply, e.after);
      } else {
        GcTracks(env, job, w0, pc, w, e.reply, e.after);
      }
    }
  }

  /** Whatever fails and wherever it stops, GC frees no allocation of a valid attachment, and makes none. */
  lemma {:induction false} GcAllocations(env: Faults, job: Job, w0: World, evs: seq<Event>)
    requires job.Gc? && Legal(env, job, w0, evs)
    ensures w0.ipam * job.keep <= WorldAfter(w0, evs).ipam <= w0.ipam
    ensures WorldAfter(w0, evs).releases == w0.releases
  {
    if evs != [] {
      var init, e := evs[..|evs| - 1], evs[|evs| - 1];
      GcAllocations(env, job, w0, init);
      AllocationStep(env, job, PcAfter(job, init), WorldAfter(w0, init), e.reply, e.after);
    }
  }

  lemma AllocationStep(env: Faults, job: Job, pc: Pc, w: World, r: Reply, w': World)
    requires job.Gc? && Belongs(job, pc) && !pc.Done? && Answers(env, CallOf(job, pc), w, r, w')
    ensures w.ipam * job.keep <= w'.ipam <= w.ipam && w'.releases == w.releases
  {
  }

  /** With reliable cleanup, GC succeeds and the table is exactly the retained one, although
      the loop walks a listing taken before its first deletion. */
  lemma GcExact(job: Job, w0: World, evs: seq<Event>)
    requires job.Gc? && Inv(w0.ifaces) && Complete(Reliable, job, w0, evs)
    ensures PcAfter(job, evs) == Done(Ok)
    ensures WorldAfter(w0, evs).ifaces == GcTable(w0.ifaces, job.bridge, job.valid)
    ensures w0.ipam * job.keep <= WorldAfter(w0, evs).ipam <= w0.ipam
  {
    GcRun(Reliable, job, w0, evs);
    GcAllocations(Reliable, job, w0, evs);
  }

  lemma GcShape(exact: bool, job: Job, w0: World, pc: Pc, w: World)
    requires job.Gc? && Belongs(job, pc) && GcAt(exact, job, w0, pc, w)
    ensures w.ifaces == w0.ifaces ||
            exists b, t1 :: && IsNet(w0.ifaces, b, job.bridge) && Shrunk(w0.ifaces, b, job.valid, [], t1)
                            && Within(b, t1, w.ifaces) && (t1 == w.ifaces || t1 != w0.ifaces)
  {
    var t0, t := w0.ifaces, w.ifaces;
    if t != t0 {
      if pc.GcReap? || pc.GcSock? {
        assert Shrunk(t0, pc.bid, job.valid, [], t) && Within(pc.bid, t, t);
      } else if SweepPc(pc) {
        var t1 :| ReapAt(exact, t0, pc.bid, job.valid, [], true, t1) && SweepAt(exact, pc, t1, t);
        SweepWithin(exact, pc, pc.bid, t1, t);
      } else {
        var b, t1, reaped :| && IsNet(t0, b, job.bridge) && ReapAt(exact, t0, b, job.valid, [], reaped, t1)
                             && (if reaped then SweepLeaves(exact, b, t1, t) else t == t1);
        if reaped {
          SweepWithin(exact, pc, b, t1, t);
        } else {
          assert Within(b, t1, t);
        }
      }
    }
  }

  /** Whatever fails, wherever it stops: GC deletes only stale grk- ports on this network's bridge,
      and touches that bridge itself only when it had members and all were such ports and are gone. */
  lemma GcSafety(env: Faults, job: Job, w0: World, evs: seq<Event>, i: Id)
    requires job.Gc? && Inv(w0.ifaces) && Legal(env, job, w0, evs)
    requires i in w0.ifaces
    ensures WorldAfter(w0, evs).ifaces.Keys <= w0.ifaces.Keys
    ensures var t0, t := w0.ifaces, WorldAfter(w0, evs).ifaces;
            || (i in t && t[i] == t0[i])
            || (i !in t && exists b :: IsNet(t0, b, job.bridge) && StaleAt(t0, b, job.valid, i))
            || (&& IsNet(t0, i, job.bridge) && !Memberless(t0, i)
                && (forall j :: j in t0 && t0[j].domain == i ==> StaleAt(t0, i, job.valid, j) && j !in t)
                && (i in t ==> t[i] == t0[i].(addrs := t[i].addrs) && t[i].addrs <= t0[i].addrs))
  {
    GcRun(env, job, w0, evs);
    GcShape(env.Reliable?, job, w0, PcAfter(job, evs), WorldAfter(w0, evs));
    var t0, t := w0.ifaces, WorldAfter(w0, evs).ifaces;
    if t != t0 {
      var b, t1 :| && IsNet(t0, b, job.bridge) && Shrunk(t0, b, job.valid, [], t1)
                   && Within(b, t1, t) && (t1 == t || t1 != t0);
      GcReach(t0, b, job.valid, t1, t, i);
    }
  }

  lemma GcReach(t0: Table, b: Id, valid: set<bytes>, t1: Table, t: Table, i: Id)
    requires b in t0 && Shrunk(t0, b, valid, [], t1) && Within(b, t1, t) && (t1 == t || t1 != t0) && i in t0
    ensures t.Keys <= t0.Keys
    ensures || (i in t && t[i] == t0[i])
            || (i !in t && StaleAt(t0, b, valid, i))
            || (&& i == b && !Memberless(t0, i)
                && (forall j :: j in t0 && t0[j].domain == i ==> StaleAt(t0, i, valid, j) && j !in t)
                && (i in t ==> t[i] == t0[i].(addrs := t[i].addrs) && t[i].addrs <= t0[i].addrs))
  {
    if t1 != t0 {
      assert exists j :: j in t0 && j !in t1;
    }
  }
}
