/** What a handler that returns success has done, beyond the shape of the table: the gateways ADD
    put on the bridge, the sockets GC removed, and what CHECK's verdict means. */
module Success {
  import opened Base
  import opened Gateways
  import opened Grout
  import opened Machine
  import opened Safety
  import opened Cleanup
  import opened Attach
  import Lifecycle
  import opened RefStore
  import opened Scripts

  // ---------- ADD: gateways ----------

  /** b holds what it held before and these addresses, no more. */
  ghost predicate Holds(t0: Table, t: Table, b: Id, more: set<IPNet>) {
    b in t && t[b].addrs == AddrsBefore(t0, b) + more
  }

  ghost predicate Untouched(t0: Table, t: Table) {
    forall b :: b in t ==> Holds(t0, t, b, {})
  }

  /** Progress of the gateway loop, as long as nothing has failed. */
  ghost predicate GatewaysAt(ips: Entries, t0: Table, pc: Pc, t: Table) {
    if pc.AddConvert? || pc.AddFind? || pc.AddMake? || pc.AddRefind? then pc.ips == ips && Untouched(t0, t)
    else if pc.AddGateway? then
      exists done: seq<IPNet> :: GatewaysFor(ips) == Some(done + [pc.gw] + pc.more) && Holds(t0, t, pc.bid, ToSet(done))
    else if pc.AddDir? || pc.AddPort? then
      GatewaysFor(ips).Some? && Holds(t0, t, pc.bid, ToSet(GatewaysFor(ips).value))
    else if pc.AddMove? || pc.AddConfigure? then OnGateways(ips, t0, t, pc.pid)
    else if pc == Done(Ok) then exists p :: p !in t0 && OnGateways(ips, t0, t, p)
    else true
  }

  /** The port p sits on an interface that has gained exactly the gateways. */
  ghost predicate OnGateways(ips: Entries, t0: Table, t: Table, p: Id) {
    p in t && p !in t0 && GatewaysFor(ips).Some? && Holds(t0, t, t[p].domain, ToSet(GatewaysFor(ips).value))
  }

  lemma NextGateway(job: Job, ips: Entries, t0: Table, b: Id, done: seq<IPNet>, todo: seq<IPNet>, t: Table)
    requires job.Add? && GatewaysFor(ips) == Some(done + todo) && Holds(t0, t, b, ToSet(done))
    ensures GatewaysAt(ips, t0, AddNext(job, b, todo), t)
  {
    if todo != [] {
      assert done + todo == done + [todo[0]] + todo[1..];
    } else {
      assert done + todo == done;
    }
  }

  lemma FirstGateway(job: Job, ips: Entries, t0: Table, b: Id, t: Table)
    requires job.Add? && Holds(t0, t, b, {})
    ensures GatewaysAt(ips, t0, AddBridged(job, b, ips), t)
  {
    if GatewaysFor(ips).Some? {
      assert ToSet([]) == {} && [] + GatewaysFor(ips).value == GatewaysFor(ips).value;
      NextGateway(job, ips, t0, b, [], GatewaysFor(ips).value, t);
    }
  }

  lemma EnsureGateways(env: Faults, job: Job, ips: Entries, t0: Table, pc: Pc, w: World, r: Reply, w': World)
    requires job.Add? && (pc.AddFind? || pc.AddMake? || pc.AddRefind?) && t0.Keys <= w.ifaces.Keys
    requires GatewaysAt(ips, t0, pc, w.ifaces) && Answers(env, AddCall(job, pc), w, r, w')
    ensures GatewaysAt(ips, t0, ResumeAdd(job, pc, r), w'.ifaces)
  {
    assert Untouched(t0, w'.ifaces);
    var next := ResumeAdd(job, pc, r);
    if pc.AddFind? && r.Listed? && FindBridge(r.l, job.bridge).Some? {
      FirstGateway(job, ips, t0, FindBridge(r.l, job.bridge).value, w'.ifaces);
    } else if pc.AddMake? && r.Created? {
      FirstGateway(job, ips, t0, r.id, w'.ifaces);
    } else if pc.AddRefind? && r.Listed? && FindNamed(r.l, job.bridge).Some? {
      FirstGateway(job, ips, t0, FindNamed(r.l, job.bridge).value.id, w'.ifaces);
    }
  }

  lemma AssignGateway(env: Faults, job: Job, ips: Entries, t0: Table, pc: Pc, w: World, r: Reply, w': World)
    requires job.Add? && pc.AddGateway?
    requires GatewaysAt(ips, t0, pc, w.ifaces) && Answers(env, AddAddr(pc.bid, pc.gw), w, r, w')
    ensures GatewaysAt(ips, t0, ResumeAdd(job, pc, r), w'.ifaces)
  {
    var done: seq<IPNet> :| GatewaysFor(ips) == Some(done + [pc.gw] + pc.more) && Holds(t0, w.ifaces, pc.bid, ToSet(done));
    if r.Ack? {
      assert ToSet(done + [pc.gw]) == ToSet(done) + {pc.gw};
      NextGateway(job, ips, t0, pc.bid, done + [pc.gw], pc.more, w'.ifaces);
    }
  }

  lemma PortOnGateways(env: Faults, job: Job, ips: Entries, t0: Table, pc: Pc, w: World, r: Reply, w': World)
    requires job.Add? && pc.AddPort? && t0.Keys <= w.ifaces.Keys
    requires GatewaysAt(ips, t0, pc, w.ifaces) && Answers(env, AddCall(job, pc), w, r, w')
    ensures GatewaysAt(ips, t0, ResumeAdd(job, pc, r), w'.ifaces)
  {
    if r.Created? {
      assert OnGateways(ips, t0, w'.ifaces, r.id);
    }
  }

  lemma {:induction false} GatewaysRun(env: Faults, job: Job, w0: World, evs: seq<Event>)
    requires job.Add? && JobOk(job) && Inv(w0.ifaces) && Legal(env, job, w0, evs)
    requires evs != [] && evs[0].reply.Allocated?
    ensures GatewaysAt(evs[0].reply.ips, w0.ifaces, PcAfter(job, evs), WorldAfter(w0, evs).ifaces)
  {
    var init, e := evs[..|evs| - 1], evs[|evs| - 1];
    if init == [] {
      GatewaysBase(env, job, w0, evs);
    } else {
      assert init[0] == evs[0];
      GatewaysRun(env, job, w0, init);
      KeepsKeys(env, job, w0, init);
      NeverAllocAgain(env, job, w0, init);
      GatewaysStep(env, job, evs[0].reply.ips, w0.ifaces, PcAfter(job, init), WorldAfter(w0, init), e.reply, e.after);
    }
  }

  lemma GatewaysBase(env: Faults, job: Job, w0: World, evs: seq<Event>)
    requires job.Add? && Legal(env, job, w0, evs) && |evs| == 1 && evs[0].reply.Allocated?
    ensures GatewaysAt(evs[0].reply.ips, w0.ifaces, PcAfter(job, evs), WorldAfter(w0, evs).ifaces)
  {
    assert evs[..0] == [];
    assert PcAfter(job, evs) == AddConvert(evs[0].reply.ips) && evs[0].after.ifaces == w0.ifaces;
  }

  lemma KeepsKeys(env: Faults, job: Job, w0: World, evs: seq<Event>)
    requires job.Add? && JobOk(job) && Inv(w0.ifaces) && Legal(env, job, w0, evs)
    ensures w0.ifaces.Keys <= WorldAfter(w0, evs).ifaces.Keys
  {
    AddTracks(env, job, w0, evs);
  }

  lemma GatewaysStep(env: Faults, job: Job, ips: Entries, t0: Table, pc: Pc, w: World, r: Reply, w': World)
    requires job.Add? && AddPc(pc) && !pc.AddAlloc? && t0.Keys <= w.ifaces.Keys
    requires GatewaysAt(ips, t0, pc, w.ifaces) && Answers(env, AddCall(job, pc), w, r, w')
    ensures GatewaysAt(ips, t0, ResumeAdd(job, pc, r), w'.ifaces)
  {
    if pc.AddFind? || pc.AddMake? || pc.AddRefind? {
      EnsureGateways(env, job, ips, t0, pc, w, r, w');
    } else if pc.AddGateway? {
      AssignGateway(env, job, ips, t0, pc, w, r, w');
    } else if pc.AddPort? {
      PortOnGateways(env, job, ips, t0, pc, w, r, w');
    } else if !pc.AddUndo? && !pc.AddRelease? {
      assert w' == w;
    }
  }

  /** A successful ADD: a new bare port with the derived name, on an interface with the configured
      bridge name, which has gained exactly the gateways of the IPAM result; everything else in the
      table is as before; the allocation is held, and a virtio port has its socket. A TAP whose pod has a
      namespace was moved into it and configured, as the last two calls, both successful. */
  lemma AddSucceeds(env: Faults, job: Job, w0: World, evs: seq<Event>)
    requires job.Add? && JobOk(job) && Inv(w0.ifaces) && Legal(env, job, w0, evs) && PcAfter(job, evs) == Done(Ok)
    ensures evs != [] && evs[0].reply.Allocated? && GatewaysFor(evs[0].reply.ips).Some?
    ensures var w, gws := WorldAfter(w0, evs), ToSet(GatewaysFor(evs[0].reply.ips).value);
            && (exists p :: p in w.ifaces && p !in w0.ifaces && NewPort(job, w.ifaces[p], w.ifaces)
                            && Holds(w0.ifaces, w.ifaces, w.ifaces[p].domain, gws))
            && AddFrame(job, w0.ifaces, w.ifaces)
            && job.att in w.ipam && w.releases == w0.releases
            && (job.virtio ==> SockPath(job.dir, job.port) in w.socks)
    ensures !job.virtio && job.netns != [] ==> EndsInPod(job, Steps(job, evs)) && Replies(Steps(job, evs), evs)
  {
    StepsAre(env, job, w0, evs);
    if !job.virtio && job.netns != [] {
      PodSideDone(job, evs);
    }
    OpeningRun(env, job, w0, evs);
    GatewaysRun(env, job, w0, evs);
    AddTracks(env, job, w0, evs);
    RunSafe(env, job, w0, evs);
    var t0, t := w0.ifaces, WorldAfter(w0, evs).ifaces;
    var p :| p !in t0 && OnGateways(evs[0].reply.ips, t0, t, p);
    OnlyPort(job, t0, t, p);
  }

  /** A new interface that has a live domain is the port. */
  lemma OnlyPort(job: Job, t0: Table, t: Table, p: Id)
    requires job.Add? && Inv(t) && AddFrame(job, t0, t) && p in t && p !in t0 && t[p].domain in t
    ensures NewPort(job, t[p], t)
  {
  }

  // ---------- GC: sockets ----------

  ghost predicate StalePath(job: Job, t0: Table, path: bytes)
    requires job.Gc?
  {
    exists b, i :: IsNet(t0, b, job.bridge) && StaleAt(t0, b, job.valid, i) && path == SockPath(job.dir, t0[i].name)
  }

  /** The sockets of deleted stale ports are gone, except that of the port called `pending`. */
  ghost predicate SocksGone(job: Job, w0: World, pending: Option<bytes>, w: World)
    requires job.Gc?
  {
    forall b, i :: IsNet(w0.ifaces, b, job.bridge) && StaleAt(w0.ifaces, b, job.valid, i) && i !in w.ifaces ==>
      SockPath(job.dir, w0.ifaces[i].name) !in w.socks || pending == Some(w0.ifaces[i].name)
  }

  ghost predicate GcSocksAt(exact: bool, job: Job, w0: World, pc: Pc, w: World)
    requires job.Gc?
  {
    && w.socks <= w0.socks
    && (forall s :: s in w0.socks && s !in w.socks ==> StalePath(job, w0.ifaces, s))
    && (pc.GcSock? ==> StalePath(job, w0.ifaces, SockPath(job.dir, pc.name)))
    && (exact ==> SocksGone(job, w0, if pc.GcSock? then Some(pc.name) else None, w))
  }

  /** A bridge is not itself a stale port. */
  lemma NetNotStale(t: Table, b: Id, bridge: bytes, valid: set<bytes>)
    requires Inv(t) && IsNet(t, b, bridge)
    ensures !StaleAt(t, b, valid, b)
  {
  }

  lemma GcReapSocks(env: Faults, job: Job, w0: World, pc: Pc, w: World, r: Reply, w': World)
    requires job.Gc? && Inv(w0.ifaces) && pc.GcReap? && PcInv(job, pc, w.ifaces) && GcAt(env.Reliable?, job, w0, pc, w)
    requires GcSocksAt(env.Reliable?, job, w0, pc, w) && Answers(env, DelIface(pc.head.id), w, r, w')
    ensures GcSocksAt(env.Reliable?, job, w0, ResumeGc(job, pc, r), w')
  {
    var x := pc.head;
    assert x in [x] + pc.rest;
    assert StaleAt(w0.ifaces, pc.bid, job.valid, x.id) && w0.ifaces[x.id].name == x.name;
    assert forall i :: i in w.ifaces && i !in w'.ifaces ==> i == x.id;
  }

  lemma GcSockSocks(env: Faults, job: Job, w0: World, pc: Pc, w: World, r: Reply, w': World)
    requires job.Gc? && pc.GcSock?
    requires GcSocksAt(env.Reliable?, job, w0, pc, w) && Answers(env, RemoveSock(SockPath(job.dir, pc.name)), w, r, w')
    ensures GcSocksAt(env.Reliable?, job, w0, ResumeGc(job, pc, r), w')
  {
    assert w'.ifaces == w.ifaces;
  }

  lemma SweepReach(env: Faults, pc: Pc, w: World, r: Reply, w': World)
    requires SweepPc(pc) && Answers(env, SweepCall(pc), w, r, w')
    ensures w'.socks == w.socks && forall i :: i in w.ifaces && i !in w'.ifaces ==> i == pc.bid
  {
  }

  lemma GcSweepSocks(env: Faults, job: Job, w0: World, pc: Pc, w: World, r: Reply, w': World)
    requires job.Gc? && Inv(w0.ifaces) && SweepPc(pc) && GcAt(env.Reliable?, job, w0, pc, w)
    requires GcSocksAt(env.Reliable?, job, w0, pc, w) && Answers(env, SweepCall(pc), w, r, w')
    ensures GcSocksAt(env.Reliable?, job, w0, ResumeSweep(job, pc, r), w')
  {
    NetNotStale(w0.ifaces, pc.bid, job.bridge, job.valid);
    SweepReach(env, pc, w, r, w');
    assert forall b :: IsNet(w0.ifaces, b, job.bridge) ==> b == pc.bid;
  }

  lemma {:induction false} GcSocksRun(env: Faults, job: Job, w0: World, evs: seq<Event>)
    requires job.Gc? && Inv(w0.ifaces) && Legal(env, job, w0, evs)
    ensures GcSocksAt(env.Reliable?, job, w0, PcAfter(job, evs), WorldAfter(w0, evs))
  {
    if evs != [] {
      var init, e := evs[..|evs| - 1], evs[|evs| - 1];
      GcSocksRun(env, job, w0, init);
      GcRun(env, job, w0, init);
      RunSafe(env, job, w0, init);
      GcSocksStep(env, job, w0, PcAfter(job, init), WorldAfter(w0, init), e.reply, e.after);
    }
  }

  lemma GcSocksStep(env: Faults, job: Job, w0: World, pc: Pc, w: World, r: Reply, w': World)
    requires job.Gc? && Inv(w0.ifaces) && Belongs(job, pc) && !pc.Done? && PcInv(job, pc, w.ifaces)
    requires GcAt(env.Reliable?, job, w0, pc, w)
    requires GcSocksAt(env.Reliable?, job, w0, pc, w) && Answers(env, CallOf(job, pc), w, r, w')
    ensures GcSocksAt(env.Reliable?, job, w0, Resume(job, pc, r), w')
  {
    if SweepPc(pc) {
      GcSweepSocks(env, job, w0, pc, w, r, w');
    } else if pc.GcReap? {
      GcReapSocks(env, job, w0, pc, w, r, w');
    } else if pc.GcSock? {
      GcSockSocks(env, job, w0, pc, w, r, w');
    } else {
      assert w'.ifaces == w.ifaces && w'.socks == w.socks;
    }
  }

  /** Whatever fails, GC removes only sockets of stale ports of this bridge; with reliable cleanup
      it removes all of them. */
  lemma GcSockets(env: Faults, job: Job, w0: World, evs: seq<Event>, path: bytes)
    requires job.Gc? && Inv(w0.ifaces) && Legal(env, job, w0, evs) && path in w0.socks
    ensures path !in WorldAfter(w0, evs).socks ==> StalePath(job, w0.ifaces, path)
    ensures Complete(Reliable, job, w0, evs) ==> (path !in WorldAfter(w0, evs).socks <==> StalePath(job, w0.ifaces, path))
  {
    GcSocksRun(env, job, w0, evs);
    if Complete(Reliable, job, w0, evs) && StalePath(job, w0.ifaces, path) {
      GcSocksRun(Reliable, job, w0, evs);
      GcExact(job, w0, evs);
      var b, i :| IsNet(w0.ifaces, b, job.bridge) && StaleAt(w0.ifaces, b, job.valid, i) && path == SockPath(job.dir, w0.ifaces[i].name);
      Lifecycle.GcMeaning(w0.ifaces, b, job.bridge, job.valid, i);
      NetNotStale(w0.ifaces, b, job.bridge, job.valid);
      assert i !in WorldAfter(w0, evs).ifaces;
    }
  }

  // ---------- CHECK: the verdict ----------

  ghost predicate VerdictAt(job: Job, w0: World, pc: Pc)
    requires job.Check?
  {
    var there := SockPath(job.dir, job.port) in w0.socks;
    if pc.CheckSock? then job.virtio
    else if pc.CheckPrev? || pc.CheckPod? then !job.virtio && job.netns != []
    else if pc.Done? then Verdict(job, there, pc.r)
    else true
  }

  ghost predicate Verdict(job: Job, there: bool, r: Result)
    requires job.Check?
  {
    if r.Ok? then job.virtio ==> there
    else if r.stage.SockMissing? then job.virtio && !there
    else if r.stage.PrevResult? || r.stage.Verify? then !job.virtio && job.netns != []
    else r.stage.Listing? || r.stage.PortMissing?
  }

  lemma {:induction false} VerdictRun(env: Faults, job: Job, w0: World, evs: seq<Event>)
    requires job.Check? && Legal(env, job, w0, evs)
    ensures VerdictAt(job, w0, PcAfter(job, evs))
  {
    if evs != [] {
      var init, e := evs[..|evs| - 1], evs[|evs| - 1];
      VerdictRun(env, job, w0, init);
      CheckRun(env, job, w0, init);
      VerdictStep(env, job, w0, PcAfter(job, init), e.reply, e.after);
    }
  }

  lemma VerdictStep(env: Faults, job: Job, w0: World, pc: Pc, r: Reply, w': World)
    requires job.Check? && CheckPc(pc) && VerdictAt(job, w0, pc) && Answers(env, CheckCall(job, pc), w0, r, w')
    ensures VerdictAt(job, w0, ResumeCheck(job, pc, r))
  {
  }

  /** CHECK's verdict, when grout can be listed: a virtio attachment passes exactly if its port and its
      socket are there, a TAP without netns exactly if its port is; a TAP with netns exactly if its port
      is, prevResult could be read and the pod interface was verified, in this order. */
  lemma CheckVerdict(job: Job, w0: World, evs: seq<Event>)
    requires job.Check? && Complete(Reliable, job, w0, evs)
    ensures var r, port := PcAfter(job, evs).r, NameTaken(w0.ifaces, job.port);
            && WorldAfter(w0, evs) == w0
            && (job.virtio ==> (r.Ok? <==> port && SockPath(job.dir, job.port) in w0.socks))
            && (!job.virtio && job.netns == [] ==> (r.Ok? <==> port))
            && (!port ==> r == Err(PortMissing) && |evs| == 1)
            && (!job.virtio && job.netns != [] && port ==>
                  && |evs| >= 2
                  && (evs[1].reply != Ack ==> |evs| == 2 && r == Err(PrevResult))
                  && (evs[1].reply == Ack ==> |evs| == 3 && r == if evs[2].reply == Ack then Ok else Err(Verify)))
  {
    VerdictRun(Reliable, job, w0, evs);
    CheckRun(Reliable, job, w0, evs);
    CheckScript(job, evs);
    StepsAre(Reliable, job, w0, evs);
  }
}
