/** What ADD does to grout and to IPAM at every point it can stop. */
module Attach {
  import opened Base
  import opened Gateways
  import opened Grout
  import opened Machine
  import opened Safety

  ghost predicate NewBridge(job: Job, f: Iface)
    requires job.Add?
  {
    f == Iface(job.bridge, KIND_BRIDGE, 0, 0, f.addrs)
  }

  /** The port ADD makes: bare, and a member of a live interface with the configured bridge name. */
  ghost predicate NewPort(job: Job, f: Iface, t: Table)
    requires job.Add?
  {
    f == Iface(job.port, KIND_PORT, f.domain, job.mtu, {}) && f.domain in t && t[f.domain].name == job.bridge
  }

  /** Nothing that was there is gone or altered, except that the interface carrying the bridge name
      may have gained addresses; what is new is the bridge and the port. */
  ghost predicate AddFrame(job: Job, t0: Table, t: Table)
    requires job.Add?
  {
    && (forall i :: i in t0 ==> i in t && t[i] == t0[i].(addrs := t[i].addrs) && t0[i].addrs <= t[i].addrs)
    && (forall i :: i in t0 && t0[i].name != job.bridge ==> t[i] == t0[i])
    && (forall i :: i in t && i !in t0 ==> NewBridge(job, t[i]) || NewPort(job, t[i], t))
  }

  ghost predicate PortAdded(job: Job, t0: Table, t: Table)
    requires job.Add?
  {
    exists p :: p in t && p !in t0 && t[p].name == job.port
  }

  /** Sockets change only by grout creating the one of a virtio port. */
  ghost predicate SocksAt(job: Job, w0: World, made: bool, w: World)
    requires job.Add?
  {
    w.socks == w0.socks + (if made && job.virtio then {SockPath(job.dir, job.port)} else {})
  }

  /** The pod side failed, so the port was to be deleted again. */
  predicate Undoes(stage: Stage) {
    stage.MoveLink? || stage.Configure?
  }

  /** Where ADD may stand, having started in w0. */
  ghost predicate AddAt(env: Faults, job: Job, w0: World, pc: Pc, w: World)
    requires job.Add?
  {
    var t0, t, added := w0.ifaces, w.ifaces, PortAdded(job, w0.ifaces, w.ifaces);
    && AddFrame(job, t0, t)
    && SocksAt(job, w0, added, w)
    && if pc.AddAlloc? then w == w0
       else if pc.AddConvert? || pc.AddFind? then w == w0.(ipam := w0.ipam + {job.att})
       else if pc.Done? && pc.r.Err? then FailedAt(env, job, w0, pc.r.stage, w)
       else
         && Allocd(job, w0, w)
         && if pc.AddMove? || pc.AddConfigure? then Made(job, t0, t, pc.pid)
            else if pc.AddUndo? then Made(job, t0, t, pc.pid) && Undoes(pc.stage)
            else if pc.AddRelease? then ReleaseAt(env, pc.stage, added)
            else added <==> pc.Done?
  }

  ghost predicate Made(job: Job, t0: Table, t: Table, pid: Id)
    requires job.Add?
  {
    pid in t && pid !in t0 && t[pid].name == job.port && !job.virtio
  }

  /** The world after a failed ADD, by the stage that failed. */
  ghost predicate FailedAt(env: Faults, job: Job, w0: World, stage: Stage, w: World)
    requires job.Add?
  {
    if stage.IpamAdd? then w == w0 || (env.Lossy? && w == w0.(ipam := w0.ipam + {job.att}))
    else if stage.Convert? then w == w0.(ipam := w0.ipam + {job.att})
    else if stage.GatewayPanic? then Allocd(job, w0, w) && !PortAdded(job, w0.ifaces, w.ifaces)
    else
      && ReleaseAt(env, stage, PortAdded(job, w0.ifaces, w.ifaces))
      && w.releases == w0.releases + 1
      && (w.ipam == w0.ipam - {job.att} || (!env.Reliable? && w.ipam == w0.ipam + {job.att}))
  }

  ghost predicate Allocd(job: Job, w0: World, w: World)
    requires job.Add?
  {
    w.ipam == w0.ipam + {job.att} && w.releases == w0.releases
  }

  /** On the way out a port is left behind only by a failed rollback, or by a create whose reply was lost. */
  ghost predicate ReleaseAt(env: Faults, stage: Stage, added: bool) {
    && !stage.IpamAdd? && !stage.Convert? && !stage.GatewayPanic?
    && (added ==> (!env.Reliable? && Undoes(stage)) || (env.Lossy? && stage.PortAdd?))
  }

  // ---------- changes ----------

  lemma FrameBridge(job: Job, w0: World, w: World, id: Id)
    requires job.Add? && JobOk(job) && AddFrame(job, w0.ifaces, w.ifaces) && id !in w.ifaces
    ensures var w' := Create(w, AddIface(job.bridge, KIND_BRIDGE, 0, 0, None), id);
            AddFrame(job, w0.ifaces, w'.ifaces) && (PortAdded(job, w0.ifaces, w'.ifaces) ==> PortAdded(job, w0.ifaces, w.ifaces))
  {
  }

  lemma FramePort(job: Job, w0: World, w: World, bid: Id, id: Id, sock: Option<bytes>)
    requires job.Add? && JobOk(job) && AddFrame(job, w0.ifaces, w.ifaces) && id !in w.ifaces
    requires bid in w.ifaces && w.ifaces[bid].name == job.bridge
    ensures var w' := Create(w, AddIface(job.port, KIND_PORT, bid, job.mtu, sock), id);
            AddFrame(job, w0.ifaces, w'.ifaces) && PortAdded(job, w0.ifaces, w'.ifaces)
  {
    var t' := Create(w, AddIface(job.port, KIND_PORT, bid, job.mtu, sock), id).ifaces;
    assert id in t' && id !in w0.ifaces && t'[id].name == job.port;
  }

  lemma FrameAddr(job: Job, w0: World, w: World, bid: Id, a: IPNet)
    requires job.Add? && JobOk(job) && AddFrame(job, w0.ifaces, w.ifaces)
    requires bid in w.ifaces && w.ifaces[bid].name == job.bridge
    ensures var w' := SetAddrs(w, bid, w.ifaces[bid].addrs + {a});
            AddFrame(job, w0.ifaces, w'.ifaces) && (PortAdded(job, w0.ifaces, w'.ifaces) ==> PortAdded(job, w0.ifaces, w.ifaces))
  {
  }

  /** Undoing the only new port of that name leaves no new port. */
  lemma FrameUndo(job: Job, w0: World, w: World, pid: Id)
    requires job.Add? && JobOk(job) && AddFrame(job, w0.ifaces, w.ifaces) && Inv(w.ifaces)
    requires pid in w.ifaces && pid !in w0.ifaces && w.ifaces[pid].name == job.port
    ensures AddFrame(job, w0.ifaces, Drop(w, pid).ifaces) && !PortAdded(job, w0.ifaces, Drop(w, pid).ifaces)
  {
  }

  lemma BridgedAt(env: Faults, job: Job, w0: World, bid: Id, ips: Entries, w: World)
    requires job.Add? && Allocd(job, w0, w) && AddFrame(job, w0.ifaces, w.ifaces)
    requires !PortAdded(job, w0.ifaces, w.ifaces) && w.socks == w0.socks
    ensures AddAt(env, job, w0, AddBridged(job, bid, ips), w)
  {
  }

  lemma AddEnsureTracks(env: Faults, job: Job, w0: World, pc: Pc, w: World, r: Reply, w': World)
    requires job.Add? && JobOk(job) && (pc.AddAlloc? || pc.AddConvert? || pc.AddFind? || pc.AddMake? || pc.AddRefind?)
    requires AddAt(env, job, w0, pc, w) && Answers(env, AddCall(job, pc), w, r, w')
    ensures AddAt(env, job, w0, ResumeAdd(job, pc, r), w')
  {
    if pc.AddFind? {
      if r.Listed? && FindBridge(r.l, job.bridge).Some? {
        BridgedAt(env, job, w0, FindBridge(r.l, job.bridge).value, pc.ips, w');
      }
    } else if pc.AddMake? {
      var c := AddCall(job, pc);
      forall id | Creatable(w, c, id)
        ensures AddFrame(job, w0.ifaces, Create(w, c, id).ifaces) && !PortAdded(job, w0.ifaces, Create(w, c, id).ifaces)
      {
        FrameBridge(job, w0, w, id);
      }
      if r.Created? {
        BridgedAt(env, job, w0, r.id, pc.ips, w');
      }
    } else if pc.AddRefind? && r.Listed? && FindNamed(r.l, job.bridge).Some? {
      BridgedAt(env, job, w0, FindNamed(r.l, job.bridge).value.id, pc.ips, w');
    }
  }

  lemma AddPortTracks(env: Faults, job: Job, w0: World, pc: Pc, w: World, r: Reply, w': World)
    requires job.Add? && JobOk(job) && Inv(w.ifaces) && pc.AddPort? && PcInv(job, pc, w.ifaces)
    requires AddAt(env, job, w0, pc, w) && Answers(env, AddCall(job, pc), w, r, w')
    ensures AddAt(env, job, w0, ResumeAdd(job, pc, r), w')
  {
    var c := AddCall(job, pc);
    forall id | Creatable(w, c, id)
      ensures AddFrame(job, w0.ifaces, Create(w, c, id).ifaces) && PortAdded(job, w0.ifaces, Create(w, c, id).ifaces)
    {
      FramePort(job, w0, w, pc.bid, id, c.sock);
    }
  }

  lemma AddGatewayTracks(env: Faults, job: Job, w0: World, pc: Pc, w: World, r: Reply, w': World)
    requires job.Add? && JobOk(job) && pc.AddGateway? && PcInv(job, pc, w.ifaces)
    requires AddAt(env, job, w0, pc, w) && Answers(env, AddAddr(pc.bid, pc.gw), w, r, w')
    ensures AddAt(env, job, w0, ResumeAdd(job, pc, r), w')
  {
    FrameAddr(job, w0, w, pc.bid, pc.gw);
  }

  lemma AddUndoTracks(env: Faults, job: Job, w0: World, pc: Pc, w: World, r: Reply, w': World)
    requires job.Add? && JobOk(job) && Inv(w.ifaces) && pc.AddUndo?
    requires AddAt(env, job, w0, pc, w) && Answers(env, DelIface(pc.pid), w, r, w')
    ensures AddAt(env, job, w0, ResumeAdd(job, pc, r), w')
  {
    FrameUndo(job, w0, w, pc.pid);
    assert Deletable(w, pc.pid);
  }

  lemma AddReleaseTracks(env: Faults, job: Job, w0: World, pc: Pc, w: World, r: Reply, w': World)
    requires job.Add? && pc.AddRelease?
    requires AddAt(env, job, w0, pc, w) && Answers(env, Release(job.att), w, r, w')
    ensures AddAt(env, job, w0, ResumeAdd(job, pc, r), w')
  {
    assert w'.ifaces == w.ifaces && w'.socks == w.socks;
  }

  lemma AddLocalTracks(env: Faults, job: Job, w0: World, pc: Pc, w: World, r: Reply)
    requires job.Add? && (pc.AddDir? || pc.AddMove? || pc.AddConfigure?) && AddAt(env, job, w0, pc, w)
    ensures AddAt(env, job, w0, ResumeAdd(job, pc, r), w)
  {
  }

  lemma AddRestTracks(env: Faults, job: Job, w0: World, pc: Pc, w: World, r: Reply, w': World)
    requires job.Add? && JobOk(job) && Inv(w.ifaces) && AddPc(pc) && PcInv(job, pc, w.ifaces)
    requires pc.AddGateway? || pc.AddDir? || pc.AddMove? || pc.AddConfigure? || pc.AddUndo? || pc.AddRelease?
    requires AddAt(env, job, w0, pc, w) && Answers(env, AddCall(job, pc), w, r, w')
    ensures AddAt(env, job, w0, ResumeAdd(job, pc, r), w')
  {
    if pc.AddGateway? {
      AddGatewayTracks(env, job, w0, pc, w, r, w');
    } else if pc.AddUndo? {
      AddUndoTracks(env, job, w0, pc, w, r, w');
    } else if pc.AddRelease? {
      AddReleaseTracks(env, job, w0, pc, w, r, w');
    } else {
      AddLocalTracks(env, job, w0, pc, w, r);
    }
  }

  lemma {:induction false} AddTracks(env: Faults, job: Job, w0: World, evs: seq<Event>)
    requires job.Add? && JobOk(job) && Inv(w0.ifaces) && Legal(env, job, w0, evs)
    ensures AddAt(env, job, w0, PcAfter(job, evs), WorldAfter(w0, evs))
  {
    if evs != [] {
      var init := evs[..|evs| - 1];
      AddTracks(env, job, w0, init);
      RunSafe(env, job, w0, init);
      var pc, w, e := PcAfter(job, init), WorldAfter(w0, init), evs[|evs| - 1];
      if pc.AddPort? {
        AddPortTracks(env, job, w0, pc, w, e.reply, e.after);
      } else if pc.AddAlloc? || pc.AddConvert? || pc.AddFind? || pc.AddMake? || pc.AddRefind? {
        AddEnsureTracks(env, job, w0, pc, w, e.reply, e.after);
      } else {
        AddRestTracks(env, job, w0, pc, w, e.reply, e.after);
      }
    }
  }

  // ---------- the IPAM result ----------

  /** IPAM has answered with a result that could be converted. */
  predicate Converted(evs: seq<Event>) {
    |evs| >= 2 && evs[0].reply.Allocated? && evs[1].reply.Ack?
  }

  /** The result makes gatewaysFor panic, should ADD get that far. */
  ghost predicate Panics(evs: seq<Event>) {
    Converted(evs) && GatewaysFor(evs[0].reply.ips).None?
  }

  /** Beyond convertResult, ADD gives up where the IPAM result lets it. */
  ghost predicate StageAfter(ips: Entries, stage: Stage) {
    if stage.EnsureBridge? then true
    else if stage.GatewayPanic? then GatewaysFor(ips).None?
    else !stage.IpamAdd? && !stage.Convert? && GatewaysFor(ips).Some?
  }

  ghost predicate PcWith(ips: Entries, pc: Pc) {
    if pc.AddFind? || pc.AddMake? || pc.AddRefind? then pc.ips == ips
    else if pc.AddUndo? then GatewaysFor(ips).Some? && Undoes(pc.stage)
    else if pc.AddRelease? then StageAfter(ips, pc.stage)
    else if pc.Done? && pc.r.Err? then StageAfter(ips, pc.r.stage)
    else !pc.AddAlloc? && !pc.AddConvert? && GatewaysFor(ips).Some?
  }

  /** Where ADD stands, by IPAM's answer and its conversion. */
  ghost predicate OpenedAt(evs: seq<Event>, pc: Pc) {
    if evs == [] then pc.AddAlloc?
    else if !evs[0].reply.Allocated? then pc == Done(Err(IpamAdd))
    else if |evs| == 1 then pc == AddConvert(evs[0].reply.ips)
    else if !evs[1].reply.Ack? then pc == Done(Err(Convert))
    else PcWith(evs[0].reply.ips, pc)
  }

  lemma BridgedWith(job: Job, bid: Id, ips: Entries)
    requires job.Add?
    ensures PcWith(ips, AddBridged(job, bid, ips))
  {
  }

  lemma WithStep(job: Job, ips: Entries, pc: Pc, r: Reply)
    requires job.Add? && AddPc(pc) && PcWith(ips, pc)
    ensures PcWith(ips, ResumeAdd(job, pc, r))
  {
    if pc.AddFind? && r.Listed? && FindBridge(r.l, job.bridge).Some? {
      BridgedWith(job, FindBridge(r.l, job.bridge).value, ips);
    } else if pc.AddMake? && r.Created? {
      BridgedWith(job, r.id, ips);
    } else if pc.AddRefind? && r.Listed? && FindNamed(r.l, job.bridge).Some? {
      BridgedWith(job, FindNamed(r.l, job.bridge).value.id, ips);
    }
  }

  lemma {:induction false} OpeningRun(env: Faults, job: Job, w0: World, evs: seq<Event>)
    requires job.Add? && Legal(env, job, w0, evs)
    ensures OpenedAt(evs, PcAfter(job, evs))
  {
    if evs != [] {
      var init, e := evs[..|evs| - 1], evs[|evs| - 1];
      OpeningRun(env, job, w0, init);
      if |evs| > 2 {
        assert init[0] == evs[0] && init[1] == evs[1];
        WithStep(job, evs[0].reply.ips, PcAfter(job, init), e.reply);
      } else if |evs| == 2 {
        assert init[0] == evs[0] && e == evs[1];
      } else {
        assert init == [] && e == evs[0];
      }
    }
  }

  // ---------- addresses ----------

  function ToSet(s: seq<IPNet>): set<IPNet> {
    set x | x in s
  }

  function GatewaySet(ips: Entries): set<IPNet> {
    if GatewaysFor(ips).Some? then ToSet(GatewaysFor(ips).value) else {}
  }

  /** The gateways of the IPAM result; none before there is one. */
  function Offered(evs: seq<Event>): set<IPNet> {
    if evs != [] && evs[0].reply.Allocated? then GatewaySet(evs[0].reply.ips) else {}
  }

  /** The addresses an interface had before; none if it is new. */
  function AddrsBefore(t0: Table, b: Id): set<IPNet> {
    if b in t0 then t0[b].addrs else {}
  }

  /** No interface has an address it did not have, other than these. */
  ghost predicate OnlyNew(t0: Table, t: Table, gws: set<IPNet>) {
    forall i :: i in t ==> t[i].addrs <= AddrsBefore(t0, i) + gws
  }

  /** The addresses still to be assigned are gateways of the IPAM result. */
  ghost predicate Assigns(gws: set<IPNet>, pc: Pc) {
    if pc.AddAlloc? then gws == {}
    else if pc.AddConvert? || pc.AddFind? || pc.AddMake? || pc.AddRefind? then gws == GatewaySet(pc.ips)
    else if pc.AddGateway? then pc.gw in gws && ToSet(pc.more) <= gws
    else true
  }

  lemma AssignsNext(job: Job, gws: set<IPNet>, bid: Id, todo: seq<IPNet>)
    requires job.Add? && ToSet(todo) <= gws
    ensures Assigns(gws, AddNext(job, bid, todo))
  {
    if todo != [] {
      assert todo[0] in ToSet(todo);
      assert forall g :: g in ToSet(todo[1..]) ==> g in ToSet(todo);
    }
  }

  lemma AssignsBridged(job: Job, ips: Entries, bid: Id)
    requires job.Add?
    ensures Assigns(GatewaySet(ips), AddBridged(job, bid, ips))
  {
    if GatewaysFor(ips).Some? {
      AssignsNext(job, GatewaySet(ips), bid, GatewaysFor(ips).value);
    }
  }

  lemma AssignsStep(job: Job, gws: set<IPNet>, pc: Pc, r: Reply)
    requires job.Add? && AddPc(pc) && !pc.AddAlloc? && Assigns(gws, pc)
    ensures Assigns(gws, ResumeAdd(job, pc, r))
  {
    if pc.AddFind? {
      if r.Listed? && FindBridge(r.l, job.bridge).Some? {
        AssignsBridged(job, pc.ips, FindBridge(r.l, job.bridge).value);
      }
    } else if pc.AddMake? {
      if r.Created? {
        AssignsBridged(job, pc.ips, r.id);
      }
    } else if pc.AddRefind? {
      if r.Listed? && FindNamed(r.l, job.bridge).Some? {
        AssignsBridged(job, pc.ips, FindNamed(r.l, job.bridge).value.id);
      }
    } else if pc.AddGateway? {
      AssignsNext(job, gws, pc.bid, pc.more);
    }
  }

  lemma OnlyNewStep(env: Faults, job: Job, t0: Table, gws: set<IPNet>, pc: Pc, w: World, r: Reply, w': World)
    requires job.Add? && AddPc(pc) && Assigns(gws, pc) && OnlyNew(t0, w.ifaces, gws)
    requires Answers(env, AddCall(job, pc), w, r, w')
    ensures OnlyNew(t0, w'.ifaces, gws)
  {
    forall i | i in w'.ifaces
      ensures w'.ifaces[i].addrs <= AddrsBefore(t0, i) + gws
    {
      if i in w.ifaces {
        assert w'.ifaces[i].addrs <= w.ifaces[i].addrs + (if pc.AddGateway? then {pc.gw} else {});
      } else {
        assert w'.ifaces[i].addrs == {};
      }
    }
  }

  lemma NeverAllocAgain(env: Faults, job: Job, w0: World, evs: seq<Event>)
    requires job.Add? && Legal(env, job, w0, evs) && evs != []
    ensures !PcAfter(job, evs).AddAlloc?
  {
    OpeningRun(env, job, w0, evs);
  }

  lemma {:induction false} AddrsRun(env: Faults, job: Job, w0: World, evs: seq<Event>)
    requires job.Add? && Legal(env, job, w0, evs)
    ensures OnlyNew(w0.ifaces, WorldAfter(w0, evs).ifaces, Offered(evs)) && Assigns(Offered(evs), PcAfter(job, evs))
  {
    if evs != [] {
      var init, e := evs[..|evs| - 1], evs[|evs| - 1];
      var pc, w := PcAfter(job, init), WorldAfter(w0, init);
      AddrsRun(env, job, w0, init);
      if init == [] {
        assert e.after.ifaces == w0.ifaces;
      } else {
        NeverAllocAgain(env, job, w0, init);
        assert init[0] == evs[0];
        OnlyNewStep(env, job, w0.ifaces, Offered(evs), pc, w, e.reply, e.after);
        AssignsStep(job, Offered(evs), pc, e.reply);
      }
    }
  }

  // ---------- rollback ----------

  /** The answer to the rollback's delete, once it has been given. */
  function UndoReply(job: Job, evs: seq<Event>): Option<Reply> {
    var pc := PcAfter(job, evs);
    if pc.AddRelease? && Undoes(pc.stage) && |evs| >= 1 then Some(evs[|evs| - 1].reply)
    else if pc.Done? && pc.r.Err? && Undoes(pc.r.stage) && |evs| >= 2 then Some(evs[|evs| - 2].reply)
    else None
  }

  /** After an answered rollback: a successful delete has removed the port, a failed one has left it,
      unless only the reply was lost. */
  ghost predicate RolledBack(env: Faults, undo: Option<Reply>, added: bool) {
    undo.Some? ==> (added ==> undo.value.Failed?) && (undo.value.Failed? && !env.Lossy? ==> added)
  }

  lemma UndoStep(env: Faults, job: Job, w0: World, pc: Pc, w: World, r: Reply, w': World)
    requires job.Add? && JobOk(job) && Inv(w.ifaces) && pc.AddUndo? && AddAt(env, job, w0, pc, w)
    requires Answers(env, DelIface(pc.pid), w, r, w')
    ensures RolledBack(env, Some(r), PortAdded(job, w0.ifaces, w'.ifaces))
  {
    FrameUndo(job, w0, w, pc.pid);
    assert PortAdded(job, w0.ifaces, w.ifaces);
  }

  /** Only the rollback leads to the release that reports a failed pod side. */
  lemma FromUndo(job: Job, pc: Pc, r: Reply)
    requires job.Add? && AddPc(pc) && ResumeAdd(job, pc, r).AddRelease? && Undoes(ResumeAdd(job, pc, r).stage)
    ensures pc.AddUndo?
  {
  }

  lemma FromRelease(job: Job, pc: Pc, r: Reply)
    requires job.Add? && AddPc(pc) && ResumeAdd(job, pc, r).Done? && ResumeAdd(job, pc, r).r.Err?
    requires Undoes(ResumeAdd(job, pc, r).r.stage)
    ensures pc == AddRelease(ResumeAdd(job, pc, r).r.stage)
  {
  }

  lemma ReleaseRun(env: Faults, job: Job, w0: World, evs: seq<Event>)
    requires job.Add? && JobOk(job) && Inv(w0.ifaces) && Legal(env, job, w0, evs)
    requires PcAfter(job, evs).AddRelease? && Undoes(PcAfter(job, evs).stage)
    ensures evs != [] && RolledBack(env, Some(evs[|evs| - 1].reply), PortAdded(job, w0.ifaces, WorldAfter(w0, evs).ifaces))
  {
    var init, e := evs[..|evs| - 1], evs[|evs| - 1];
    var pc, w := PcAfter(job, init), WorldAfter(w0, init);
    FromUndo(job, pc, e.reply);
    AddTracks(env, job, w0, init);
    RunSafe(env, job, w0, init);
    UndoStep(env, job, w0, pc, w, e.reply, e.after);
  }

  lemma RollbackRun(env: Faults, job: Job, w0: World, evs: seq<Event>)
    requires job.Add? && JobOk(job) && Inv(w0.ifaces) && Legal(env, job, w0, evs)
    ensures RolledBack(env, UndoReply(job, evs), PortAdded(job, w0.ifaces, WorldAfter(w0, evs).ifaces))
    ensures PcAfter(job, evs).Done? && PcAfter(job, evs).r.Err? && Undoes(PcAfter(job, evs).r.stage) ==> UndoReply(job, evs).Some?
  {
    var pc := PcAfter(job, evs);
    if pc.AddRelease? && Undoes(pc.stage) {
      ReleaseRun(env, job, w0, evs);
    } else if pc.Done? && pc.r.Err? && Undoes(pc.r.stage) {
      var init := evs[..|evs| - 1];
      FromRelease(job, PcAfter(job, init), evs[|evs| - 1].reply);
      ReleaseRun(env, job, w0, init);
      assert init[|init| - 1] == evs[|evs| - 2];
      assert WorldAfter(w0, evs).ifaces == WorldAfter(w0, init).ifaces;
    }
  }

  /** ADD at every point of every run, whatever fails: nothing that was there is gone or altered beyond
      addresses on the bridge; every new address is a gateway of the IPAM result; what is new is the
      bridge and the port, and the port stays after a rollback only if its delete was answered with an
      error. */
  lemma AddRun(env: Faults, job: Job, w0: World, evs: seq<Event>)
    requires job.Add? && JobOk(job) && Inv(w0.ifaces) && Legal(env, job, w0, evs)
    ensures AddAt(env, job, w0, PcAfter(job, evs), WorldAfter(w0, evs))
    ensures OnlyNew(w0.ifaces, WorldAfter(w0, evs).ifaces, Offered(evs))
    ensures RolledBack(env, UndoReply(job, evs), PortAdded(job, w0.ifaces, WorldAfter(w0, evs).ifaces))
  {
    AddTracks(env, job, w0, evs);
    AddrsRun(env, job, w0, evs);
    RollbackRun(env, job, w0, evs);
  }
}
