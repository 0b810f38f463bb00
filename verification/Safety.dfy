/** What every step of every handler keeps, whatever fails and wherever it is cut short. */
module Safety {
  import opened Base
  import opened PortNames
  import opened Grout
  import opened Machine

  ghost predicate Memberless(t: Table, id: Id) {
    forall j :: j in t ==> t[j].domain != id
  }

  ghost predicate UniqueNames(t: Table) {
    forall i, j :: i in t && j in t && t[i].name == t[j].name ==> i == j
  }

  /** Every domain names a live interface. */
  ghost predicate NoDangling(t: Table) {
    forall i :: i in t ==> t[i].domain == 0 || t[i].domain in t
  }

  /** The table invariant. `Tidy` and `Bare` speak about interfaces that were there before
      the plugin: nobody else uses the grk- prefix for members of a domain, and nobody puts
      addresses on a port. */
  ghost predicate Inv(t: Table) {
    && 0 !in t
    && UniqueNames(t)
    && NoDangling(t)
    && Tidy(t)
    && Leaves(t)
    && Bare(t)
  }

  ghost predicate Tidy(t: Table) {
    forall i :: i in t && HasPrefix(t[i].name, PORT_PREFIX) && t[i].domain != 0 ==> PortShaped(t[i].name)
  }

  /** No port is the domain of another interface. */
  ghost predicate Leaves(t: Table) {
    forall i :: i in t && PortShaped(t[i].name) ==> Memberless(t, i)
  }

  ghost predicate Bare(t: Table) {
    forall i :: i in t && PortShaped(t[i].name) ==> t[i].addrs == {}
  }

  /** ADD is never configured with a bridge that has the shape of a port name. */
  predicate JobOk(job: Job) {
    match job
    case Add(_, port, bridge, _, _, _, _) => PortShaped(port) && !PortShaped(bridge)
    case Del(_, port, _) => PortShaped(port)
    case _ => true
  }

  /** What a handler may rely on at each point, as long as it holds the lock. */
  ghost predicate PcInv(job: Job, pc: Pc, t: Table)
    requires Belongs(job, pc)
  {
    if pc.AddGateway? || pc.AddDir? || pc.AddPort? then pc.bid in t && t[pc.bid].name == job.bridge
    else if pc.AddMove? || pc.AddConfigure? || pc.AddUndo? then pc.pid in t && t[pc.pid].name == job.port
    else if pc.DelPort? then InTable(pc.target, t) && pc.target.name == job.port
    else if pc.SweepFlush? || pc.SweepDrop? then pc.bid in t && Memberless(t, pc.bid)
    else if pc.GcReap? then pc.bid != 0 && Pending([pc.head] + pc.rest, pc.bid, job.valid, t)
    else if pc.GcSock? then pc.bid != 0 && Pending(pc.rest, pc.bid, job.valid, t)
    else true
  }

  /** What is left of GC's old listing is still true of the table. */
  ghost predicate Pending(todo: seq<Info>, bid: Id, valid: set<bytes>, t: Table) {
    DistinctIds(todo) && forall x :: x in todo ==> InTable(x, t) && Stale(x, bid, valid)
  }

  /** One step deletes nothing that is a domain and alters nothing but addresses. */
  ghost predicate Gentle(t: Table, t': Table) {
    && (forall i :: i in t && i !in t' ==> Memberless(t, i))
    && (forall i :: i in t && i in t' ==> t'[i] == t[i].(addrs := t'[i].addrs))
  }

  // ---------- changes to the table ----------

  lemma InvCreate(w: World, c: Call, id: Id)
    requires Inv(w.ifaces) && c.AddIface? && Creatable(w, c, id)
    requires c.domain != 0 ==> c.domain in w.ifaces && !PortShaped(w.ifaces[c.domain].name) && PortShaped(c.name)
    ensures Inv(Create(w, c, id).ifaces) && Gentle(w.ifaces, Create(w, c, id).ifaces)
  {
  }

  lemma InvDrop(w: World, id: Id)
    requires Inv(w.ifaces) && Memberless(w.ifaces, id)
    ensures Inv(Drop(w, id).ifaces) && Gentle(w.ifaces, Drop(w, id).ifaces)
  {
  }

  lemma InvAddrs(w: World, id: Id, addrs: set<IPNet>)
    requires Inv(w.ifaces) && id in w.ifaces
    requires PortShaped(w.ifaces[id].name) ==> addrs == {}
    ensures Inv(SetAddrs(w, id, addrs).ifaces) && Gentle(w.ifaces, SetAddrs(w, id, addrs).ifaces)
  {
  }

  // ---------- one step ----------

  /** Everything one answered call of one handler guarantees. */
  ghost predicate SafeStep(job: Job, w: World, w': World, next: Pc)
  {
    Inv(w'.ifaces) && Gentle(w.ifaces, w'.ifaces) && Belongs(job, next) && PcInv(job, next, w'.ifaces)
  }

  lemma AddIfaceStep(env: Faults, job: Job, pc: Pc, w: World, r: Reply, w': World)
    requires job.Add? && (pc.AddMake? || pc.AddPort?) && JobOk(job)
    requires Inv(w.ifaces) && PcInv(job, pc, w.ifaces) && Answers(env, AddCall(job, pc), w, r, w')
    ensures SafeStep(job, w, w', ResumeAdd(job, pc, r))
  {
    var c := AddCall(job, pc);
    forall id | Creatable(w, c, id)
      ensures Inv(Create(w, c, id).ifaces) && Gentle(w.ifaces, Create(w, c, id).ifaces)
    {
      InvCreate(w, c, id);
    }
  }

  lemma AddListStep(env: Faults, job: Job, pc: Pc, w: World, r: Reply, w': World)
    requires job.Add? && (pc.AddFind? || pc.AddRefind?)
    requires Inv(w.ifaces) && Answers(env, List, w, r, w')
    ensures SafeStep(job, w, w', ResumeAdd(job, pc, r))
  {
  }

  lemma AddStep(env: Faults, job: Job, pc: Pc, w: World, r: Reply, w': World)
    requires job.Add? && AddPc(pc) && JobOk(job)
    requires Inv(w.ifaces) && PcInv(job, pc, w.ifaces) && Answers(env, AddCall(job, pc), w, r, w')
    ensures SafeStep(job, w, w', ResumeAdd(job, pc, r))
  {
    if pc.AddMake? || pc.AddPort? {
      AddIfaceStep(env, job, pc, w, r, w');
    } else if pc.AddFind? || pc.AddRefind? {
      AddListStep(env, job, pc, w, r, w');
    } else if pc.AddGateway? {
      InvAddrs(w, pc.bid, w.ifaces[pc.bid].addrs + {pc.gw});
    } else if pc.AddUndo? {
      InvDrop(w, pc.pid);
    } else {
      assert w'.ifaces == w.ifaces;
    }
  }

  lemma DelStep(env: Faults, job: Job, pc: Pc, w: World, r: Reply, w': World)
    requires job.Del? && DelPc(pc) && JobOk(job)
    requires Inv(w.ifaces) && PcInv(job, pc, w.ifaces) && Answers(env, DelCall(job, pc), w, r, w')
    ensures SafeStep(job, w, w', ResumeDel(job, pc, r))
  {
    if pc.DelPort? {
      InvDrop(w, pc.target.id);
    }
  }

  lemma FlushStep(env: Faults, bid: Id, w: World, r: Reply, w': World)
    requires Inv(w.ifaces) && bid in w.ifaces && Memberless(w.ifaces, bid) && Answers(env, Flush(bid), w, r, w')
    ensures Inv(w'.ifaces) && Gentle(w.ifaces, w'.ifaces) && bid in w'.ifaces && Memberless(w'.ifaces, bid)
  {
    var kept :| kept <= w.ifaces[bid].addrs && w' == SetAddrs(w, bid, kept);
    InvAddrs(w, bid, kept);
  }

  lemma SweepStep(env: Faults, job: Job, pc: Pc, w: World, r: Reply, w': World)
    requires (job.Del? || job.Gc?) && SweepPc(pc)
    requires Inv(w.ifaces) && PcInv(job, pc, w.ifaces) && Answers(env, SweepCall(pc), w, r, w')
    ensures SafeStep(job, w, w', ResumeSweep(job, pc, r))
  {
    match pc {
      case Sweep(bid) =>
        if r.Listed? {
          SweepSees(r.l, w.ifaces, bid);
        }
      case SweepFlush(bid) => FlushStep(env, bid, w, r, w');
      case SweepDrop(bid) => InvDrop(w, bid);
    }
  }

  /** gcBridgeIfEmpty deletes exactly a live, memberless bridge. */
  lemma SweepSees(l: seq<Info>, t: Table, bid: Id)
    requires IsListing(l, t)
    ensures SweepScan(l, bid, false) <==> bid in t && t[bid].kind == KIND_BRIDGE && Memberless(t, bid)
  {
    SweepScanMeans(l, bid, false);
    if bid in t && t[bid].kind == KIND_BRIDGE && Memberless(t, bid) {
      assert InfoOf(bid, t[bid]) in l;
    }
    if SweepScan(l, bid, false) {
      forall j | j in t
        ensures t[j].domain != bid
      {
        assert InfoOf(j, t[j]) in l;
      }
    }
  }

  lemma GcStep(env: Faults, job: Job, pc: Pc, w: World, r: Reply, w': World)
    requires job.Gc? && GcPc(pc)
    requires Inv(w.ifaces) && PcInv(job, pc, w.ifaces) && Answers(env, GcCall(job, pc), w, r, w')
    ensures SafeStep(job, w, w', ResumeGc(job, pc, r))
  {
    match pc {
      case GcFind =>
        if r.Listed? {
          var b := FindBridge(r.l, job.bridge);
          if b.Some? {
            StaleOfMeans(r.l, b.value, job.valid);
            PendingNext(StaleOf(r.l, b.value, job.valid), b.value, job, w.ifaces, false);
          }
        }
      case GcReap(bid, x, rest, reaped) =>
        assert x in [x] + rest;
        InvDrop(w, x.id);
        PendingTail(x, rest, bid, job.valid, w.ifaces, w'.ifaces);
        PendingNext(rest, bid, job, w'.ifaces, reaped);
      case GcSock(bid, _, rest) =>
        PendingNext(rest, bid, job, w'.ifaces, true);
      case GcIpam =>
    }
  }

  lemma PendingTail(x: Info, rest: seq<Info>, bid: Id, valid: set<bytes>, t: Table, t': Table)
    requires Pending([x] + rest, bid, valid, t)
    requires t' == t || t' == t - {x.id}
    ensures Pending(rest, bid, valid, t')
  {
    DistinctTail(x, rest);
    forall y | y in rest
      ensures InTable(y, t') && Stale(y, bid, valid)
    {
      assert y in [x] + rest && y.id != x.id;
    }
  }

  lemma DistinctTail(x: Info, rest: seq<Info>)
    requires DistinctIds([x] + rest)
    ensures DistinctIds(rest) && forall y :: y in rest ==> y.id != x.id
  {
    var todo := [x] + rest;
    forall i | 0 <= i < |rest|
      ensures rest[i].id != x.id && forall j :: i < j < |rest| ==> rest[i].id != rest[j].id
    {
      assert todo[0] == x && todo[i + 1] == rest[i];
      assert forall j :: i < j < |rest| ==> todo[j + 1] == rest[j];
    }
  }

  lemma PendingNext(todo: seq<Info>, bid: Id, job: Job, t: Table, reaped: bool)
    requires job.Gc? && bid != 0 && Pending(todo, bid, job.valid, t)
    ensures PcInv(job, GcNext(bid, todo, reaped), t)
  {
    if todo != [] {
      assert [todo[0]] + todo[1..] == todo;
    }
  }

  lemma CheckStep(env: Faults, job: Job, pc: Pc, w: World, r: Reply, w': World)
    requires job.Check? && CheckPc(pc)
    requires Inv(w.ifaces) && Answers(env, CheckCall(job, pc), w, r, w')
    ensures SafeStep(job, w, w', ResumeCheck(job, pc, r))
  {
    assert w' == w;
  }

  /** Every answered call of every handler keeps the table sound and deletes no domain in use. */
  lemma StepSafe(env: Faults, job: Job, pc: Pc, w: World, r: Reply, w': World)
    requires Belongs(job, pc) && !pc.Done? && JobOk(job)
    requires Inv(w.ifaces) && PcInv(job, pc, w.ifaces) && Answers(env, CallOf(job, pc), w, r, w')
    ensures SafeStep(job, w, w', Resume(job, pc, r))
  {
    if SweepPc(pc) {
      SweepStep(env, job, pc, w, r, w');
    } else {
      match job {
        case Add(_, _, _, _, _, _, _) => AddStep(env, job, pc, w, r, w');
        case Del(_, _, _) => DelStep(env, job, pc, w, r, w');
        case Check(_, _, _, _, _) => CheckStep(env, job, pc, w, r, w');
        case Gc(_, _, _, _) => GcStep(env, job, pc, w, r, w');
      }
    }
  }

  /** The same over a whole run, cut short anywhere. */
  lemma {:induction false} RunSafe(env: Faults, job: Job, w0: World, evs: seq<Event>)
    requires Legal(env, job, w0, evs) && JobOk(job) && Inv(w0.ifaces)
    ensures Inv(WorldAfter(w0, evs).ifaces)
    ensures PcInv(job, PcAfter(job, evs), WorldAfter(w0, evs).ifaces)
  {
    if evs != [] {
      var init := evs[..|evs| - 1];
      RunSafe(env, job, w0, init);
      StepSafe(env, job, PcAfter(job, init), WorldAfter(w0, init), evs[|evs| - 1].reply, evs[|evs| - 1].after);
    }
  }
}
