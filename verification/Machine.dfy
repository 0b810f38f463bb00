/** The CNI handlers of pkg/cni/handler.go as machines that make one external call at a
    time, between Lock and Unlock. A run is the list of answers a handler has received so
    far; cutting a run short is a crash. */
module Machine {
  import opened Base
  import opened PortNames
  import opened Gateways
  import opened Grout

  /** What one CNI invocation was asked to do, with the port name already derived. */
  datatype Job =
    | Add(att: Attachment, port: bytes, bridge: bytes, mtu: Id, virtio: bool, netns: bytes, dir: bytes)
    | Del(att: Attachment, port: bytes, dir: bytes)
    | Check(att: Attachment, port: bytes, virtio: bool, netns: bytes, dir: bytes)
    | Gc(bridge: bytes, valid: set<bytes>, keep: set<Attachment>, dir: bytes)

  /** Where a handler gave up. */
  datatype Stage =
    | IpamAdd | Convert | EnsureBridge | GatewayPanic | GatewayAdd | SockDir | PortAdd | MoveLink | Configure
    | Listing | PortMissing | SockMissing | PrevResult | Verify

  datatype Result = Ok | Err(stage: Stage)

  /** The point a handler has reached: the external call it makes next. */
  datatype Pc =
    | AddAlloc
    | AddConvert(ips: Entries)
    | AddFind(ips: Entries)
    | AddMake(ips: Entries)
    | AddRefind(ips: Entries)
    | AddGateway(bid: Id, gw: IPNet, more: seq<IPNet>)
    | AddDir(bid: Id)
    | AddPort(bid: Id)
    | AddMove(pid: Id)
    | AddConfigure(pid: Id)
    | AddUndo(pid: Id, stage: Stage)
    | AddRelease(stage: Stage)
    | DelFind
    | DelPort(target: Info)
    | DelSock(target: Info)
    | DelRelease
    | Sweep(bid: Id)
    | SweepFlush(bid: Id)
    | SweepDrop(bid: Id)
    | CheckFind
    | CheckSock
    | CheckPrev
    | CheckPod
    | GcFind
    | GcReap(bid: Id, head: Info, rest: seq<Info>, reaped: bool)
    | GcSock(bid: Id, name: bytes, rest: seq<Info>)
    | GcIpam
    | Done(r: Result)

  /** "/vhost" and ".sock" */
  const VHOST: bytes := [0x2f, 0x76, 0x68, 0x6f, 0x73, 0x74]
  const SOCK_EXT: bytes := [0x2e, 0x73, 0x6f, 0x63, 0x6b]

  /** Where the sockets are. */
  function VhostDir(dir: bytes): bytes {
    dir + VHOST
  }

  /** vhostSocketPath, given the directory that holds grout's control socket. */
  function SockPath(dir: bytes, name: bytes): bytes {
    VhostDir(dir) + [0x2f] + name + SOCK_EXT
  }

  /** "<dir>/vhost/<name>.sock" */
  lemma SockPathRead(dir: bytes, name: bytes)
    ensures var p, n := SockPath(dir, name), |dir|;
            && |p| == n + 12 + |name| && p[..n] == dir
            && p[n..n + 7] == [0x2f, 0x76, 0x68, 0x6f, 0x73, 0x74, 0x2f]
            && p[n + 7..n + 7 + |name|] == name
            && p[n + 7 + |name|..] == [0x2e, 0x73, 0x6f, 0x63, 0x6b]
    ensures VhostDir(dir) == SockPath(dir, name)[..|dir| + 6]
  {
  }

  function Start(job: Job): Pc {
    match job
    case Add(_, _, _, _, _, _, _) => AddAlloc
    case Del(_, _, _) => DelFind
    case Check(_, _, _, _, _) => CheckFind
    case Gc(_, _, _, _) => GcFind
  }

  // ---------- decisions between calls ----------

  /** The gateway loop of ADD, then the port itself. */
  function AddNext(job: Job, bid: Id, gws: seq<IPNet>): Pc
    requires job.Add?
  {
    if gws != [] then AddGateway(bid, gws[0], gws[1..])
    else if job.virtio then AddDir(bid)
    else AddPort(bid)
  }

  /** ensureBridge has produced an id; gatewaysFor runs before the first address is added. */
  function AddBridged(job: Job, bid: Id, ips: Entries): Pc
    requires job.Add?
  {
    match GatewaysFor(ips)
    case None => Done(Err(GatewayPanic))
    case Some(gws) => AddNext(job, bid, gws)
  }

  /** The scan of gcBridgeIfEmpty: true when the bridge is to be deleted. */
  function SweepScan(l: seq<Info>, bid: Id, found: bool): bool {
    if l == [] then found
    else if l[0].id == bid && l[0].kind != KIND_BRIDGE then false
    else if l[0].domain == bid then false
    else SweepScan(l[1..], bid, found || l[0].id == bid)
  }

  lemma {:induction false} SweepScanMeans(l: seq<Info>, bid: Id, found: bool)
    ensures SweepScan(l, bid, found) <==>
              && (found || exists x :: x in l && x.id == bid)
              && (forall x :: x in l ==> x.domain != bid && (x.id == bid ==> x.kind == KIND_BRIDGE))
  {
    if l != [] {
      assert forall x :: x in l <==> x == l[0] || x in l[1..];
      SweepScanMeans(l[1..], bid, found || l[0].id == bid);
    }
  }

  /** What gcBridgeIfEmpty returns to. */
  function Swept(job: Job): Pc {
    if job.Del? then DelRelease else GcIpam
  }

  predicate Stale(x: Info, bid: Id, valid: set<bytes>) {
    x.domain == bid && HasPrefix(x.name, PORT_PREFIX) && x.name !in valid
  }

  /** The interfaces the GC loop will try to delete, in listing order. */
  function StaleOf(l: seq<Info>, bid: Id, valid: set<bytes>): seq<Info> {
    if l == [] then []
    else if Stale(l[0], bid, valid) then [l[0]] + StaleOf(l[1..], bid, valid)
    else StaleOf(l[1..], bid, valid)
  }

  lemma {:induction false} StaleOfMeans(l: seq<Info>, bid: Id, valid: set<bytes>)
    ensures forall x :: x in StaleOf(l, bid, valid) <==> x in l && Stale(x, bid, valid)
    ensures DistinctIds(l) ==> DistinctIds(StaleOf(l, bid, valid))
  {
    if l != [] {
      StaleOfMeans(l[1..], bid, valid);
      assert forall x :: x in l <==> x == l[0] || x in l[1..];
      assert DistinctIds(l) ==> forall x :: x in l[1..] ==> x.id != l[0].id;
    }
  }

  function GcNext(bid: Id, todo: seq<Info>, reaped: bool): Pc {
    if todo != [] then GcReap(bid, todo[0], todo[1..], reaped)
    else if reaped then Sweep(bid)
    else GcIpam
  }

  // ---------- the machine ----------

  predicate AddPc(pc: Pc) {
    || pc.AddAlloc? || pc.AddConvert? || pc.AddFind? || pc.AddMake? || pc.AddRefind? || pc.AddGateway?
    || pc.AddDir? || pc.AddPort? || pc.AddMove? || pc.AddConfigure? || pc.AddUndo? || pc.AddRelease?
  }

  predicate SweepPc(pc: Pc) {
    pc.Sweep? || pc.SweepFlush? || pc.SweepDrop?
  }

  predicate DelPc(pc: Pc) {
    pc.DelFind? || pc.DelPort? || pc.DelSock? || pc.DelRelease?
  }

  predicate CheckPc(pc: Pc) {
    pc.CheckFind? || pc.CheckSock? || pc.CheckPrev? || pc.CheckPod?
  }

  predicate GcPc(pc: Pc) {
    pc.GcFind? || pc.GcReap? || pc.GcSock? || pc.GcIpam?
  }

  /** A handler only ever visits its own program points. */
  predicate Belongs(job: Job, pc: Pc) {
    || pc.Done?
    || (job.Add? && AddPc(pc))
    || (job.Del? && (DelPc(pc) || SweepPc(pc)))
    || (job.Check? && CheckPc(pc))
    || (job.Gc? && (GcPc(pc) || SweepPc(pc)))
  }

  function AddCall(job: Job, pc: Pc): Call
    requires job.Add? && AddPc(pc)
  {
    match pc
    case AddAlloc => Allocate(job.att)
    case AddConvert(_) => ConvertResult
    case AddFind(_) => List
    case AddMake(_) => AddIface(job.bridge, KIND_BRIDGE, 0, 0, None)
    case AddRefind(_) => List
    case AddGateway(bid, gw, _) => AddAddr(bid, gw)
    case AddDir(_) => MakeDir(VhostDir(job.dir))
    case AddPort(bid) =>
      AddIface(job.port, KIND_PORT, bid, job.mtu, if job.virtio then Some(SockPath(job.dir, job.port)) else None)
    case AddMove(_) => MoveTap(job.port, job.netns)
    case AddConfigure(_) => SetUpPod(job.netns, job.port, job.att.ifName, job.mtu)
    case AddUndo(pid, _) => DelIface(pid)
    case AddRelease(_) => Release(job.att)
  }

  function DelCall(job: Job, pc: Pc): Call
    requires job.Del? && DelPc(pc)
  {
    if pc.DelFind? then List
    else if pc.DelPort? then DelIface(pc.target.id)
    else if pc.DelSock? then RemoveSock(SockPath(job.dir, job.port))
    else Release(job.att)
  }

  function SweepCall(pc: Pc): Call
    requires SweepPc(pc)
  {
    if pc.Sweep? then List else if pc.SweepFlush? then Flush(pc.bid) else DelIface(pc.bid)
  }

  function CheckCall(job: Job, pc: Pc): Call
    requires job.Check? && CheckPc(pc)
  {
    if pc.CheckFind? then List
    else if pc.CheckSock? then Stat(SockPath(job.dir, job.port))
    else if pc.CheckPrev? then ReadPrev
    else VerifyPod(job.netns, job.att.ifName)
  }

  function GcCall(job: Job, pc: Pc): Call
    requires job.Gc? && GcPc(pc)
  {
    if pc.GcFind? then List
    else if pc.GcReap? then DelIface(pc.head.id)
    else if pc.GcSock? then RemoveSock(SockPath(job.dir, pc.name))
    else Collect(job.keep)
  }

  /** The external call a handler makes at a program point. */
  function CallOf(job: Job, pc: Pc): Call
    requires Belongs(job, pc) && !pc.Done?
  {
    if SweepPc(pc) then SweepCall(pc)
    else match job
      case Add(_, _, _, _, _, _, _) => AddCall(job, pc)
      case Del(_, _, _) => DelCall(job, pc)
      case Check(_, _, _, _, _) => CheckCall(job, pc)
      case Gc(_, _, _, _) => GcCall(job, pc)
  }

  /** HandleAdd, with ensureBridge and cleanupAfterAddFailure inlined. */
  function ResumeAdd(job: Job, pc: Pc, r: Reply): (next: Pc)
    requires job.Add? && AddPc(pc)
    ensures next.Done? || (AddPc(next) && !next.AddAlloc?)
  {
    match pc
    case AddAlloc => if r.Allocated? then AddConvert(r.ips) else Done(Err(IpamAdd))
    case AddConvert(ips) => if r.Ack? then AddFind(ips) else Done(Err(Convert))
    case AddFind(ips) =>
      if r.Listed? then
        match FindBridge(r.l, job.bridge)
        case Some(bid) => AddBridged(job, bid, ips)
        case None => AddMake(ips)
      else AddRelease(EnsureBridge)
    case AddMake(ips) => if r.Created? then AddBridged(job, r.id, ips) else AddRefind(ips)
    case AddRefind(ips) =>
      if r.Listed? && FindNamed(r.l, job.bridge).Some?
      then AddBridged(job, FindNamed(r.l, job.bridge).value.id, ips)
      else AddRelease(EnsureBridge)
    case AddGateway(bid, _, more) => if r.Ack? then AddNext(job, bid, more) else AddRelease(GatewayAdd)
    case AddDir(bid) => if r.Ack? then AddPort(bid) else AddRelease(SockDir)
    case AddPort(_) =>
      if r.Created? then (if !job.virtio && job.netns != [] then AddMove(r.id) else Done(Ok))
      else AddRelease(PortAdd)
    case AddMove(pid) => if r.Ack? then AddConfigure(pid) else AddUndo(pid, MoveLink)
    case AddConfigure(pid) => if r.Ack? then Done(Ok) else AddUndo(pid, Configure)
    case AddUndo(_, stage) => AddRelease(stage)
    case AddRelease(stage) => Done(Err(stage))
  }

  /** HandleDel up to gcBridgeIfEmpty, and its last step. */
  function ResumeDel(job: Job, pc: Pc, r: Reply): (next: Pc)
    requires job.Del? && DelPc(pc)
    ensures next.Done? || DelPc(next) || SweepPc(next)
  {
    match pc
    case DelFind =>
      if r.Listed? then
        match FindNamed(r.l, job.port)
        case Some(x) => DelPort(x)
        case None => DelRelease
      else Done(Err(Listing))
    case DelPort(t) => DelSock(t)
    case DelSock(t) => if t.domain != 0 then Sweep(t.domain) else DelRelease
    case DelRelease => Done(Ok)
  }

  /** gcBridgeIfEmpty */
  function ResumeSweep(job: Job, pc: Pc, r: Reply): (next: Pc)
    requires (job.Del? || job.Gc?) && SweepPc(pc)
    ensures SweepPc(next) || next == Swept(job)
  {
    match pc
    case Sweep(bid) => if r.Listed? && SweepScan(r.l, bid, false) then SweepFlush(bid) else Swept(job)
    case SweepFlush(bid) => SweepDrop(bid)
    case SweepDrop(_) => Swept(job)
  }

  /** HandleCheck */
  function ResumeCheck(job: Job, pc: Pc, r: Reply): (next: Pc)
    requires job.Check? && CheckPc(pc)
    ensures next.Done? || CheckPc(next)
  {
    match pc
    case CheckFind =>
      if !r.Listed? then Done(Err(Listing))
      else if FindNamed(r.l, job.port).None? then Done(Err(PortMissing))
      else if job.virtio then CheckSock
      else if job.netns == [] then Done(Ok)
      else CheckPrev
    case CheckSock => if r == Present(true) then Done(Ok) else Done(Err(SockMissing))
    case CheckPrev => if r.Ack? then CheckPod else Done(Err(PrevResult))
    case CheckPod => if r.Ack? then Done(Ok) else Done(Err(Verify))
  }

  /** HandleGC; the list it walks was taken once, at the start. */
  function ResumeGc(job: Job, pc: Pc, r: Reply): (next: Pc)
    requires job.Gc? && GcPc(pc)
    ensures next.Done? || GcPc(next) || SweepPc(next)
  {
    match pc
    case GcFind =>
      if r.Listed? then
        match FindBridge(r.l, job.bridge)
        case Some(bid) => GcNext(bid, StaleOf(r.l, bid, job.valid), false)
        case None => GcIpam
      else Done(Err(Listing))
    case GcReap(bid, x, rest, reaped) => if r.Ack? then GcSock(bid, x.name, rest) else GcNext(bid, rest, reaped)
    case GcSock(bid, _, rest) => GcNext(bid, rest, true)
    case GcIpam => Done(Ok)
  }

  /** Where the handler goes once its call has been answered. */
  function Resume(job: Job, pc: Pc, r: Reply): (next: Pc)
    requires Belongs(job, pc) && !pc.Done?
    ensures Belongs(job, next)
  {
    if SweepPc(pc) then ResumeSweep(job, pc, r)
    else match job
      case Add(_, _, _, _, _, _, _) => ResumeAdd(job, pc, r)
      case Del(_, _, _) => ResumeDel(job, pc, r)
      case Check(_, _, _, _, _) => ResumeCheck(job, pc, r)
      case Gc(_, _, _, _) => ResumeGc(job, pc, r)
  }

  // ---------- runs ----------

  /** One answered call: the reply, and the world it left behind. */
  datatype Event = Event(reply: Reply, after: World)

  function WorldAfter(w0: World, evs: seq<Event>): World {
    if evs == [] then w0 else evs[|evs| - 1].after
  }

  /** The program point reached; a handler that is Done stays there. */
  function PcAfter(job: Job, evs: seq<Event>): (pc: Pc)
    ensures Belongs(job, pc)
  {
    if evs == [] then Start(job)
    else
      var pc := PcAfter(job, evs[..|evs| - 1]);
      if pc.Done? then pc else Resume(job, pc, evs[|evs| - 1].reply)
  }

  /** Every answer in the run is one the environment may give. */
  ghost predicate Legal(env: Faults, job: Job, w0: World, evs: seq<Event>) {
    evs == [] ||
    var init := evs[..|evs| - 1];
    var pc := PcAfter(job, init);
    && Legal(env, job, w0, init)
    && !pc.Done?
    && Answers(env, CallOf(job, pc), WorldAfter(w0, init), evs[|evs| - 1].reply, evs[|evs| - 1].after)
  }

  ghost predicate Complete(env: Faults, job: Job, w0: World, evs: seq<Event>) {
    Legal(env, job, w0, evs) && PcAfter(job, evs).Done?
  }

  /** A run grows by one answered call. */
  lemma Extend(env: Faults, job: Job, w0: World, evs: seq<Event>, e: Event)
    requires Legal(env, job, w0, evs) && !PcAfter(job, evs).Done?
    requires Answers(env, CallOf(job, PcAfter(job, evs)), WorldAfter(w0, evs), e.reply, e.after)
    ensures Legal(env, job, w0, evs + [e])
    ensures PcAfter(job, evs + [e]) == Resume(job, PcAfter(job, evs), e.reply)
    ensures WorldAfter(w0, evs + [e]) == e.after
  {
    assert (evs + [e])[..|evs + [e]| - 1] == evs;
  }

  /** The answers so far are a legal run from w0 that stands at pc in world w. */
  ghost predicate Stands(env: Faults, job: Job, w0: World, evs: seq<Event>, pc: Pc, w: World) {
    Legal(env, job, w0, evs) && PcAfter(job, evs) == pc && WorldAfter(w0, evs) == w
  }

  lemma Advance(env: Faults, job: Job, w0: World, evs: seq<Event>, pc: Pc, w: World, e: Event)
    requires Stands(env, job, w0, evs, pc, w) && Belongs(job, pc) && !pc.Done?
    requires Answers(env, CallOf(job, pc), w, e.reply, e.after)
    ensures Stands(env, job, w0, evs + [e], Resume(job, pc, e.reply), e.after)
  {
    Extend(env, job, w0, evs, e);
  }
}
