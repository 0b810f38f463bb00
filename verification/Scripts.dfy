/** What each handler calls, in which order and with which arguments, stated as scripts over the calls
    and their answers, apart from the machines that produce them. They hold whatever the answers are. */
module Scripts {
  import opened Base
  import opened Gateways
  import opened Grout
  import opened Machine

  datatype Step = Step(call: Call, reply: Reply)

  /** The calls of a run with their answers. */
  function Steps(job: Job, evs: seq<Event>): seq<Step> {
    if evs == [] then []
    else
      var init := evs[..|evs| - 1];
      var pc := PcAfter(job, init);
      if pc.Done? then Steps(job, init) else Steps(job, init) + [Step(CallOf(job, pc), evs[|evs| - 1].reply)]
  }

  lemma Snoc(s: seq<Step>, t: seq<Step>, x: Step)
    ensures s + t + [x] == s + (t + [x])
  {
  }

  /** The answers in these steps are those of the run. */
  predicate Replies(s: seq<Step>, evs: seq<Event>) {
    |s| == |evs| && forall k :: 0 <= k < |evs| ==> s[k].reply == evs[k].reply
  }

  lemma RepliesMore(s: seq<Step>, evs: seq<Event>, x: Step)
    requires evs != [] && Replies(s, evs[..|evs| - 1]) && x.reply == evs[|evs| - 1].reply
    ensures Replies(s + [x], evs)
  {
    assert forall k :: 0 <= k < |evs| - 1 ==> evs[..|evs| - 1][k] == evs[k];
  }

  lemma {:induction false} StepsAre(env: Faults, job: Job, w0: World, evs: seq<Event>)
    requires Legal(env, job, w0, evs)
    ensures Replies(Steps(job, evs), evs)
  {
    if evs != [] {
      var init := evs[..|evs| - 1];
      StepsAre(env, job, w0, init);
      RepliesMore(Steps(job, init), evs, Step(CallOf(job, PcAfter(job, init)), evs[|evs| - 1].reply));
    }
  }

  // ---------- ADD ----------

  /** IPAM has allocated `ips`, and its result was converted. */
  ghost predicate Opens(job: Job, ips: Entries, s: seq<Step>)
    requires job.Add?
  {
    && |s| == 2 && s[0].call == Allocate(job.att) && s[0].reply.Allocated? && s[0].reply.ips == ips
    && s[1] == Step(ConvertResult, Ack)
  }

  function MakeBridge(job: Job): Call
    requires job.Add?
  {
    AddIface(job.bridge, KIND_BRIDGE, 0, 0, None)
  }

  /** A listing without the bridge. */
  ghost predicate Misses(name: bytes, x: Step) {
    x.call == List && x.reply.Listed? && forall y :: y in x.reply.l ==> !IsBridge(y, name)
  }

  /** ensureBridge came out with b: listed, created, or found by its name after a refused create. */
  ghost predicate Finds(job: Job, s: seq<Step>, b: Id)
    requires job.Add?
  {
    || (&& |s| == 1 && s[0].call == List && s[0].reply.Listed?
        && FindBridge(s[0].reply.l, job.bridge) == Some(b))
    || (&& |s| == 2 && Misses(job.bridge, s[0]) && s[1] == Step(MakeBridge(job), Created(b)))
    || (&& |s| == 3 && Misses(job.bridge, s[0]) && s[1].call == MakeBridge(job) && !s[1].reply.Created?
        && s[2].call == List && s[2].reply.Listed?
        && FindNamed(s[2].reply.l, job.bridge).Some? && FindNamed(s[2].reply.l, job.bridge).value.id == b)
  }

  /** ensureBridge failed: no first listing, or no create and no interface of that name afterwards. */
  ghost predicate FindsNothing(job: Job, s: seq<Step>)
    requires job.Add?
  {
    || (|s| == 1 && s[0].call == List && !s[0].reply.Listed?)
    || (&& |s| == 3 && Misses(job.bridge, s[0]) && s[1].call == MakeBridge(job) && !s[1].reply.Created?
        && s[2].call == List
        && (s[2].reply.Listed? ==> forall y :: y in s[2].reply.l ==> y.name != job.bridge))
  }

  /** These addresses were added to b, one after the other. */
  function Assigned(b: Id, gws: seq<IPNet>): (s: seq<Step>)
    ensures |s| == |gws| && forall i :: 0 <= i < |gws| ==> s[i] == Step(AddAddr(b, gws[i]), Ack)
  {
    seq(|gws|, i requires 0 <= i < |gws| => Step(AddAddr(b, gws[i]), Ack))
  }

  /** The bridge b is there with the first `done` of the gateways; `todo` are the others. */
  ghost predicate Assigns(job: Job, b: Id, done: seq<IPNet>, todo: seq<IPNet>, s: seq<Step>)
    requires job.Add?
  {
    exists ips, o, part :: && Opens(job, ips, o) && Finds(job, part, b) && GatewaysFor(ips) == Some(done + todo)
                           && s == o + part + Assigned(b, done)
  }

  /** The bridge b is there with all gateways. */
  ghost predicate Bridged(job: Job, b: Id, s: seq<Step>)
    requires job.Add?
  {
    exists gws :: Assigns(job, b, gws, [], s)
  }

  function DirMade(job: Job): seq<Step>
    requires job.Add?
  {
    if job.virtio then [Step(MakeDir(VhostDir(job.dir)), Ack)] else []
  }

  function PortCall(job: Job, b: Id): Call
    requires job.Add?
  {
    AddIface(job.port, KIND_PORT, b, job.mtu, if job.virtio then Some(SockPath(job.dir, job.port)) else None)
  }

  /** The port pid was created on b. */
  ghost predicate Ported(job: Job, b: Id, pid: Id, s: seq<Step>)
    requires job.Add?
  {
    exists s0 :: Bridged(job, b, s0) && s == s0 + DirMade(job) + [Step(PortCall(job, b), Created(pid))]
  }

  function Move(job: Job): Call
    requires job.Add?
  {
    MoveTap(job.port, job.netns)
  }

  function SetUp(job: Job): Call
    requires job.Add?
  {
    SetUpPod(job.netns, job.port, job.att.ifName, job.mtu)
  }

  /** A TAP whose pod has a namespace is moved there and configured. */
  predicate HasPodSide(job: Job)
    requires job.Add?
  {
    !job.virtio && job.netns != []
  }

  function PodDone(job: Job): seq<Step>
    requires job.Add?
  {
    if HasPodSide(job) then [Step(Move(job), Ack), Step(SetUp(job), Ack)] else []
  }

  /** The port was moved into the pod. */
  ghost predicate Configuring(job: Job, pid: Id, s: seq<Step>)
    requires job.Add?
  {
    exists b, s0 :: Ported(job, b, pid, s0) && s == s0 + [Step(Move(job), Ack)]
  }

  /** The pod side failed at this stage. */
  ghost predicate PodFails(job: Job, stage: Stage, s: seq<Step>)
    requires job.Add?
  {
    && HasPodSide(job)
    && (|| (stage.MoveLink? && |s| == 1 && s[0].call == Move(job) && !s[0].reply.Ack?)
        || (stage.Configure? && |s| == 2 && s[0] == Step(Move(job), Ack) && s[1].call == SetUp(job) && !s[1].reply.Ack?))
  }

  /** ADD succeeded. */
  ghost predicate AddOk(job: Job, s: seq<Step>)
    requires job.Add?
  {
    exists b, pid, s0 :: Ported(job, b, pid, s0) && s == s0 + PodDone(job)
  }

  /** The port is to be deleted again. */
  ghost predicate AddUndoing(job: Job, pid: Id, stage: Stage, s: seq<Step>)
    requires job.Add?
  {
    exists b, s0, p :: Ported(job, b, pid, s0) && PodFails(job, stage, p) && s == s0 + p
  }

  /** The call that made ADD fail has been answered, and undone if need be; the release is next. */
  ghost predicate AddFailing(job: Job, stage: Stage, s: seq<Step>)
    requires job.Add?
  {
    match stage
    case EnsureBridge => exists ips, o, part :: Opens(job, ips, o) && FindsNothing(job, part) && s == o + part
    case GatewayAdd =>
      exists b, done, gw, more, s0, r :: Assigns(job, b, done, [gw] + more, s0) && r != Ack && s == s0 + [Step(AddAddr(b, gw), r)]
    case SockDir => exists b, s0, r :: Bridged(job, b, s0) && r != Ack && job.virtio && s == s0 + [Step(MakeDir(VhostDir(job.dir)), r)]
    case PortAdd =>
      exists b, s0, r: Reply :: Bridged(job, b, s0) && !r.Created? && s == s0 + DirMade(job) + [Step(PortCall(job, b), r)]
    case MoveLink => exists pid, s0, r :: AddUndoing(job, pid, stage, s0) && s == s0 + [Step(DelIface(pid), r)]
    case Configure => exists pid, s0, r :: AddUndoing(job, pid, stage, s0) && s == s0 + [Step(DelIface(pid), r)]
    case _ => false
  }

  /** ADD failed. */
  ghost predicate AddErr(job: Job, stage: Stage, s: seq<Step>)
    requires job.Add?
  {
    if stage.IpamAdd? then |s| == 1 && s[0].call == Allocate(job.att) && !s[0].reply.Allocated?
    else if stage.Convert? then
      && |s| == 2 && s[0].call == Allocate(job.att) && s[0].reply.Allocated? && s[1].call == ConvertResult && s[1].reply != Ack
    else if stage.GatewayPanic? then
      exists ips, o, part, b :: Opens(job, ips, o) && Finds(job, part, b) && GatewaysFor(ips).None? && s == o + part
    else exists s0, r :: AddFailing(job, stage, s0) && s == s0 + [Step(Release(job.att), r)]
  }

  ghost predicate AddSteps(job: Job, pc: Pc, s: seq<Step>)
    requires job.Add? && (AddPc(pc) || pc.Done?)
  {
    match pc
    case AddAlloc => s == []
    case AddConvert(ips) => |s| == 1 && s[0].call == Allocate(job.att) && s[0].reply.Allocated? && s[0].reply.ips == ips
    case AddFind(ips) => Opens(job, ips, s)
    case AddMake(ips) => exists o, m :: Opens(job, ips, o) && Misses(job.bridge, m) && s == o + [m]
    case AddRefind(ips) =>
      exists o, m, r: Reply :: Opens(job, ips, o) && Misses(job.bridge, m) && !r.Created? && s == o + [m, Step(MakeBridge(job), r)]
    case AddGateway(b, gw, more) => exists done :: Assigns(job, b, done, [gw] + more, s)
    case AddDir(b) => job.virtio && Bridged(job, b, s)
    case AddPort(b) => exists s0 :: Bridged(job, b, s0) && s == s0 + DirMade(job)
    case AddMove(pid) => HasPodSide(job) && exists b :: Ported(job, b, pid, s)
    case AddConfigure(pid) => HasPodSide(job) && Configuring(job, pid, s)
    case AddUndo(pid, stage) => (stage.MoveLink? || stage.Configure?) && AddUndoing(job, pid, stage, s)
    case AddRelease(stage) => AddFailing(job, stage, s)
    case Done(r) => if r.Ok? then AddOk(job, s) else AddErr(job, r.stage, s)
  }

  lemma NextAssign(job: Job, b: Id, done: seq<IPNet>, todo: seq<IPNet>, s: seq<Step>)
    requires job.Add? && Assigns(job, b, done, todo, s)
    ensures AddSteps(job, AddNext(job, b, todo), s)
  {
    if todo != [] {
      assert [todo[0]] + todo[1..] == todo;
      assert Assigns(job, b, done, [todo[0]] + todo[1..], s);
    } else {
      assert Bridged(job, b, s);
      assert !job.virtio ==> s == s + DirMade(job);
    }
  }

  lemma FirstAssign(job: Job, ips: Entries, o: seq<Step>, part: seq<Step>, b: Id)
    requires job.Add? && Opens(job, ips, o) && Finds(job, part, b)
    ensures AddSteps(job, AddBridged(job, b, ips), o + part)
  {
    if GatewaysFor(ips).Some? {
      var gws := GatewaysFor(ips).value;
      assert [] + gws == gws && o + part == o + part + Assigned(b, []);
      assert Assigns(job, b, [], gws, o + part);
      NextAssign(job, b, [], gws, o + part);
    }
  }

  lemma EnsureSteps(job: Job, pc: Pc, s: seq<Step>, r: Reply)
    requires job.Add? && (pc.AddFind? || pc.AddMake? || pc.AddRefind?) && AddSteps(job, pc, s)
    ensures AddSteps(job, ResumeAdd(job, pc, r), s + [Step(AddCall(job, pc), r)])
  {
    var x := Step(AddCall(job, pc), r);
    if pc.AddFind? {
      FindSteps(job, pc.ips, s, r);
    } else if pc.AddMake? {
      var o, m :| Opens(job, pc.ips, o) && Misses(job.bridge, m) && s == o + [m];
      assert s + [x] == o + [m, x];
      if r.Created? {
        assert Finds(job, [m, x], r.id);
        FirstAssign(job, pc.ips, o, [m, x], r.id);
      }
    } else {
      RefindSteps(job, pc.ips, s, r);
    }
  }

  lemma FindSteps(job: Job, ips: Entries, s: seq<Step>, r: Reply)
    requires job.Add? && Opens(job, ips, s)
    ensures AddSteps(job, ResumeAdd(job, AddFind(ips), r), s + [Step(List, r)])
  {
    var x := Step(List, r);
    if r.Listed? && FindBridge(r.l, job.bridge).Some? {
      assert Finds(job, [x], FindBridge(r.l, job.bridge).value);
      FirstAssign(job, ips, s, [x], FindBridge(r.l, job.bridge).value);
    } else if r.Listed? {
      assert Misses(job.bridge, x);
    } else {
      assert FindsNothing(job, [x]);
    }
  }

  lemma RefindSteps(job: Job, ips: Entries, s: seq<Step>, r: Reply)
    requires job.Add? && AddSteps(job, AddRefind(ips), s)
    ensures AddSteps(job, ResumeAdd(job, AddRefind(ips), r), s + [Step(List, r)])
  {
    var x := Step(List, r);
    var o, m, r0: Reply :| Opens(job, ips, o) && Misses(job.bridge, m) && !r0.Created? && s == o + [m, Step(MakeBridge(job), r0)];
    var part := [m, Step(MakeBridge(job), r0), x];
    assert s + [x] == o + part;
    if r.Listed? && FindNamed(r.l, job.bridge).Some? {
      assert Finds(job, part, FindNamed(r.l, job.bridge).value.id);
      FirstAssign(job, ips, o, part, FindNamed(r.l, job.bridge).value.id);
    } else {
      assert FindsNothing(job, part);
    }
  }

  lemma AssignMore(job: Job, b: Id, done: seq<IPNet>, gw: IPNet, more: seq<IPNet>, s: seq<Step>)
    requires job.Add? && Assigns(job, b, done, [gw] + more, s)
    ensures Assigns(job, b, done + [gw], more, s + [Step(AddAddr(b, gw), Ack)])
  {
    var x := Step(AddAddr(b, gw), Ack);
    var ips, o, part :| && Opens(job, ips, o) && Finds(job, part, b) && GatewaysFor(ips) == Some(done + ([gw] + more))
                        && s == o + part + Assigned(b, done);
    assert done + ([gw] + more) == done + [gw] + more;
    assert Assigned(b, done + [gw]) == Assigned(b, done) + [x];
    assert s + [x] == o + part + Assigned(b, done + [gw]);
  }

  lemma GatewaySteps(job: Job, b: Id, gw: IPNet, more: seq<IPNet>, s: seq<Step>, r: Reply)
    requires job.Add? && AddSteps(job, AddGateway(b, gw, more), s)
    ensures AddSteps(job, ResumeAdd(job, AddGateway(b, gw, more), r), s + [Step(AddAddr(b, gw), r)])
  {
    var done :| Assigns(job, b, done, [gw] + more, s);
    if r.Ack? {
      AssignMore(job, b, done, gw, more, s);
      NextAssign(job, b, done + [gw], more, s + [Step(AddAddr(b, gw), r)]);
    } else {
      assert AddFailing(job, GatewayAdd, s + [Step(AddAddr(b, gw), r)]);
    }
  }

  lemma DirSteps(job: Job, b: Id, s: seq<Step>, r: Reply)
    requires job.Add? && AddSteps(job, AddDir(b), s)
    ensures AddSteps(job, ResumeAdd(job, AddDir(b), r), s + [Step(MakeDir(VhostDir(job.dir)), r)])
  {
    var s' := s + [Step(MakeDir(VhostDir(job.dir)), r)];
    if r.Ack? {
      assert s' == s + DirMade(job);
    } else {
      assert AddFailing(job, SockDir, s');
    }
  }

  lemma PortSteps(job: Job, b: Id, s: seq<Step>, r: Reply)
    requires job.Add? && AddSteps(job, AddPort(b), s)
    ensures AddSteps(job, ResumeAdd(job, AddPort(b), r), s + [Step(PortCall(job, b), r)])
  {
    var s0 :| Bridged(job, b, s0) && s == s0 + DirMade(job);
    var s' := s + [Step(PortCall(job, b), r)];
    if r.Created? {
      assert Ported(job, b, r.id, s');
      if !HasPodSide(job) {
        assert s' == s' + PodDone(job);
        assert AddOk(job, s');
      }
    } else {
      assert AddFailing(job, PortAdd, s');
    }
  }

  lemma MoveSteps(job: Job, pid: Id, s: seq<Step>, r: Reply)
    requires job.Add? && AddSteps(job, AddMove(pid), s)
    ensures AddSteps(job, ResumeAdd(job, AddMove(pid), r), s + [Step(Move(job), r)])
  {
    var x := Step(Move(job), r);
    var b :| Ported(job, b, pid, s);
    if !r.Ack? {
      assert PodFails(job, MoveLink, [x]);
      assert AddUndoing(job, pid, MoveLink, s + [x]);
    }
  }

  lemma ConfigureSteps(job: Job, pid: Id, s: seq<Step>, r: Reply)
    requires job.Add? && HasPodSide(job) && Configuring(job, pid, s)
    ensures var s' := s + [Step(SetUp(job), r)];
            if r.Ack? then AddOk(job, s') else AddUndoing(job, pid, Configure, s')
  {
    var b, s0 :| Ported(job, b, pid, s0) && s == s0 + [Step(Move(job), Ack)];
    var both := [Step(Move(job), Ack), Step(SetUp(job), r)];
    assert s + [Step(SetUp(job), r)] == s0 + both;
    if r.Ack? {
      assert both == PodDone(job);
    } else {
      assert PodFails(job, Configure, both);
    }
  }

  lemma AddStepped(job: Job, pc: Pc, s: seq<Step>, r: Reply)
    requires job.Add? && AddPc(pc) && AddSteps(job, pc, s)
    ensures AddSteps(job, ResumeAdd(job, pc, r), s + [Step(AddCall(job, pc), r)])
  {
    if pc.AddFind? || pc.AddMake? || pc.AddRefind? {
      EnsureSteps(job, pc, s, r);
    } else if pc.AddGateway? {
      GatewaySteps(job, pc.bid, pc.gw, pc.more, s, r);
    } else if pc.AddDir? {
      DirSteps(job, pc.bid, s, r);
    } else if pc.AddPort? {
      PortSteps(job, pc.bid, s, r);
    } else if pc.AddMove? {
      MoveSteps(job, pc.pid, s, r);
    } else if pc.AddConfigure? {
      ConfigureSteps(job, pc.pid, s, r);
    }
  }

  lemma {:induction false} AddSteppedRun(job: Job, evs: seq<Event>)
    requires job.Add?
    ensures AddSteps(job, PcAfter(job, evs), Steps(job, evs))
  {
    if evs != [] {
      var init := evs[..|evs| - 1];
      AddSteppedRun(job, init);
      if !PcAfter(job, init).Done? {
        AddStepped(job, PcAfter(job, init), Steps(job, init), evs[|evs| - 1].reply);
      }
    }
  }

  /** Every ADD that has returned made exactly the calls of its script, in order: allocate, convert, find or
      create the bridge, add each gateway to it, make the socket directory of a virtio port, create the
      port, and move a TAP into the pod's namespace and configure it there. On the first failure it
      deletes the port if there is one, releases the allocation if ensureBridge was reached, and stops. */
  lemma AddScript(job: Job, evs: seq<Event>)
    requires job.Add? && PcAfter(job, evs).Done?
    ensures PcAfter(job, evs).r.Ok? ==> AddOk(job, Steps(job, evs))
    ensures PcAfter(job, evs).r.Err? ==> AddErr(job, PcAfter(job, evs).r.stage, Steps(job, evs))
  {
    AddSteppedRun(job, evs);
  }

  /** The last three calls created the port, moved it into the pod and configured it there. */
  ghost predicate EndsInPod(job: Job, s: seq<Step>)
    requires job.Add?
  {
    var n := |s|;
    && n >= 3 && s[n - 3].call.AddIface? && s[n - 3].call.name == job.port && s[n - 3].reply.Created?
    && s[n - 2] == Step(MoveTap(job.port, job.netns), Ack)
    && s[n - 1] == Step(SetUpPod(job.netns, job.port, job.att.ifName, job.mtu), Ack)
  }

  /** So a TAP with a pod namespace is reported as attached only after it was created, moved and configured. */
  lemma PodSideDone(job: Job, evs: seq<Event>)
    requires job.Add? && HasPodSide(job) && PcAfter(job, evs) == Done(Ok)
    ensures EndsInPod(job, Steps(job, evs))
  {
    AddScript(job, evs);
    OkEnds(job, Steps(job, evs));
  }

  lemma OkEnds(job: Job, s: seq<Step>)
    requires job.Add? && HasPodSide(job) && AddOk(job, s)
    ensures EndsInPod(job, s)
  {
    var b, pid, s0 :| Ported(job, b, pid, s0) && s == s0 + PodDone(job);
    PortedEnds(job, b, pid, s0);
    assert s[|s| - 3] == s0[|s0| - 1];
  }

  lemma PortedEnds(job: Job, b: Id, pid: Id, s: seq<Step>)
    requires job.Add? && Ported(job, b, pid, s)
    ensures |s| >= 1 && s[|s| - 1] == Step(PortCall(job, b), Created(pid))
  {
  }

  // ---------- gcBridgeIfEmpty ----------

  /** The listing shows b as a bridge without members. */
  ghost predicate ShowsEmpty(b: Id, x: Step) {
    && x.call == List && x.reply.Listed?
    && (exists y :: y in x.reply.l && y.id == b)
    && (forall y :: y in x.reply.l ==> y.domain != b && (y.id == b ==> y.kind == KIND_BRIDGE))
  }

  /** A list call, and if it showed b empty a flush and a delete, whatever came of them. */
  ghost predicate Swept(b: Id, s: seq<Step>) {
    || (|s| == 1 && s[0].call == List && !ShowsEmpty(b, s[0]))
    || (|s| == 3 && ShowsEmpty(b, s[0]) && s[1].call == Flush(b) && s[2].call == DelIface(b))
  }

  /** Where the sweep of b stands. */
  ghost predicate Sweeping(pc: Pc, s: seq<Step>)
    requires SweepPc(pc)
  {
    if pc.Sweep? then s == []
    else if pc.SweepFlush? then |s| == 1 && ShowsEmpty(pc.bid, s[0])
    else |s| == 2 && ShowsEmpty(pc.bid, s[0]) && s[1].call == Flush(pc.bid)
  }

  lemma SweptStep(job: Job, pc: Pc, s: seq<Step>, r: Reply)
    requires (job.Del? || job.Gc?) && SweepPc(pc) && Sweeping(pc, s)
    ensures var next, s' := ResumeSweep(job, pc, r), s + [Step(SweepCall(pc), r)];
            if SweepPc(next) then next.bid == pc.bid && Sweeping(next, s') else Swept(pc.bid, s')
  {
    if pc.Sweep? && r.Listed? {
      SweepScanMeans(r.l, pc.bid, false);
    }
  }

  // ---------- DEL ----------

  /** The port x was listed, its delete and the removal of its socket attempted. */
  ghost predicate Deletes(job: Job, x: Info, s: seq<Step>)
    requires job.Del?
  {
    && |s| == 3 && Lists(job.port, x, s[0])
    && s[1].call == DelIface(x.id) && s[2].call == RemoveSock(SockPath(job.dir, job.port))
  }

  ghost predicate Lists(port: bytes, x: Info, y: Step) {
    y.call == List && y.reply.Listed? && FindNamed(y.reply.l, port) == Some(x)
  }

  ghost predicate ListsNone(port: bytes, y: Step) {
    y.call == List && y.reply.Listed? && forall z :: z in y.reply.l ==> z.name != port
  }

  /** All that comes before the release. */
  ghost predicate Cleaned(job: Job, s: seq<Step>)
    requires job.Del?
  {
    || (|s| == 1 && ListsNone(job.port, s[0]))
    || exists x, s0, part :: && Deletes(job, x, s0) && s == s0 + part
                             && if x.domain == 0 then part == [] else Swept(x.domain, part)
  }

  ghost predicate DelSweeping(job: Job, pc: Pc, s: seq<Step>)
    requires job.Del? && SweepPc(pc)
  {
    exists x, s0, part :: Deletes(job, x, s0) && x.domain == pc.bid != 0 && Sweeping(pc, part) && s == s0 + part
  }

  ghost predicate DelSteps(job: Job, pc: Pc, s: seq<Step>)
    requires job.Del? && (DelPc(pc) || SweepPc(pc) || pc.Done?)
  {
    if pc.DelFind? then s == []
    else if pc.DelPort? then |s| == 1 && Lists(job.port, pc.target, s[0])
    else if pc.DelSock? then |s| == 2 && Lists(job.port, pc.target, s[0]) && s[1].call == DelIface(pc.target.id)
    else if SweepPc(pc) then DelSweeping(job, pc, s)
    else if pc.DelRelease? then Cleaned(job, s)
    else if pc.r.Ok? then exists s0, r :: Cleaned(job, s0) && s == s0 + [Step(Release(job.att), r)]
    else pc.r.stage.Listing? && |s| == 1 && s[0].call == List && !s[0].reply.Listed?
  }

  lemma DelStepped(job: Job, pc: Pc, s: seq<Step>, r: Reply)
    requires job.Del? && DelPc(pc) && DelSteps(job, pc, s)
    ensures DelSteps(job, ResumeDel(job, pc, r), s + [Step(DelCall(job, pc), r)])
  {
    if pc.DelSock? {
      var s' := s + [Step(DelCall(job, pc), r)];
      assert Deletes(job, pc.target, s') && s' == s' + [];
      assert pc.target.domain != 0 ==> Sweeping(Sweep(pc.target.domain), []);
    }
  }

  lemma DelSweepStepped(job: Job, pc: Pc, s: seq<Step>, r: Reply)
    requires job.Del? && SweepPc(pc) && DelSweeping(job, pc, s)
    ensures var next, s' := ResumeSweep(job, pc, r), s + [Step(SweepCall(pc), r)];
            if SweepPc(next) then DelSweeping(job, next, s') else Cleaned(job, s')
  {
    var x, s0, part :| Deletes(job, x, s0) && x.domain == pc.bid != 0 && Sweeping(pc, part) && s == s0 + part;
    SweptStep(job, pc, part, r);
    Snoc(s0, part, Step(SweepCall(pc), r));
  }

  lemma {:induction false} DelSteppedRun(job: Job, evs: seq<Event>)
    requires job.Del?
    ensures DelSteps(job, PcAfter(job, evs), Steps(job, evs))
  {
    if evs != [] {
      var init := evs[..|evs| - 1];
      var pc := PcAfter(job, init);
      DelSteppedRun(job, init);
      if SweepPc(pc) {
        DelSweepStepped(job, pc, Steps(job, init), evs[|evs| - 1].reply);
        assert PcAfter(job, evs) == ResumeSweep(job, pc, evs[|evs| - 1].reply);
      } else if !pc.Done? {
        DelStepped(job, pc, Steps(job, init), evs[|evs| - 1].reply);
      }
    }
  }

  /** Every DEL that has returned made exactly these calls: list; if the port is there, delete it, remove its
      socket and sweep its bridge, each whatever came of the one before; and release. It fails exactly if
      the list call did. */
  lemma DelScript(job: Job, evs: seq<Event>)
    requires job.Del? && PcAfter(job, evs).Done?
    ensures var s := Steps(job, evs);
            if PcAfter(job, evs) == Done(Ok) then exists s0, r :: Cleaned(job, s0) && s == s0 + [Step(Release(job.att), r)]
            else PcAfter(job, evs) == Done(Err(Listing)) && |s| == 1 && s[0].call == List && !s[0].reply.Listed?
  {
    DelSteppedRun(job, evs);
  }

  // ---------- CHECK ----------

  /** What CHECK returns for these calls and answers, and that it makes no others. */
  ghost predicate Checks(job: Job, s: seq<Step>, r: Result)
    requires job.Check?
  {
    && |s| >= 1 && s[0].call == List
    && if !s[0].reply.Listed? then |s| == 1 && r == Err(Listing)
       else if forall y :: y in s[0].reply.l ==> y.name != job.port then |s| == 1 && r == Err(PortMissing)
       else if job.virtio then
         && |s| == 2 && s[1].call == Stat(SockPath(job.dir, job.port))
         && r == if s[1].reply == Present(true) then Ok else Err(SockMissing)
       else if job.netns == [] then |s| == 1 && r == Ok
       else
         && |s| >= 2 && s[1].call == ReadPrev
         && if s[1].reply != Ack then |s| == 2 && r == Err(PrevResult)
            else
              && |s| == 3 && s[2].call == VerifyPod(job.netns, job.att.ifName)
              && r == if s[2].reply == Ack then Ok else Err(Verify)
  }

  ghost predicate ListsPort(port: bytes, x: Step) {
    x.call == List && x.reply.Listed? && !(forall y :: y in x.reply.l ==> y.name != port)
  }

  ghost predicate CheckSteps(job: Job, pc: Pc, s: seq<Step>)
    requires job.Check? && (CheckPc(pc) || pc.Done?)
  {
    if pc.CheckFind? then s == []
    else if pc.CheckSock? then |s| == 1 && ListsPort(job.port, s[0]) && job.virtio
    else if pc.CheckPrev? then |s| == 1 && ListsPort(job.port, s[0]) && !job.virtio && job.netns != []
    else if pc.CheckPod? then
      |s| == 2 && ListsPort(job.port, s[0]) && !job.virtio && job.netns != [] && s[1] == Step(ReadPrev, Ack)
    else Checks(job, s, pc.r)
  }

  lemma CheckStepped(job: Job, pc: Pc, s: seq<Step>, r: Reply)
    requires job.Check? && CheckPc(pc) && CheckSteps(job, pc, s)
    ensures CheckSteps(job, ResumeCheck(job, pc, r), s + [Step(CheckCall(job, pc), r)])
  {
  }

  /** CHECK's calls and its verdict on them, exactly. */
  lemma {:induction false} CheckSteppedRun(job: Job, evs: seq<Event>)
    requires job.Check?
    ensures CheckSteps(job, PcAfter(job, evs), Steps(job, evs))
  {
    if evs != [] {
      var init := evs[..|evs| - 1];
      CheckSteppedRun(job, init);
      if !PcAfter(job, init).Done? {
        CheckStepped(job, PcAfter(job, init), Steps(job, init), evs[|evs| - 1].reply);
      }
    }
  }

  lemma CheckScript(job: Job, evs: seq<Event>)
    requires job.Check? && PcAfter(job, evs).Done?
    ensures Checks(job, Steps(job, evs), PcAfter(job, evs).r)
  {
    CheckSteppedRun(job, evs);
  }

  // ---------- GC ----------

  /** The stale ports tried so far, the last one outermost, with the answers to each delete and, after a
      successful one, to the removal of the socket. */
  datatype Trail = Start | Then(before: Trail, x: Info, del: Reply, sock: Reply)

  function Tried(t: Trail): seq<Info> {
    if t.Start? then [] else Tried(t.before) + [t.x]
  }

  predicate AnyReaped(t: Trail) {
    t.Then? && (t.del == Ack || AnyReaped(t.before))
  }

  /** A delete for each port, and after a successful one the removal of its socket. */
  function Reaps(job: Job, t: Trail): seq<Step>
    requires job.Gc?
  {
    if t.Start? then []
    else Reaps(job, t.before) +
         if t.del == Ack then [Step(DelIface(t.x.id), Ack), Step(RemoveSock(SockPath(job.dir, t.x.name)), t.sock)]
         else [Step(DelIface(t.x.id), t.del)]
  }

  /** The listing shows the network's bridge b and these stale ports on it. */
  ghost predicate ListsStale(job: Job, b: Id, x: Step, stale: seq<Info>)
    requires job.Gc?
  {
    && x.call == List && x.reply.Listed? && FindBridge(x.reply.l, job.bridge) == Some(b)
    && stale == StaleOf(x.reply.l, b, job.valid)
  }

  /** The stale ports of the listed bridge b have been tried up to `todo`. */
  ghost predicate Reaping(job: Job, b: Id, todo: seq<Info>, reaped: bool, s: seq<Step>)
    requires job.Gc?
  {
    exists x, t :: ListsStale(job, b, x, Tried(t) + todo) && AnyReaped(t) == reaped && s == [x] + Reaps(job, t)
  }

  /** All that comes before IPAM's turn. */
  ghost predicate Collected(job: Job, s: seq<Step>)
    requires job.Gc?
  {
    || (|s| == 1 && Misses(job.bridge, s[0]))
    || exists b, s0, part, reaped :: && Reaping(job, b, [], reaped, s0) && s == s0 + part
                                     && if reaped then Swept(b, part) else part == []
  }

  ghost predicate GcSweeping(job: Job, pc: Pc, s: seq<Step>)
    requires job.Gc? && SweepPc(pc)
  {
    exists s0, part :: Reaping(job, pc.bid, [], true, s0) && Sweeping(pc, part) && s == s0 + part
  }

  ghost predicate GcSteps(job: Job, pc: Pc, s: seq<Step>)
    requires job.Gc? && (GcPc(pc) || SweepPc(pc) || pc.Done?)
  {
    if pc.GcFind? then s == []
    else if pc.GcReap? then Reaping(job, pc.bid, [pc.head] + pc.rest, pc.reaped, s)
    else if pc.GcSock? then
      exists x: Info, q, s0 :: && x.name == pc.name && Reaping(job, pc.bid, [x] + pc.rest, q, s0)
                               && s == s0 + [Step(DelIface(x.id), Ack)]
    else if SweepPc(pc) then GcSweeping(job, pc, s)
    else if pc.GcIpam? then Collected(job, s)
    else if pc.r.Ok? then exists s0, r :: Collected(job, s0) && s == s0 + [Step(Collect(job.keep), r)]
    else pc.r.stage.Listing? && |s| == 1 && s[0].call == List && !s[0].reply.Listed?
  }

  lemma NextReap(job: Job, b: Id, todo: seq<Info>, reaped: bool, s: seq<Step>)
    requires job.Gc? && Reaping(job, b, todo, reaped, s)
    ensures GcSteps(job, GcNext(b, todo, reaped), s)
  {
    if todo != [] {
      assert [todo[0]] + todo[1..] == todo;
    } else {
      assert s == s + [] && Sweeping(Sweep(b), []);
      assert if reaped then GcSweeping(job, Sweep(b), s) else Collected(job, s);
    }
  }

  lemma GcFindStepped(job: Job, r: Reply)
    requires job.Gc?
    ensures GcSteps(job, ResumeGc(job, GcFind, r), [Step(List, r)])
  {
    if r.Listed? && FindBridge(r.l, job.bridge).Some? {
      var b, x := FindBridge(r.l, job.bridge).value, Step(List, r);
      var todo := StaleOf(r.l, b, job.valid);
      assert Tried(Start) + todo == todo && [x] == [x] + Reaps(job, Start);
      assert ListsStale(job, b, x, Tried(Start) + todo);
      assert Reaping(job, b, todo, false, [x]);
      NextReap(job, b, todo, false, [x]);
    } else if r.Listed? {
      assert Misses(job.bridge, Step(List, r));
    }
  }

  lemma ReapFailed(job: Job, b: Id, x: Info, rest: seq<Info>, reaped: bool, s: seq<Step>, r: Reply)
    requires job.Gc? && Reaping(job, b, [x] + rest, reaped, s) && r != Ack
    ensures Reaping(job, b, rest, reaped, s + [Step(DelIface(x.id), r)])
  {
    var y, t :| ListsStale(job, b, y, Tried(t) + ([x] + rest)) && AnyReaped(t) == reaped && s == [y] + Reaps(job, t);
    var t' := Then(t, x, r, r);
    assert Tried(t) + ([x] + rest) == Tried(t') + rest;
    assert s + [Step(DelIface(x.id), r)] == [y] + Reaps(job, t');
  }

  lemma ReapDone(job: Job, b: Id, x: Info, rest: seq<Info>, q: bool, s: seq<Step>, r: Reply)
    requires job.Gc? && Reaping(job, b, [x] + rest, q, s)
    ensures var path := SockPath(job.dir, x.name);
            Reaping(job, b, rest, true, s + [Step(DelIface(x.id), Ack)] + [Step(RemoveSock(path), r)])
  {
    var y, t :| ListsStale(job, b, y, Tried(t) + ([x] + rest)) && AnyReaped(t) == q && s == [y] + Reaps(job, t);
    var t', path := Then(t, x, Ack, r), SockPath(job.dir, x.name);
    assert Tried(t) + ([x] + rest) == Tried(t') + rest;
    assert s + [Step(DelIface(x.id), Ack)] + [Step(RemoveSock(path), r)] == [y] + Reaps(job, t');
  }

  lemma ReapStepped(job: Job, pc: Pc, s: seq<Step>, r: Reply)
    requires job.Gc? && pc.GcReap? && GcSteps(job, pc, s)
    ensures GcSteps(job, ResumeGc(job, pc, r), s + [Step(DelIface(pc.head.id), r)])
  {
    if !r.Ack? {
      ReapFailed(job, pc.bid, pc.head, pc.rest, pc.reaped, s, r);
      NextReap(job, pc.bid, pc.rest, pc.reaped, s + [Step(DelIface(pc.head.id), r)]);
    }
  }

  lemma SockStepped(job: Job, pc: Pc, s: seq<Step>, r: Reply)
    requires job.Gc? && pc.GcSock? && GcSteps(job, pc, s)
    ensures GcSteps(job, ResumeGc(job, pc, r), s + [Step(RemoveSock(SockPath(job.dir, pc.name)), r)])
  {
    var x: Info, q, s0 :| && x.name == pc.name && Reaping(job, pc.bid, [x] + pc.rest, q, s0)
                          && s == s0 + [Step(DelIface(x.id), Ack)];
    ReapDone(job, pc.bid, x, pc.rest, q, s0, r);
    NextReap(job, pc.bid, pc.rest, true, s + [Step(RemoveSock(SockPath(job.dir, pc.name)), r)]);
  }

  lemma GcStepped(job: Job, pc: Pc, s: seq<Step>, r: Reply)
    requires job.Gc? && GcPc(pc) && GcSteps(job, pc, s)
    ensures GcSteps(job, ResumeGc(job, pc, r), s + [Step(GcCall(job, pc), r)])
  {
    if pc.GcFind? {
      GcFindStepped(job, r);
      assert s + [Step(List, r)] == [Step(List, r)];
    } else if pc.GcReap? {
      ReapStepped(job, pc, s, r);
    } else if pc.GcSock? {
      SockStepped(job, pc, s, r);
    }
  }

  lemma GcSweepStepped(job: Job, pc: Pc, s: seq<Step>, r: Reply)
    requires job.Gc? && SweepPc(pc) && GcSweeping(job, pc, s)
    ensures var next, s' := ResumeSweep(job, pc, r), s + [Step(SweepCall(pc), r)];
            if SweepPc(next) then GcSweeping(job, next, s') else Collected(job, s')
  {
    var s0, part :| Reaping(job, pc.bid, [], true, s0) && Sweeping(pc, part) && s == s0 + part;
    var next, part' := ResumeSweep(job, pc, r), part + [Step(SweepCall(pc), r)];
    SweptStep(job, pc, part, r);
    Snoc(s0, part, Step(SweepCall(pc), r));
    if SweepPc(next) {
      SweepGoesOn(job, next, s0, part');
    } else {
      SweepEnds(job, pc.bid, s0, part');
    }
  }

  lemma SweepGoesOn(job: Job, pc: Pc, s0: seq<Step>, part: seq<Step>)
    requires job.Gc? && SweepPc(pc) && Reaping(job, pc.bid, [], true, s0) && Sweeping(pc, part)
    ensures GcSweeping(job, pc, s0 + part)
  {
  }

  lemma SweepEnds(job: Job, b: Id, s0: seq<Step>, part: seq<Step>)
    requires job.Gc? && Reaping(job, b, [], true, s0) && Swept(b, part)
    ensures Collected(job, s0 + part)
  {
  }

  lemma {:induction false} GcSteppedRun(job: Job, evs: seq<Event>)
    requires job.Gc?
    ensures GcSteps(job, PcAfter(job, evs), Steps(job, evs))
  {
    if evs != [] {
      var init := evs[..|evs| - 1];
      var pc := PcAfter(job, init);
      GcSteppedRun(job, init);
      if SweepPc(pc) {
        GcSweepStepped(job, pc, Steps(job, init), evs[|evs| - 1].reply);
        assert PcAfter(job, evs) == ResumeSweep(job, pc, evs[|evs| - 1].reply);
      } else if !pc.Done? {
        GcStepped(job, pc, Steps(job, init), evs[|evs| - 1].reply);
      }
    }
  }

  /** Every GC that has returned made exactly these calls: list; for each stale port of the listed bridge, in
      order, a delete and after its success the removal of the socket; a sweep of the bridge if any
      delete was successful; and last, bridge or not, IPAM's own collection with the valid attachments.
      It fails exactly if the list call did. */
  lemma GcScript(job: Job, evs: seq<Event>)
    requires job.Gc? && PcAfter(job, evs).Done?
    ensures var s := Steps(job, evs);
            if PcAfter(job, evs) == Done(Ok) then exists s0, r :: Collected(job, s0) && s == s0 + [Step(Collect(job.keep), r)]
            else PcAfter(job, evs) == Done(Err(Listing)) && |s| == 1 && s[0].call == List && !s[0].reply.Listed?
  {
    GcSteppedRun(job, evs);
  }
}
