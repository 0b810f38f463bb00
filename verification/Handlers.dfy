/** The handlers of pkg/cni/handler.go as written: imperative, with their loops, early returns and
    best-effort cleanup. Each is proved to follow its machine: what it does between Lock and Unlock
    is a complete legal run whose last point is the value it returns. */
module Handlers {
  import opened Base
  import opened PortNames
  import opened Gateways
  import opened Grout
  import opened Machine
  import opened Progress

  /** The environment stays within what it may do. */
  ghost predicate Fair(env: Faults, answer: (Call, World, nat) -> (Reply, World)) {
    forall c, w, n: nat :: Answers(env, c, w, answer(c, w, n).0, answer(c, w, n).1)
  }

  /** Fair environments of every kind exist: every call has an answer in every world. */
  lemma FairExists(env: Faults)
    ensures exists answer: (Call, World, nat) -> (Reply, World) :: Fair(env, answer)
  {
    var answer: (Call, World, nat) -> (Reply, World) := (c, w, n) => Refusing(c, w);
    forall c, w, n: nat
      ensures Answers(env, c, w, answer(c, w, n).0, answer(c, w, n).1)
    {
      Answered(env, c, w);
    }
    assert Fair(env, answer);
  }

  function PortNamesOf(sha: bytes -> Digest, keep: set<Attachment>): set<bytes> {
    set a | a in keep :: GroutPortName(sha, a)
  }

  /** An address with the index of the interface it belongs to. */
  datatype Reported = Reported(config: IPConfig, iface: nat)

  /** What ADD reports: one interface, in the pod's namespace or on a vhost socket, and the addresses. */
  datatype CniResult = CniResult(ifName: bytes, sandbox: bytes, socket: bytes, ips: seq<Reported>, extra: bytes)

  /** The result names the pod's interface; its addresses are all that IPAM allocated, in order, each of
      them pointing at that interface; the rest of the IPAM result is passed on. */
  ghost predicate Reports(res: CniResult, att: Attachment, virtio: bool, netns: bytes, sock: bytes, alloc: Reply) {
    && alloc.Allocated?
    && res.ifName == att.ifName && res.extra == alloc.extra
    && (if virtio then res.sandbox == [] && res.socket == sock else res.sandbox == netns && res.socket == [])
    && |res.ips| == |alloc.ips|
    && forall k :: 0 <= k < |res.ips| ==> alloc.ips[k] == Some(res.ips[k].config) && res.ips[k].iface == 0
  }

  /** podResult and vhostResult */
  method PodResult(att: Attachment, virtio: bool, netns: bytes, sock: bytes, ips: Entries, extra: bytes) returns (res: CniResult)
    requires None !in ips
    ensures Reports(res, att, virtio, netns, sock, Allocated(ips, extra))
  {
    var out: seq<Reported> := [];
    for k := 0 to |ips|
      invariant |out| == k
      invariant forall j :: 0 <= j < k ==> ips[j] == Some(out[j].config) && out[j].iface == 0
    {
      assert ips[k] in ips;
      out := out + [Reported(ips[k].value, 0)];
    }
    res := CniResult(att.ifName, if virtio then [] else netns, if virtio then sock else [], out, extra);
  }

  /** The node as a handler sees it. `answer` resolves every external call; nothing is known
      about it but that it stays within what the environment may do. */
  class Node {
    const env: Faults
    const answer: (Call, World, nat) -> (Reply, World)
    var world: World
    var now: nat
    // the run of the handler at work: its job, the world it started in, its answers, where it stands
    ghost var job: Job
    ghost var w0: World
    ghost var evs: seq<Event>
    ghost var opening: Option<Reply>  // its first answer
    ghost var pc: Pc

    /** The answers so far are a legal run of `job` from `w0` that stands at `pc`. */
    ghost predicate Valid()
      reads this
    {
      && Fair(env, answer)
      && Stands(env, job, w0, evs, pc, world)
      && opening == if evs == [] then None else Some(evs[0].reply)
    }

    constructor (env: Faults, answer: (Call, World, nat) -> (Reply, World), world: World)
      requires Fair(env, answer)
      ensures Valid() && this.env == env && this.world == world
    {
      this.env, this.answer, this.world, this.now := env, answer, world, 0;
      this.job, this.w0, this.evs, this.pc, this.opening := Gc([], {}, {}, []), world, [], GcFind, None;
    }

    /** A complete legal run of `j` from world `start` has just returned `res`. */
    ghost predicate Returned(j: Job, start: World, res: Result)
      reads this
    {
      Valid() && job == j && w0 == start && pc == Done(res)
    }

    /** Lock has returned: a handler starts. */
    ghost method Begin(j: Job)
      requires Valid()
      modifies this`job, this`w0, this`evs, this`pc, this`opening
      ensures Valid() && job == j && w0 == world && opening == None && pc == Start(j)
    {
      job, w0, evs, pc, opening := j, world, [], Start(j), None;
    }

    /** One external call. */
    method Invoke(c: Call) returns (r: Reply)
      requires Valid() && !pc.Done? && Belongs(job, pc) && c == CallOf(job, pc)
      modifies this`world, this`now, this`evs, this`pc, this`opening
      ensures Valid() && pc == Resume(job, old(pc), r) && Belongs(job, pc)
      ensures opening == if old(opening).Some? then old(opening) else Some(r)
    {
      var (reply, w') := answer(c, world, now);
      r := reply;
      Advance(env, job, w0, evs, pc, world, Event(r, w'));
      opening := if opening.Some? then opening else Some(r);
      evs := evs + [Event(r, w')];
      pc := Resume(job, pc, r);
      world, now := w', now + 1;
    }

    method InvokeAdd(c: Call) returns (r: Reply)
      requires Valid() && job.Add? && AddPc(pc) && c == AddCall(job, pc)
      modifies this`world, this`now, this`evs, this`pc, this`opening
      ensures Valid() && pc == ResumeAdd(job, old(pc), r)
      ensures opening == if old(opening).Some? then old(opening) else Some(r)
    {
      r := Invoke(c);
    }

    method InvokeDel(c: Call) returns (r: Reply)
      requires Valid() && job.Del? && DelPc(pc) && c == DelCall(job, pc)
      modifies this`world, this`now, this`evs, this`pc, this`opening
      ensures Valid() && pc == ResumeDel(job, old(pc), r)
    {
      r := Invoke(c);
    }

    method InvokeSweep(c: Call) returns (r: Reply)
      requires Valid() && (job.Del? || job.Gc?) && SweepPc(pc) && c == SweepCall(pc)
      modifies this`world, this`now, this`evs, this`pc, this`opening
      ensures Valid() && pc == ResumeSweep(job, old(pc), r)
    {
      r := Invoke(c);
    }

    method InvokeCheck(c: Call) returns (r: Reply)
      requires Valid() && job.Check? && CheckPc(pc) && c == CheckCall(job, pc)
      modifies this`world, this`now, this`evs, this`pc, this`opening
      ensures Valid() && pc == ResumeCheck(job, old(pc), r)
    {
      r := Invoke(c);
    }

    method InvokeGc(c: Call) returns (r: Reply)
      requires Valid() && job.Gc? && GcPc(pc) && c == GcCall(job, pc)
      modifies this`world, this`now, this`evs, this`pc, this`opening
      ensures Valid() && pc == ResumeGc(job, old(pc), r)
    {
      r := Invoke(c);
    }

    // ---------- searches ----------

    static method FindBridgeId(l: seq<Info>, name: bytes) returns (r: Option<Id>)
      ensures r == FindBridge(l, name)
    {
      assert l[0..] == l;
      for k := 0 to |l|
        invariant FindBridge(l, name) == FindBridge(l[k..], name)
      {
        assert l[k..][0] == l[k] && l[k..][1..] == l[k + 1..];
        if l[k].name == name && l[k].kind == KIND_BRIDGE {
          return Some(l[k].id);
        }
      }
      return None;
    }

    static method FindByName(l: seq<Info>, name: bytes) returns (r: Option<Info>)
      ensures r == FindNamed(l, name)
    {
      assert l[0..] == l;
      for k := 0 to |l|
        invariant FindNamed(l, name) == FindNamed(l[k..], name)
      {
        assert l[k..][0] == l[k] && l[k..][1..] == l[k + 1..];
        if l[k].name == name {
          return Some(l[k]);
        }
      }
      return None;
    }

    /** The scan inside gcBridgeIfEmpty. */
    static method IsEmptyBridge(l: seq<Info>, bid: Id) returns (r: bool)
      ensures r == SweepScan(l, bid, false)
    {
      var found := false;
      assert l[0..] == l;
      for k := 0 to |l|
        invariant SweepScan(l, bid, false) == SweepScan(l[k..], bid, found)
      {
        assert l[k..][0] == l[k] && l[k..][1..] == l[k + 1..];
        if l[k].id == bid {
          if l[k].kind != KIND_BRIDGE {
            return false;
          }
          found := true;
        }
        if l[k].domain == bid {
          return false;
        }
      }
      return found;
    }

    // ---------- ADD ----------

    method HandleAdd(sha: bytes -> Digest, att: Attachment, bridge: bytes, mtu: Id, virtio: bool, netns: bytes, dir: bytes)
      returns (res: Result, out: Option<CniResult>)
      requires Valid()
      modifies this
      ensures Returned(Add(att, GroutPortName(sha, att), bridge, mtu, virtio, netns, dir), old(world), res)
      ensures out.Some? <==> res.Ok?
      ensures res.Ok? ==>
                && opening.Some?
                && Reports(out.value, att, virtio, netns, SockPath(dir, GroutPortName(sha, att)), opening.value)
    {
      var port := GroutPortName(sha, att);
      Begin(Add(att, port, bridge, mtu, virtio, netns, dir));
      var ips: Entries, extra: bytes;
      res, ips, extra := AddLocked(att, port, bridge, mtu, virtio, netns, dir);
      out := None;
      if res.Ok? {
        NoNil(ips);
        var podRes := PodResult(att, virtio, netns, SockPath(dir, port), ips, extra);
        out := Some(podRes);
      }
    }

    /** HandleAdd under the lock, up to the result it reports; `ips` and `extra` are what IPAM returned. */
    method AddLocked(att: Attachment, port: bytes, bridge: bytes, mtu: Id, virtio: bool, netns: bytes, dir: bytes)
      returns (res: Result, ips: Entries, extra: bytes)
      requires Valid() && job == Add(att, port, bridge, mtu, virtio, netns, dir) && opening == None && pc == AddAlloc
      modifies this`world, this`now, this`evs, this`pc, this`opening
      ensures Valid() && pc == Done(res)
      ensures res.Ok? ==> opening == Some(Allocated(ips, extra)) && GatewaysFor(ips).Some?
    {
      var alloc := InvokeAdd(Allocate(att));
      if !alloc.Allocated? {
        return Err(IpamAdd), [], [];
      }
      ips, extra := alloc.ips, alloc.extra;
      var conv := InvokeAdd(ConvertResult);
      if !conv.Ack? {
        return Err(Convert), [], [];
      }
      var bid := EnsureBridge(bridge, ips);
      if bid.None? {
        res := IpamRelease(att, Stage.EnsureBridge);
        return;
      }
      var gws := ComputeGateways(ips);
      if gws.None? {
        return Err(GatewayPanic), [], [];
      }
      var onBridge := AssignGateways(bid.value, gws.value);
      if !onBridge {
        // other attachments may be on the bridge, so it stays
        res := IpamRelease(att, GatewayAdd);
        return;
      }
      res := AddPodPort(att, port, bid.value, mtu, virtio, netns, dir);
    }

    /** The gateway loop of HandleAdd. */
    method AssignGateways(bid: Id, gws: seq<IPNet>) returns (ok: bool)
      requires Valid() && job.Add? && pc == AddNext(job, bid, gws)
      modifies this`world, this`now, this`evs, this`pc, this`opening
      ensures Valid() && pc == if ok then AddNext(job, bid, []) else AddRelease(GatewayAdd)
      ensures old(opening).Some? ==> opening == old(opening)
    {
      assert gws[0..] == gws;
      for k := 0 to |gws|
        invariant Valid() && pc == AddNext(job, bid, gws[k..]) && (old(opening).Some? ==> opening == old(opening))
      {
        assert gws[k..][0] == gws[k] && gws[k..][1..] == gws[k + 1..];
        assert pc == AddGateway(bid, gws[k], gws[k + 1..]);
        var r := InvokeAdd(AddAddr(bid, gws[k]));
        if !r.Ack? {
          return false;
        }
      }
      return true;
    }

    /** The rest of HandleAdd: the port itself, and the pod side of a TAP. */
    method AddPodPort(att: Attachment, port: bytes, bid: Id, mtu: Id, virtio: bool, netns: bytes, dir: bytes)
      returns (res: Result)
      requires Valid() && job.Add? && job.att == att && job.port == port && job.mtu == mtu
      requires job.virtio == virtio && job.netns == netns && job.dir == dir && pc == AddNext(job, bid, [])
      modifies this`world, this`now, this`evs, this`pc, this`opening
      ensures Valid() && pc == Done(res)
      ensures old(opening).Some? ==> opening == old(opening)
    {
      var sock := None;
      if virtio {
        var dirMade := InvokeAdd(MakeDir(VhostDir(dir)));
        if !dirMade.Ack? {
          res := IpamRelease(att, SockDir);
          return;
        }
        sock := Some(SockPath(dir, port));
      }
      assert pc == AddPort(bid);
      var made := InvokeAdd(AddIface(port, KIND_PORT, bid, mtu, sock));
      if !made.Created? {
        res := IpamRelease(att, PortAdd);
        return;
      }
      if virtio || netns == [] {
        return Ok;
      }
      res := ConfigurePod(att, made.id, port, netns, mtu);
    }

    /** Move the TAP into the pod and configure it there; undo the port if either fails. */
    method ConfigurePod(att: Attachment, pid: Id, port: bytes, netns: bytes, mtu: Id) returns (res: Result)
      requires Valid() && job.Add? && job.att == att && job.port == port && job.netns == netns && job.mtu == mtu
      requires pc == AddMove(pid)
      modifies this`world, this`now, this`evs, this`pc, this`opening
      ensures Valid() && pc == Done(res)
      ensures old(opening).Some? ==> opening == old(opening)
    {
      var moved := InvokeAdd(MoveTap(port, netns));
      if !moved.Ack? {
        res := CleanupAfterAddFailure(att, pid, MoveLink);
        return;
      }
      var configured := InvokeAdd(SetUpPod(netns, port, att.ifName, mtu));
      if !configured.Ack? {
        res := CleanupAfterAddFailure(att, pid, Configure);
        return;
      }
      return Ok;
    }

    /** Find or create the bridge; on a create conflict, take whatever bears its name. */
    method EnsureBridge(name: bytes, ghost ips: Entries)
      returns (bid: Option<Id>)
      requires Valid() && job.Add? && name == job.bridge && pc == AddFind(ips)
      modifies this`world, this`now, this`evs, this`pc, this`opening
      ensures Valid() && pc == if bid.Some? then AddBridged(job, bid.value, ips) else AddRelease(Stage.EnsureBridge)
      ensures old(opening).Some? ==> opening == old(opening)
    {
      var l := InvokeAdd(List);
      if !l.Listed? {
        return None;
      }
      bid := FindBridgeId(l.l, name);
      if bid.None? {
        bid := MakeBridge(name, ips);
      }
    }

    /** The second half of ensureBridge. */
    method MakeBridge(name: bytes, ghost ips: Entries) returns (bid: Option<Id>)
      requires Valid() && job.Add? && name == job.bridge && pc == AddMake(ips)
      modifies this`world, this`now, this`evs, this`pc, this`opening
      ensures Valid() && pc == if bid.Some? then AddBridged(job, bid.value, ips) else AddRelease(Stage.EnsureBridge)
      ensures old(opening).Some? ==> opening == old(opening)
    {
      var made := InvokeAdd(AddIface(name, KIND_BRIDGE, 0, 0, None));
      if made.Created? {
        return Some(made.id);
      }
      var again := InvokeAdd(List);
      if again.Listed? {
        var x := FindByName(again.l, name);
        if x.Some? {
          return Some(x.value.id);
        }
      }
      return None;
    }

    method IpamRelease(att: Attachment, stage: Stage) returns (res: Result)
      requires Valid() && job.Add? && att == job.att && pc == AddRelease(stage)
      modifies this`world, this`now, this`evs, this`pc, this`opening
      ensures Valid() && pc == Done(res) && res == Err(stage)
      ensures old(opening).Some? ==> opening == old(opening)
    {
      var _ := InvokeAdd(Release(att));
      return Err(stage);
    }

    method CleanupAfterAddFailure(att: Attachment, pid: Id, stage: Stage)
      returns (res: Result)
      requires Valid() && job.Add? && att == job.att && pc == AddUndo(pid, stage)
      modifies this`world, this`now, this`evs, this`pc, this`opening
      ensures Valid() && pc == Done(res) && res == Err(stage)
      ensures old(opening).Some? ==> opening == old(opening)
    {
      var _ := InvokeAdd(DelIface(pid));
      res := IpamRelease(att, stage);
    }

    // ---------- DEL ----------

    method HandleDel(sha: bytes -> Digest, att: Attachment, dir: bytes) returns (res: Result)
      requires Valid()
      modifies this
      ensures Returned(Del(att, GroutPortName(sha, att), dir), old(world), res)
    {
      var port := GroutPortName(sha, att);
      Begin(Del(att, port, dir));
      res := DelLocked(att, port, dir);
    }

    method DelLocked(att: Attachment, port: bytes, dir: bytes) returns (res: Result)
      requires Valid() && job == Del(att, port, dir) && pc == DelFind
      modifies this`world, this`now, this`evs, this`pc, this`opening
      ensures Valid() && pc == Done(res)
    {
      var l := InvokeDel(List);
      if !l.Listed? {
        return Err(Listing);
      }
      var x := FindByName(l.l, port);
      if x.Some? {
        DeletePort(x.value, port, dir);
      }
      var _ := InvokeDel(Release(att));
      return Ok;
    }

    /** The port, its socket, and its bridge if that was the last member; failures are only logged. */
    method DeletePort(x: Info, port: bytes, dir: bytes)
      requires Valid() && job.Del? && job.port == port && job.dir == dir && pc == DelPort(x)
      modifies this`world, this`now, this`evs, this`pc, this`opening
      ensures Valid() && pc == DelRelease
    {
      var _ := InvokeDel(DelIface(x.id));
      var _ := InvokeDel(RemoveSock(SockPath(dir, port)));
      if x.domain != 0 {
        GcBridgeIfEmpty(x.domain);
      }
    }

    method GcBridgeIfEmpty(bid: Id)
      requires Valid() && (job.Del? || job.Gc?) && pc == Sweep(bid)
      modifies this`world, this`now, this`evs, this`pc, this`opening
      ensures Valid() && pc == Swept(job)
    {
      var l := InvokeSweep(List);
      if !l.Listed? {
        return;
      }
      var empty := IsEmptyBridge(l.l, bid);
      if !empty {
        return;
      }
      // without its gateways the bridge is deletable
      var _ := InvokeSweep(Flush(bid));
      var _ := InvokeSweep(DelIface(bid));
    }

    // ---------- CHECK ----------

    method HandleCheck(sha: bytes -> Digest, att: Attachment, virtio: bool, netns: bytes, dir: bytes) returns (res: Result)
      requires Valid()
      modifies this
      ensures Returned(Check(att, GroutPortName(sha, att), virtio, netns, dir), old(world), res)
    {
      var port := GroutPortName(sha, att);
      Begin(Check(att, port, virtio, netns, dir));

      var l := InvokeCheck(List);
      if !l.Listed? {
        return Err(Listing);
      }
      var x := FindByName(l.l, port);
      if x.None? {
        return Err(PortMissing);
      }
      if virtio {
        var there := InvokeCheck(Stat(SockPath(dir, port)));
        return if there == Present(true) then Ok else Err(SockMissing);
      }
      if netns == [] {
        return Ok;
      }
      var prev := InvokeCheck(ReadPrev);
      if !prev.Ack? {
        return Err(PrevResult);
      }
      var pod := InvokeCheck(VerifyPod(netns, att.ifName));
      return if pod.Ack? then Ok else Err(Verify);
    }

    // ---------- GC ----------

    method HandleGc(sha: bytes -> Digest, bridge: bytes, attachments: seq<Attachment>, dir: bytes) returns (res: Result)
      requires Valid()
      modifies this
      ensures var keep := set a | a in attachments;
              Returned(Gc(bridge, PortNamesOf(sha, keep), keep, dir), old(world), res)
    {
      var keep := set a | a in attachments;
      Begin(Gc(bridge, PortNamesOf(sha, keep), keep, dir));
      res := GcLocked(sha, bridge, attachments, keep, dir);
    }

    method GcLocked(sha: bytes -> Digest, bridge: bytes, attachments: seq<Attachment>, keep: set<Attachment>, dir: bytes)
      returns (res: Result)
      requires Valid() && keep == (set a | a in attachments)
      requires job == Gc(bridge, PortNamesOf(sha, keep), keep, dir) && pc == GcFind
      modifies this`world, this`now, this`evs, this`pc, this`opening
      ensures Valid() && pc == Done(res)
    {
      var l := InvokeGc(List);
      if !l.Listed? {
        return Err(Listing);
      }
      var bid := FindBridgeId(l.l, bridge);
      if bid.Some? {
        var valid := ValidNames(sha, attachments);
        Reap(bid.value, l.l, valid, dir);
      }
      var _ := InvokeGc(Collect(keep));
      return Ok;
    }

    /** The map of valid names, filled one attachment at a time. */
    static method ValidNames(sha: bytes -> Digest, attachments: seq<Attachment>) returns (valid: set<bytes>)
      ensures valid == PortNamesOf(sha, set a | a in attachments)
    {
      valid := {};
      for k := 0 to |attachments|
        invariant valid == set a | a in attachments[..k] :: GroutPortName(sha, a)
      {
        assert attachments[..k + 1] == attachments[..k] + [attachments[k]];
        valid := valid + {GroutPortName(sha, attachments[k])};
      }
      assert attachments[..|attachments|] == attachments;
    }

    /** The reaping loop: it walks the listing taken at the start. */
    method Reap(bid: Id, l: seq<Info>, valid: set<bytes>, dir: bytes)
      requires Valid() && job.Gc? && valid == job.valid && dir == job.dir
      requires pc == GcNext(bid, StaleOf(l, bid, valid), false)
      modifies this`world, this`now, this`evs, this`pc, this`opening
      ensures Valid() && pc == GcIpam
    {
      var reaped := false;
      assert l[0..] == l;
      for k := 0 to |l|
        invariant Valid() && pc == GcNext(bid, StaleOf(l[k..], bid, valid), reaped)
      {
        assert l[k..][0] == l[k] && l[k..][1..] == l[k + 1..];
        var x := l[k];
        if x.domain != bid || !HasPrefix(x.name, PORT_PREFIX) {
          continue;
        }
        if x.name in valid {
          continue;
        }
        ghost var rest := StaleOf(l[k + 1..], bid, valid);
        assert StaleOf(l[k..], bid, valid) == [x] + rest && ([x] + rest)[1..] == rest;
        var gone := ReapPort(bid, x, dir, rest, reaped);
        reaped := reaped || gone;
      }
      if reaped {
        GcBridgeIfEmpty(bid);
      }
    }

    /** One stale port: delete it and, if that worked, its socket. */
    method ReapPort(bid: Id, x: Info, dir: bytes, ghost rest: seq<Info>, ghost reaped: bool) returns (gone: bool)
      requires Valid() && job.Gc? && dir == job.dir && pc == GcReap(bid, x, rest, reaped)
      modifies this`world, this`now, this`evs, this`pc, this`opening
      ensures Valid() && pc == GcNext(bid, rest, reaped || gone)
    {
      var r := InvokeGc(DelIface(x.id));
      if !r.Ack? {
        return false;
      }
      var _ := InvokeGc(RemoveSock(SockPath(dir, x.name)));
      return true;
    }
  }
}
