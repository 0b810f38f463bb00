/** The plugin keeps no node-local store; this module shows that grout's table stands in for one.
    The reference is a map from attachment to bridge name. */
module RefStore {
  import opened Base
  import opened PortNames
  import opened Grout
  import opened Machine
  import opened Safety
  import opened Cleanup
  import opened Attach

  type Refs = map<Attachment, bytes>

  /** One handler's turn with the lock: what it was asked and the answers it got. */
  datatype Turn = Turn(job: Job, evs: seq<Event>)

  function WorldOf(w0: World, h: seq<Turn>): World {
    if h == [] then w0 else WorldAfter(WorldOf(w0, h[..|h| - 1]), h[|h| - 1].evs)
  }

  /** A serial history: each turn runs, perhaps only part of the way, in the world its predecessors left. */
  ghost predicate Serial(env: Faults, w0: World, h: seq<Turn>) {
    h == [] ||
    (Serial(env, w0, h[..|h| - 1]) && Legal(env, h[|h| - 1].job, WorldOf(w0, h[..|h| - 1]), h[|h| - 1].evs))
  }

  /** A naming of the attachments in use: injective, and of the shape of port names. */
  ghost predicate Naming(name: Attachment -> bytes, used: set<Attachment>) {
    && (forall a :: a in used ==> PortShaped(name(a)))
    && (forall a, b :: a in used && b in used && name(a) == name(b) ==> a == b)
  }

  /** groutPortName is such a naming exactly if any two attachments in use have digests that differ
      within their first 55 bits. */
  lemma NamingExact(sha: bytes -> Digest, used: set<Attachment>)
    ensures Naming((a: Attachment) => GroutPortName(sha, a), used)
            <==> forall a, b :: a in used && b in used && a != b ==> Apart(sha(Key(a)), sha(Key(b)))
  {
    forall a, b | a in used && b in used
      ensures PortShaped(GroutPortName(sha, a))
      ensures GroutPortName(sha, a) == GroutPortName(sha, b) <==> !Apart(sha(Key(a)), sha(Key(b)))
    {
      PortNameShape(sha(Key(a)));
      PortNameExact(sha(Key(a)), sha(Key(b)));
    }
  }

  ghost predicate Apart(d: Digest, e: Digest) {
    exists j :: 0 <= j < 55 && Bit(d, j) != Bit(e, j)
  }

  /** The job speaks about attachments in use, by their names, on configured bridges. */
  ghost predicate Speaks(name: Attachment -> bytes, used: set<Attachment>, bridges: set<bytes>, job: Job) {
    match job
    case Add(att, port, bridge, _, _, _, _) => att in used && port == name(att) && bridge in bridges
    case Del(att, port, _) => att in used && port == name(att)
    case Check(att, port, _, _, _) => att in used && port == name(att)
    case Gc(bridge, valid, keep, _) => keep <= used && valid == (set a | a in keep :: name(a)) && bridge in bridges
  }

  /** The table is sound, configured bridge names belong to bridges, and every port is on one. */
  ghost predicate Ready(t: Table, bridges: set<bytes>) {
    && Inv(t)
    && (forall b :: b in bridges ==> !PortShaped(b))
    && (forall i :: i in t && t[i].name in bridges ==> t[i].kind == KIND_BRIDGE)
    && (forall i :: i in t && PortShaped(t[i].name) ==> t[i].domain in t && t[t[i].domain].kind == KIND_BRIDGE)
  }

  /** The name of the domain of the interface called `port`. */
  ghost function Home(t: Table, port: bytes): bytes
    requires NameTaken(t, port)
  {
    var p :| p in t && t[p].name == port;
    if t[p].domain in t then t[t[p].domain].name else []
  }

  /** What the table says about the attachments in use. */
  ghost function RefsOf(name: Attachment -> bytes, used: set<Attachment>, t: Table): Refs {
    map a | a in used && NameTaken(t, name(a)) :: Home(t, name(a))
  }

  /** The reference store's operations, given what the handler returned. */
  ghost function RefStep(s: Refs, job: Job, r: Result): Refs {
    match job
    case Add(att, _, bridge, _, _, _, _) => if r.Ok? then s[att := bridge] else s
    case Del(att, _, _) => if r.Ok? then s - {att} else s
    case Check(_, _, _, _, _) => s
    case Gc(bridge, _, keep, _) => if r.Ok? then map a | a in s && (s[a] == bridge ==> a in keep) :: s[a] else s
  }

  lemma HomeIs(t: Table, p: Id)
    requires UniqueNames(t) && p in t && t[p].domain in t
    ensures NameTaken(t, t[p].name) && Home(t, t[p].name) == t[t[p].domain].name
  {
  }

  lemma RefsAre(name: Attachment -> bytes, used: set<Attachment>, t: Table, s: Refs)
    requires s.Keys <= used
    requires forall a :: a in used ==> (a in s <==> NameTaken(t, name(a)))
    requires forall a :: a in s && NameTaken(t, name(a)) ==> s[a] == Home(t, name(a))
    ensures RefsOf(name, used, t) == s
  {
  }

  // ---------- DEL ----------

  /** t' keeps some of t, and keeps the domain of every port it keeps. */
  ghost predicate Part(t: Table, t': Table) {
    && t'.Keys <= t.Keys
    && (forall i :: i in t' ==> t'[i] == t[i])
    && (forall i :: i in t' && PortShaped(t[i].name) ==> t[i].domain in t')
  }

  lemma PartReady(t: Table, t': Table, bridges: set<bytes>)
    requires Ready(t, bridges) && Part(t, t') && Inv(t')
    ensures Ready(t', bridges)
    ensures forall n :: PortShaped(n) && NameTaken(t', n) ==> NameTaken(t, n) && Home(t', n) == Home(t, n)
  {
    forall n | PortShaped(n) && NameTaken(t', n)
      ensures NameTaken(t, n) && Home(t', n) == Home(t, n)
    {
      var p :| p in t' && t'[p].name == n;
      HomeIs(t, p);
      HomeIs(t', p);
    }
  }

  lemma CollectPart(t: Table, t1: Table, b: Id, bridges: set<bytes>)
    requires Ready(t, bridges) && Part(t, t1)
    ensures Part(t, CollectBridge(t1, b))
  {
  }

  lemma DelParts(t: Table, port: bytes, bridges: set<bytes>)
    requires Ready(t, bridges) && PortShaped(port)
    ensures Part(t, DelTable(t, port))
    ensures forall n :: PortShaped(n) ==> (NameTaken(DelTable(t, port), n) <==> NameTaken(t, n) && n != port)
  {
    if NameTaken(t, port) {
      var p :| p in t && t[p].name == port;
      var t1 := Without(t, port);
      assert Part(t, t1);
      CollectPart(t, t1, t[p].domain, bridges);
      assert DelTable(t, port) == CollectBridge(t1, t[p].domain);
      CollectKeepsPorts(t, t1, p, bridges);
    }
  }

  lemma CollectKeepsPorts(t: Table, t1: Table, p: Id, bridges: set<bytes>)
    requires Ready(t, bridges) && p in t && PortShaped(t[p].name) && t1 == Without(t, t[p].name)
    ensures forall n :: PortShaped(n) ==>
              (NameTaken(CollectBridge(t1, t[p].domain), n) <==> NameTaken(t, n) && n != t[p].name)
  {
    var b, port := t[p].domain, t[p].name;
    var t2 := CollectBridge(t1, b);
    assert !PortShaped(t[b].name);
    forall n | PortShaped(n) && NameTaken(t, n) && n != port
      ensures NameTaken(t2, n)
    {
      var q :| q in t && t[q].name == n;
      assert q in t2 && t2[q].name == n;
    }
  }

  lemma DelRefs(name: Attachment -> bytes, used: set<Attachment>, bridges: set<bytes>, job: Job, t: Table, t': Table)
    requires Naming(name, used) && Ready(t, bridges) && job.Del? && Speaks(name, used, bridges, job)
    requires t' == DelTable(t, job.port) && Inv(t')
    ensures Ready(t', bridges) && RefsOf(name, used, t') == RefStep(RefsOf(name, used, t), job, Ok)
  {
    DelParts(t, job.port, bridges);
    PartReady(t, t', bridges);
    RefsAre(name, used, t', RefsOf(name, used, t) - {job.att});
  }

  // ---------- GC ----------

  lemma GcParts(t: Table, bridge: bytes, valid: set<bytes>, bridges: set<bytes>)
    requires Ready(t, bridges) && bridge in bridges
    ensures Part(t, GcTable(t, bridge, valid))
    ensures forall n :: PortShaped(n) ==>
              (NameTaken(GcTable(t, bridge, valid), n) <==> NameTaken(t, n) && (Home(t, n) == bridge ==> n in valid))
  {
    if b :| IsNet(t, b, bridge) {
      ReapedParts(t, b, bridge, valid, bridges);
      CollectedParts(t, Reaped(t, b, valid, []), b, bridges);
    } else {
      NoNetNoHome(t, bridge, bridges);
    }
  }

  /** Collecting a bridge removes no port. */
  lemma CollectedParts(t: Table, kept: Table, b: Id, bridges: set<bytes>)
    requires Ready(t, bridges) && Part(t, kept) && b in t && !PortShaped(t[b].name)
    ensures Part(t, CollectBridge(kept, b))
    ensures forall n :: PortShaped(n) ==> (NameTaken(CollectBridge(kept, b), n) <==> NameTaken(kept, n))
  {
    CollectPart(t, kept, b, bridges);
    var t' := CollectBridge(kept, b);
    forall n | PortShaped(n) && NameTaken(kept, n)
      ensures NameTaken(t', n)
    {
      var q :| q in kept && kept[q].name == n;
      assert q in t' && t'[q].name == n;
    }
  }

  lemma NoNetNoHome(t: Table, bridge: bytes, bridges: set<bytes>)
    requires Ready(t, bridges) && forall b :: !IsNet(t, b, bridge)
    ensures forall n :: PortShaped(n) && NameTaken(t, n) ==> Home(t, n) != bridge
  {
    forall n | PortShaped(n) && NameTaken(t, n)
      ensures Home(t, n) != bridge
    {
      var p :| p in t && t[p].name == n;
      HomeIs(t, p);
      assert !IsNet(t, t[p].domain, bridge);
    }
  }

  lemma ReapedParts(t: Table, b: Id, bridge: bytes, valid: set<bytes>, bridges: set<bytes>)
    requires Ready(t, bridges) && bridge in bridges && IsNet(t, b, bridge)
    ensures var kept := Reaped(t, b, valid, []);
            && Part(t, kept)
            && forall n :: PortShaped(n) ==>
                 (NameTaken(kept, n) <==> NameTaken(t, n) && (Home(t, n) == bridge ==> n in valid))
  {
    var kept := Reaped(t, b, valid, []);
    forall i | i in t && PortShaped(t[i].name)
      ensures t[i].domain in kept
    {
      assert !PortShaped(t[t[i].domain].name) && !StaleAt(t, b, valid, t[i].domain);
    }
    forall n | PortShaped(n) && NameTaken(t, n)
      ensures NameTaken(kept, n) <==> (Home(t, n) == bridge ==> n in valid)
    {
      var p :| p in t && t[p].name == n;
      HomeIs(t, p);
      assert Home(t, n) == bridge <==> t[p].domain == b;
      assert p in kept ==> kept[p].name == n;
      assert StaleAt(t, b, valid, p) <==> t[p].domain == b && n !in valid;
    }
  }

  lemma GcRefs(name: Attachment -> bytes, used: set<Attachment>, bridges: set<bytes>, job: Job, t: Table, t': Table)
    requires Naming(name, used) && Ready(t, bridges) && job.Gc? && Speaks(name, used, bridges, job)
    requires t' == GcTable(t, job.bridge, job.valid) && Inv(t')
    ensures Ready(t', bridges) && RefsOf(name, used, t') == RefStep(RefsOf(name, used, t), job, Ok)
  {
    GcParts(t, job.bridge, job.valid, bridges);
    PartReady(t, t', bridges);
    assert forall a :: a in used ==> (name(a) in job.valid <==> a in job.keep);
    RefsAre(name, used, t', RefStep(RefsOf(name, used, t), job, Ok));
  }

  /** GC is scoped by bridge, not by network: a port survives exactly if it is on another bridge
      or its name is listed, whichever network it was added for. */
  lemma GcScope(bridges: set<bytes>, job: Job, w0: World, evs: seq<Event>, port: bytes)
    requires job.Gc? && job.bridge in bridges && Ready(w0.ifaces, bridges) && Complete(Reliable, job, w0, evs)
    requires PortShaped(port) && NameTaken(w0.ifaces, port)
    ensures NameTaken(WorldAfter(w0, evs).ifaces, port) <==> Home(w0.ifaces, port) != job.bridge || port in job.valid
  {
    GcExact(job, w0, evs);
    GcParts(w0.ifaces, job.bridge, job.valid, bridges);
  }

  // ---------- ADD ----------

  lemma AddReady(job: Job, t: Table, t': Table, bridges: set<bytes>)
    requires job.Add? && JobOk(job) && job.bridge in bridges && Ready(t, bridges) && Inv(t') && AddFrame(job, t, t')
    ensures Ready(t', bridges)
  {
  }

  lemma OldHome(job: Job, t: Table, t': Table, bridges: set<bytes>, n: bytes)
    requires job.Add? && Ready(t, bridges) && UniqueNames(t') && AddFrame(job, t, t') && PortShaped(n) && NameTaken(t, n)
    ensures NameTaken(t', n) && Home(t', n) == Home(t, n)
  {
    var p :| p in t && t[p].name == n;
    assert p in t' && t'[p].name == n;
    HomeIs(t, p);
    HomeIs(t', p);
  }

  lemma NewHome(job: Job, t: Table, t': Table)
    requires job.Add? && JobOk(job) && UniqueNames(t') && AddFrame(job, t, t') && PortAdded(job, t, t')
    ensures NameTaken(t', job.port) && Home(t', job.port) == job.bridge
  {
    var p :| p in t' && p !in t && t'[p].name == job.port;
    HomeIs(t', p);
  }

  lemma AddHomes(job: Job, t: Table, t': Table, bridges: set<bytes>, n: bytes)
    requires job.Add? && JobOk(job) && Ready(t, bridges) && UniqueNames(t') && AddFrame(job, t, t') && PortShaped(n)
    ensures NameTaken(t', n) <==> NameTaken(t, n) || (n == job.port && PortAdded(job, t, t'))
    ensures NameTaken(t, n) ==> Home(t', n) == Home(t, n)
    ensures PortAdded(job, t, t') && n == job.port ==> Home(t', n) == job.bridge
  {
    if NameTaken(t, n) {
      OldHome(job, t, t', bridges, n);
    }
    if PortAdded(job, t, t') && n == job.port {
      NewHome(job, t, t');
    }
  }

  lemma AddRefs(name: Attachment -> bytes, used: set<Attachment>, bridges: set<bytes>, job: Job, t: Table, t': Table)
    requires Naming(name, used) && Ready(t, bridges) && job.Add? && Speaks(name, used, bridges, job)
    requires Inv(t') && AddFrame(job, t, t')
    ensures Ready(t', bridges)
    ensures RefsOf(name, used, t') == RefStep(RefsOf(name, used, t), job, if PortAdded(job, t, t') then Ok else Err(PortAdd))
  {
    AddReady(job, t, t', bridges);
    forall a | a in used
      ensures Moved(name, job, t, t', PortAdded(job, t, t'), a)
    {
      AddHomes(job, t, t', bridges, name(a));
      assert name(a) == job.port <==> a == job.att;
    }
    MovedRefs(name, used, job, t, t', PortAdded(job, t, t'));
  }

  /** Where a's port is after an ADD that did or did not add its own. */
  ghost predicate Moved(name: Attachment -> bytes, job: Job, t: Table, t': Table, added: bool, a: Attachment)
    requires job.Add?
  {
    && (NameTaken(t', name(a)) <==> NameTaken(t, name(a)) || (a == job.att && added))
    && (NameTaken(t, name(a)) ==> Home(t', name(a)) == Home(t, name(a)))
    && (added && a == job.att ==> Home(t', name(a)) == job.bridge)
  }

  lemma MovedRefs(name: Attachment -> bytes, used: set<Attachment>, job: Job, t: Table, t': Table, added: bool)
    requires job.Add? && job.att in used && forall a :: a in used ==> Moved(name, job, t, t', added, a)
    ensures RefsOf(name, used, t') == RefStep(RefsOf(name, used, t), job, if added then Ok else Err(PortAdd))
  {
    RefsAre(name, used, t', RefStep(RefsOf(name, used, t), job, if added then Ok else Err(PortAdd)));
  }

  // ---------- CHECK ----------

  ghost predicate CheckAt(job: Job, w0: World, pc: Pc, w: World)
    requires job.Check?
  {
    && w == w0
    && (pc == Done(Err(PortMissing)) ==> !NameTaken(w0.ifaces, job.port))
    && (!pc.CheckFind? && pc != Done(Err(Listing)) && pc != Done(Err(PortMissing)) ==> NameTaken(w0.ifaces, job.port))
  }

  lemma CheckTracks(env: Faults, job: Job, w0: World, pc: Pc, r: Reply, w': World)
    requires job.Check? && CheckPc(pc) && CheckAt(job, w0, pc, w0) && Answers(env, CheckCall(job, pc), w0, r, w')
    ensures CheckAt(job, w0, ResumeCheck(job, pc, r), w')
    ensures env.Reliable? ==> ResumeCheck(job, pc, r) != Done(Err(Listing))
  {
    if pc.CheckFind? && r.Listed? {
      CheckLooks(r.l, w0.ifaces, job.port);
    }
  }

  lemma {:induction false} CheckRun(env: Faults, job: Job, w0: World, evs: seq<Event>)
    requires job.Check? && Legal(env, job, w0, evs)
    ensures CheckAt(job, w0, PcAfter(job, evs), WorldAfter(w0, evs))
    ensures env.Reliable? ==> PcAfter(job, evs) != Done(Err(Listing))
  {
    if evs != [] {
      var init, e := evs[..|evs| - 1], evs[|evs| - 1];
      CheckRun(env, job, w0, init);
      CheckTracks(env, job, w0, PcAfter(job, init), e.reply, e.after);
    }
  }

  lemma CheckLooks(l: seq<Info>, t: Table, port: bytes)
    requires IsListing(l, t)
    ensures FindNamed(l, port).Some? <==> NameTaken(t, port)
  {
    if FindNamed(l, port).None? {
      forall i | i in t
        ensures t[i].name != port
      {
        assert InfoOf(i, t[i]) in l;
      }
    }
  }

  /** CHECK changes nothing, and its grout lookup fails exactly for attachments outside the store. */
  lemma CheckLookup(name: Attachment -> bytes, used: set<Attachment>, bridges: set<bytes>, job: Job, w0: World, evs: seq<Event>)
    requires job.Check? && Speaks(name, used, bridges, job) && Complete(Reliable, job, w0, evs)
    ensures WorldAfter(w0, evs) == w0
    ensures PcAfter(job, evs) == Done(Err(PortMissing)) <==> job.att !in RefsOf(name, used, w0.ifaces)
  {
    CheckRun(Reliable, job, w0, evs);
  }

  // ---------- the refinement ----------

  /** One completed handler, with reliable cleanup, does to the table what RefStep does to the store. */
  ghost predicate Commutes(name: Attachment -> bytes, used: set<Attachment>, bridges: set<bytes>, job: Job, w0: World, evs: seq<Event>)
    requires PcAfter(job, evs).Done?
  {
    var t' := WorldAfter(w0, evs).ifaces;
    Ready(t', bridges) && RefsOf(name, used, t') == RefStep(RefsOf(name, used, w0.ifaces), job, PcAfter(job, evs).r)
  }

  lemma AddRefines(name: Attachment -> bytes, used: set<Attachment>, bridges: set<bytes>, job: Job, w0: World, evs: seq<Event>)
    requires Naming(name, used) && Ready(w0.ifaces, bridges) && job.Add? && Speaks(name, used, bridges, job)
    requires Complete(Reliable, job, w0, evs)
    ensures Commutes(name, used, bridges, job, w0, evs)
  {
    RunSafe(Reliable, job, w0, evs);
    AddTracks(Reliable, job, w0, evs);
    AddRefs(name, used, bridges, job, w0.ifaces, WorldAfter(w0, evs).ifaces);
    var r := PcAfter(job, evs).r;
    assert PortAdded(job, w0.ifaces, WorldAfter(w0, evs).ifaces) <==> r.Ok? by {
      if r.Err? && (r.stage.IpamAdd? || r.stage.Convert?) {
        assert WorldAfter(w0, evs).ifaces == w0.ifaces;
      }
    }
  }

  lemma DelRefines(name: Attachment -> bytes, used: set<Attachment>, bridges: set<bytes>, job: Job, w0: World, evs: seq<Event>)
    requires Naming(name, used) && Ready(w0.ifaces, bridges) && job.Del? && Speaks(name, used, bridges, job)
    requires Complete(Reliable, job, w0, evs)
    ensures Commutes(name, used, bridges, job, w0, evs)
  {
    RunSafe(Reliable, job, w0, evs);
    DelExact(job, w0, evs);
    DelRefs(name, used, bridges, job, w0.ifaces, WorldAfter(w0, evs).ifaces);
  }

  lemma GcRefines(name: Attachment -> bytes, used: set<Attachment>, bridges: set<bytes>, job: Job, w0: World, evs: seq<Event>)
    requires Naming(name, used) && Ready(w0.ifaces, bridges) && job.Gc? && Speaks(name, used, bridges, job)
    requires Complete(Reliable, job, w0, evs)
    ensures Commutes(name, used, bridges, job, w0, evs)
  {
    RunSafe(Reliable, job, w0, evs);
    GcExact(job, w0, evs);
    GcRefs(name, used, bridges, job, w0.ifaces, WorldAfter(w0, evs).ifaces);
  }

  lemma TurnRefines(name: Attachment -> bytes, used: set<Attachment>, bridges: set<bytes>, job: Job, w0: World, evs: seq<Event>)
    requires Naming(name, used) && Ready(w0.ifaces, bridges) && Speaks(name, used, bridges, job)
    requires Complete(Reliable, job, w0, evs)
    ensures Commutes(name, used, bridges, job, w0, evs)
  {
    match job {
      case Add(_, _, _, _, _, _, _) => AddRefines(name, used, bridges, job, w0, evs);
      case Del(_, _, _) => DelRefines(name, used, bridges, job, w0, evs);
      case Check(_, _, _, _, _) => CheckLookup(name, used, bridges, job, w0, evs);
      case Gc(_, _, _, _) => GcRefines(name, used, bridges, job, w0, evs);
    }
  }

  ghost function Replay(s: Refs, h: seq<Turn>): Refs {
    if h == [] then s
    else
      var pc := PcAfter(h[|h| - 1].job, h[|h| - 1].evs);
      if pc.Done? then RefStep(Replay(s, h[..|h| - 1]), h[|h| - 1].job, pc.r) else Replay(s, h[..|h| - 1])
  }

  ghost predicate AllComplete(h: seq<Turn>) {
    forall k :: 0 <= k < |h| ==> PcAfter(h[k].job, h[k].evs).Done?
  }

  /** Over every serial history of completed handlers with reliable cleanup, grout's table and a
      reference store driven by the same calls agree, whatever else failed. */
  lemma {:induction false} RefStoreRefines(name: Attachment -> bytes, used: set<Attachment>, bridges: set<bytes>, w0: World, h: seq<Turn>)
    requires Naming(name, used) && Ready(w0.ifaces, bridges) && Serial(Reliable, w0, h) && AllComplete(h)
    requires forall k :: 0 <= k < |h| ==> Speaks(name, used, bridges, h[k].job)
    ensures Ready(WorldOf(w0, h).ifaces, bridges)
    ensures RefsOf(name, used, WorldOf(w0, h).ifaces) == Replay(RefsOf(name, used, w0.ifaces), h)
  {
    if h != [] {
      RefStoreRefines(name, used, bridges, w0, h[..|h| - 1]);
      TurnRefines(name, used, bridges, h[|h| - 1].job, WorldOf(w0, h[..|h| - 1]), h[|h| - 1].evs);
    }
  }

  lemma {:induction false} SerialPrefix(env: Faults, w0: World, h: seq<Turn>, k: nat)
    requires Serial(env, w0, h) && k <= |h|
    ensures Serial(env, w0, h[..k])
    ensures k < |h| ==> Legal(env, h[k].job, WorldOf(w0, h[..k]), h[k].evs)
  {
    if k < |h| {
      SerialPrefix(env, w0, h[..|h| - 1], if k == |h| - 1 then 0 else k);
      assert k < |h| - 1 ==> h[..|h| - 1][..k] == h[..k];
    } else {
      assert h[..k] == h;
    }
  }

  /** In any such history CHECK reports the port missing exactly when the reference store,
      at that moment, does not hold the attachment. */
  lemma CheckAgrees(name: Attachment -> bytes, used: set<Attachment>, bridges: set<bytes>, w0: World, h: seq<Turn>, k: nat)
    requires Naming(name, used) && Ready(w0.ifaces, bridges) && Serial(Reliable, w0, h) && AllComplete(h)
    requires forall j :: 0 <= j < |h| ==> Speaks(name, used, bridges, h[j].job)
    requires k < |h| && h[k].job.Check?
    ensures PcAfter(h[k].job, h[k].evs) == Done(Err(PortMissing))
            <==> h[k].job.att !in Replay(RefsOf(name, used, w0.ifaces), h[..k])
  {
    SerialPrefix(Reliable, w0, h, k);
    RefStoreRefines(name, used, bridges, w0, h[..k]);
    CheckLookup(name, used, bridges, h[k].job, WorldOf(w0, h[..k]), h[k].evs);
  }
}
