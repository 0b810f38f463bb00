/** ADD followed by DEL or GC: failed adds, round trips and recovery after a crash. */
module Lifecycle {
  import opened Base
  import opened PortNames
  import opened Grout
  import opened Machine
  import opened Safety
  import opened Cleanup
  import opened Attach

  // ---------- a failed ADD ----------

  /** The bridge may be new, and may hold new gateways; nothing else differs. */
  ghost predicate OnlyBridge(job: Job, t0: Table, t: Table, gws: set<IPNet>)
    requires job.Add?
  {
    && (forall i :: i in t0 && t0[i].name != job.bridge ==> i in t && t[i] == t0[i])
    && (forall i :: i in t0 && t0[i].name == job.bridge ==>
          i in t && t[i] == t0[i].(addrs := t[i].addrs) && t0[i].addrs <= t[i].addrs <= t0[i].addrs + gws)
    && (forall i :: i in t && i !in t0 ==> NewBridge(job, t[i]) && t[i].addrs <= gws)
  }

  /** A failed ADD asks IPAM to release once exactly if the IPAM result was converted and either does not
      make gatewaysFor panic or ensureBridge failed first; otherwise never. Apart from a port that is
      left behind, grout differs at most by the bridge and gateways on it. A port is left behind
      exactly if the rollback's delete was answered with an error, as long as no reply is lost; if
      replies can be lost, only then or after a lost reply to the create. */
  lemma FailedAdd(env: Faults, job: Job, w0: World, evs: seq<Event>)
    requires job.Add? && JobOk(job) && Inv(w0.ifaces) && Legal(env, job, w0, evs)
    requires PcAfter(job, evs).Done? && PcAfter(job, evs).r.Err?
    ensures var stage, w := PcAfter(job, evs).r.stage, WorldAfter(w0, evs);
            var t0, t, undo := w0.ifaces, w.ifaces, UndoReply(job, evs);
            && (undo.Some? <==> stage.MoveLink? || stage.Configure?)
            && (!PortAdded(job, t0, t) ==> OnlyBridge(job, t0, t, Offered(evs)))
            && (forall p :: p in t && p !in t0 && t[p].name == job.port ==>
                  NewPort(job, t[p], t) && OnlyBridge(job, t0, t - {p}, Offered(evs)))
            && (PortAdded(job, t0, t) ==> undo == Some(Failed) || (env.Lossy? && stage.PortAdd?))
            && (undo == Some(Failed) && !env.Lossy? ==> PortAdded(job, t0, t))
            && w.releases == w0.releases + (if Converted(evs) && (!Panics(evs) || stage.EnsureBridge?) then 1 else 0)
            && (stage.GatewayPanic? <==> Panics(evs) && !stage.EnsureBridge?)
  {
    FailedPort(env, job, w0, evs);
    FailedRelease(env, job, w0, evs);
    AddRun(env, job, w0, evs);
    RunSafe(env, job, w0, evs);
    var t0, t := w0.ifaces, WorldAfter(w0, evs).ifaces;
    if !PortAdded(job, t0, t) {
      FrameLess(job, t0, t, Offered(evs));
    }
    forall p | p in t && p !in t0 && t[p].name == job.port
      ensures NewPort(job, t[p], t) && OnlyBridge(job, t0, t - {p}, Offered(evs))
    {
      FrameWithout(job, t0, t, Offered(evs), p);
    }
  }

  lemma FailedPort(env: Faults, job: Job, w0: World, evs: seq<Event>)
    requires job.Add? && JobOk(job) && Inv(w0.ifaces) && Legal(env, job, w0, evs)
    requires PcAfter(job, evs).Done? && PcAfter(job, evs).r.Err?
    ensures var stage, undo := PcAfter(job, evs).r.stage, UndoReply(job, evs);
            var added := PortAdded(job, w0.ifaces, WorldAfter(w0, evs).ifaces);
            && (undo.Some? <==> stage.MoveLink? || stage.Configure?)
            && (added ==> undo == Some(Failed) || (env.Lossy? && stage.PortAdd?))
            && (undo == Some(Failed) && !env.Lossy? ==> added)
  {
    AddTracks(env, job, w0, evs);
    RollbackRun(env, job, w0, evs);
  }

  lemma FailedRelease(env: Faults, job: Job, w0: World, evs: seq<Event>)
    requires job.Add? && JobOk(job) && Inv(w0.ifaces) && Legal(env, job, w0, evs)
    requires PcAfter(job, evs).Done? && PcAfter(job, evs).r.Err?
    ensures var stage, w := PcAfter(job, evs).r.stage, WorldAfter(w0, evs);
            && w.releases == w0.releases + (if Converted(evs) && (!Panics(evs) || stage.EnsureBridge?) then 1 else 0)
            && (stage.GatewayPanic? <==> Panics(evs) && !stage.EnsureBridge?)
            && (stage.IpamAdd? || stage.Convert? <==> !Converted(evs))
            && (stage.IpamAdd? <==> !evs[0].reply.Allocated?)
  {
    AddTracks(env, job, w0, evs);
    OpeningRun(env, job, w0, evs);
  }

  lemma FrameLess(job: Job, t0: Table, t: Table, gws: set<IPNet>)
    requires job.Add? && JobOk(job) && AddFrame(job, t0, t) && OnlyNew(t0, t, gws) && !PortAdded(job, t0, t)
    ensures OnlyBridge(job, t0, t, gws)
  {
    forall i | i in t && i !in t0
      ensures NewBridge(job, t[i]) && t[i].addrs <= gws
    {
      assert t[i].name != job.port;
    }
  }

  lemma FrameWithout(job: Job, t0: Table, t: Table, gws: set<IPNet>, p: Id)
    requires job.Add? && JobOk(job) && Inv(t) && AddFrame(job, t0, t) && OnlyNew(t0, t, gws)
    requires p in t && p !in t0 && t[p].name == job.port
    ensures NewPort(job, t[p], t) && OnlyBridge(job, t0, t - {p}, gws)
  {
    assert NewPort(job, t[p], t);
    FrameUndo(job, World(t0, {}, 0, {}), World(t, {}, 0, {}), p);
    FrameLess(job, t0, t - {p}, gws);
  }

  /** With reliable cleanup a failed ADD leaves no port, and its IPAM allocation is kept exactly
      when IPAM made one whose result could not be converted, or makes gatewaysFor panic and ensureBridge
      did not fail before that. */
  lemma FailedAddReliable(job: Job, w0: World, evs: seq<Event>)
    requires job.Add? && JobOk(job) && Inv(w0.ifaces) && Legal(Reliable, job, w0, evs)
    requires PcAfter(job, evs).Done? && PcAfter(job, evs).r.Err? && job.att !in w0.ipam
    ensures var stage, w := PcAfter(job, evs).r.stage, WorldAfter(w0, evs);
            && !PortAdded(job, w0.ifaces, w.ifaces)
            && evs != []
            && (job.att in w.ipam <==>
                  evs[0].reply.Allocated? && (!Converted(evs) || (Panics(evs) && !stage.EnsureBridge?)))
            && w.ipam - {job.att} == w0.ipam
            && w.socks == w0.socks
  {
    AddTracks(Reliable, job, w0, evs);
    FailedRelease(Reliable, job, w0, evs);
  }

  // ---------- ADD, then DEL ----------

  /** The table after the port ADD made has been deleted again. */
  ghost predicate Restored(t0: Table, t: Table, bridge: bytes, gws: set<IPNet>) {
    && (!NameTaken(t0, bridge) ==> t == t0)
    && (forall b :: b in t0 && t0[b].name == bridge ==>
          if Collectable(t0, b) then t == t0 - {b}
          else t.Keys == t0.Keys && t[b] == t0[b].(addrs := t[b].addrs) && t0[b].addrs <= t[b].addrs <= t0[b].addrs + gws &&
               forall i :: i in t0 && i != b ==> t[i] == t0[i])
  }

  lemma UndoPort(job: Job, t0: Table, t1: Table, p: Id)
    requires job.Add? && JobOk(job) && Inv(t0) && Inv(t1) && AddFrame(job, t0, t1)
    requires p in t1 && p !in t0 && t1[p].name == job.port
    ensures DelTable(t1, job.port) == CollectBridge(t1 - {p}, t1[p].domain)
    ensures t1[p].domain in t1 && t1[t1[p].domain].name == job.bridge
  {
    assert t1 - {p} == Without(t1, job.port);
    assert NameTaken(t1, job.port);
  }

  /** Nothing in t0 can have an interface as its domain that is not there. */
  lemma NoForeignDomain(t0: Table, b: Id)
    requires NoDangling(t0) && b !in t0 && b != 0
    ensures Memberless(t0, b)
  {
  }

  lemma RestoredNew(job: Job, t0: Table, t1: Table, p: Id)
    requires job.Add? && job.port != job.bridge && NoDangling(t0) && UniqueNames(t1) && 0 !in t1 && AddFrame(job, t0, t1)
    requires p in t1 && p !in t0 && t1[p].name == job.port && !NameTaken(t0, job.bridge)
    requires t1[p].domain in t1 && t1[t1[p].domain].name == job.bridge
    ensures CollectBridge(t1 - {p}, t1[p].domain) == t0
  {
    var b := t1[p].domain;
    var t2 := t1 - {p};
    assert b !in t0 && NewBridge(job, t1[b]);
    NoForeignDomain(t0, b);
    assert forall i :: i in t2 <==> i in t0 || i == b;
    assert forall i :: i in t0 ==> t2[i] == t0[i];
    assert Memberless(t2, b);
    assert t2 - {b} == t0;
  }

  lemma RestoredOld(job: Job, t0: Table, t1: Table, gws: set<IPNet>, p: Id, b: Id)
    requires job.Add? && JobOk(job) && Inv(t0) && Inv(t1) && AddFrame(job, t0, t1) && OnlyNew(t0, t1, gws)
    requires p in t1 && p !in t0 && t1[p].name == job.port && b in t0 && t0[b].name == job.bridge
    requires t1[p].domain in t1 && t1[t1[p].domain].name == job.bridge
    ensures Restored(t0, CollectBridge(t1 - {p}, t1[p].domain), job.bridge, gws)
  {
    var t2 := t1 - {p};
    assert t1[p].domain == b;
    assert forall i :: i in t2 ==> i in t0;
    assert t2.Keys == t0.Keys;
    assert Collectable(t2, b) <==> Collectable(t0, b) by {
      assert forall i :: i in t0 ==> t2[i].domain == t0[i].domain && t2[i].kind == t0[i].kind;
    }
    assert Collectable(t0, b) ==> t2 - {b} == t0 - {b};
  }

  /** Round trip and recovery in one: however ADD ended, or wherever it was cut short, a later DEL
      with reliable cleanup removes the port it left and restores the table. If the bridge was
      absent the table returns exactly; if it was empty it is removed; otherwise only gateway
      addresses on it may be new. If ADD left no port, DEL leaves grout as it is, which
      then differs at most by the bridge ADD had just created or found, and gateways on it. */
  lemma AddThenDel(env: Faults, add: Job, w0: World, evs: seq<Event>, del: Job, evs': seq<Event>)
    requires add.Add? && JobOk(add) && Inv(w0.ifaces) && Legal(env, add, w0, evs)
    requires !NameTaken(w0.ifaces, add.port)
    requires del == Del(add.att, add.port, add.dir) && Complete(Reliable, del, WorldAfter(w0, evs), evs')
    ensures PcAfter(del, evs') == Done(Ok)
    ensures var w1 := WorldAfter(w0, evs); var w2 := WorldAfter(w1, evs');
            && !NameTaken(w2.ifaces, add.port)
            && (PcAfter(add, evs) == Done(Ok) ==> PortAdded(add, w0.ifaces, w1.ifaces))
            && (PortAdded(add, w0.ifaces, w1.ifaces) ==> Restored(w0.ifaces, w2.ifaces, add.bridge, Offered(evs)))
            && (!PortAdded(add, w0.ifaces, w1.ifaces) ==>
                  w2.ifaces == w1.ifaces && OnlyBridge(add, w0.ifaces, w1.ifaces, Offered(evs)))
            && w2.ipam == w0.ipam - {add.att}
            && (PortAdded(add, w0.ifaces, w1.ifaces) ==> w2.socks == w0.socks - {SockPath(add.dir, add.port)})
  {
    var w1 := WorldAfter(w0, evs);
    RunSafe(env, add, w0, evs);
    DelExact(del, w1, evs');
    AddThenDelTable(env, add, w0, evs);
    AddIpam(env, add, w0, evs);
    AddSocks(env, add, w0, evs);
  }

  /** The table half of it. */
  lemma AddThenDelTable(env: Faults, add: Job, w0: World, evs: seq<Event>)
    requires add.Add? && JobOk(add) && Inv(w0.ifaces) && Legal(env, add, w0, evs)
    requires !NameTaken(w0.ifaces, add.port)
    ensures var t0, t1 := w0.ifaces, WorldAfter(w0, evs).ifaces;
            && !NameTaken(DelTable(t1, add.port), add.port)
            && (NameTaken(t1, add.port) <==> PortAdded(add, t0, t1))
            && (PortAdded(add, t0, t1) ==> Restored(t0, DelTable(t1, add.port), add.bridge, Offered(evs)))
            && (!PortAdded(add, t0, t1) ==> DelTable(t1, add.port) == t1 && OnlyBridge(add, t0, t1, Offered(evs)))
  {
    var t0, t1 := w0.ifaces, WorldAfter(w0, evs).ifaces;
    AddRun(env, add, w0, evs);
    RunSafe(env, add, w0, evs);
    assert NameTaken(t1, add.port) <==> PortAdded(add, t0, t1);
    DelGone(t1, add.port);
    if PortAdded(add, t0, t1) {
      DelRestores(add, t0, t1, Offered(evs));
    } else {
      FrameLess(add, t0, t1, Offered(evs));
    }
  }

  lemma AddSocks(env: Faults, job: Job, w0: World, evs: seq<Event>)
    requires job.Add? && JobOk(job) && Inv(w0.ifaces) && Legal(env, job, w0, evs)
    ensures WorldAfter(w0, evs).socks - {SockPath(job.dir, job.port)} == w0.socks - {SockPath(job.dir, job.port)}
    ensures PcAfter(job, evs) == Done(Ok) ==> PortAdded(job, w0.ifaces, WorldAfter(w0, evs).ifaces)
  {
    AddTracks(env, job, w0, evs);
  }

  lemma DelGone(t: Table, port: bytes)
    ensures !NameTaken(DelTable(t, port), port)
  {
  }

  lemma DelRestores(add: Job, t0: Table, t1: Table, gws: set<IPNet>)
    requires add.Add? && JobOk(add) && Inv(t0) && Inv(t1) && AddFrame(add, t0, t1) && OnlyNew(t0, t1, gws) && PortAdded(add, t0, t1)
    ensures Restored(t0, DelTable(t1, add.port), add.bridge, gws)
  {
    var p :| p in t1 && p !in t0 && t1[p].name == add.port;
    UndoPort(add, t0, t1, p);
    if !NameTaken(t0, add.bridge) {
      RestoredNew(add, t0, t1, p);
    } else {
      var b :| b in t0 && t0[b].name == add.bridge;
      RestoredOld(add, t0, t1, gws, p, b);
    }
  }

  lemma AddIpam(env: Faults, job: Job, w0: World, evs: seq<Event>)
    requires job.Add? && JobOk(job) && Inv(w0.ifaces) && Legal(env, job, w0, evs)
    ensures WorldAfter(w0, evs).ipam - {job.att} == w0.ipam - {job.att}
  {
    AddTracks(env, job, w0, evs);
  }

  /** A second DEL changes nothing in grout. */
  lemma DelTwice(job: Job, w0: World, evs: seq<Event>, evs': seq<Event>)
    requires job.Del? && JobOk(job) && Inv(w0.ifaces) && Complete(Reliable, job, w0, evs)
    requires Complete(Reliable, job, WorldAfter(w0, evs), evs')
    ensures WorldAfter(WorldAfter(w0, evs), evs').ifaces == WorldAfter(w0, evs).ifaces
  {
    RunSafe(Reliable, job, w0, evs);
    DelExact(job, w0, evs);
    DelExact(job, WorldAfter(w0, evs), evs');
  }

  // ---------- ADD, then GC ----------

  /** Nothing but a bridge bears the name. */
  ghost predicate NameIsBridge(t: Table, name: bytes) {
    forall i :: i in t && t[i].name == name ==> t[i].kind == KIND_BRIDGE
  }

  /** ensureBridge falls back to any interface of the configured name. The new port ends up on a
      bridge exactly if that name was not already borne by something else. */
  lemma DomainIsBridge(env: Faults, job: Job, w0: World, evs: seq<Event>, p: Id)
    requires job.Add? && JobOk(job) && Inv(w0.ifaces) && Legal(env, job, w0, evs)
    requires var t := WorldAfter(w0, evs).ifaces; p in t && p !in w0.ifaces && t[p].name == job.port
    ensures var t := WorldAfter(w0, evs).ifaces;
            && t[p].domain in t && t[t[p].domain].name == job.bridge
            && (t[t[p].domain].kind == KIND_BRIDGE <==> NameIsBridge(w0.ifaces, job.bridge))
  {
    AddTracks(env, job, w0, evs);
    RunSafe(env, job, w0, evs);
    var t := WorldAfter(w0, evs).ifaces;
    assert NewPort(job, t[p], t);
    if i :| i in w0.ifaces && w0.ifaces[i].name == job.bridge {
      assert i in t && t[i].name == job.bridge && i == t[p].domain;
    }
  }

  /** Whatever port ADD left, a reliable GC of its network that does not list the attachment removes it
      exactly if nothing but a bridge bore the bridge's name. Then it keeps the bridge exactly if some
      member is not a stale port; otherwise it leaves grout as it is. */
  lemma AddThenGc(env: Faults, add: Job, w0: World, evs: seq<Event>, gc: Job, evs': seq<Event>)
    requires add.Add? && JobOk(add) && Inv(w0.ifaces) && Legal(env, add, w0, evs)
    requires PortAdded(add, w0.ifaces, WorldAfter(w0, evs).ifaces)
    requires gc.Gc? && gc.bridge == add.bridge && add.port !in gc.valid
    requires Complete(Reliable, gc, WorldAfter(w0, evs), evs')
    ensures var t1 := WorldAfter(w0, evs).ifaces; var t2 := WorldAfter(WorldAfter(w0, evs), evs').ifaces;
            && (!NameTaken(t2, add.port) <==> NameIsBridge(w0.ifaces, add.bridge))
            && (!NameIsBridge(w0.ifaces, add.bridge) ==> t2 == t1)
            && (NameIsBridge(w0.ifaces, add.bridge) ==>
                  exists b :: IsNet(t1, b, gc.bridge) && Retained(t1, t2, b, gc.valid))
  {
    var t1 := WorldAfter(w0, evs).ifaces;
    RunSafe(env, add, w0, evs);
    GcExact(gc, WorldAfter(w0, evs), evs');
    var p :| p in t1 && p !in w0.ifaces && t1[p].name == add.port;
    DomainIsBridge(env, add, w0, evs, p);
    var b := t1[p].domain;
    if NameIsBridge(w0.ifaces, add.bridge) {
      assert StaleAt(t1, b, gc.valid, p);
      GcMeaning(t1, b, gc.bridge, gc.valid, p);
      OnlyBearer(t1, GcTable(t1, gc.bridge, gc.valid), p);
    } else {
      assert forall i :: i in t1 && t1[i].name == gc.bridge ==> i == b;
      assert NameTaken(t1, add.port);
    }
  }

  lemma OnlyBearer(t: Table, t': Table, p: Id)
    requires UniqueNames(t) && p in t && p !in t' && forall i :: i in t' ==> i in t && t'[i] == t[i]
    ensures !NameTaken(t', t[p].name)
  {
  }

  /** Exactly the stale ports of b are gone, and b exactly if nothing else was on it. */
  ghost predicate Retained(t: Table, t': Table, b: Id, valid: set<bytes>) {
    && (b in t' <==> exists j :: j in t && t[j].domain == b && !StaleAt(t, b, valid, j))
    && (forall i :: i in t && i != b ==> (i in t' <==> !StaleAt(t, b, valid, i)))
    && (forall i :: i in t' ==> i in t && t'[i] == t[i])
  }

  /** GcTable read off: with at least one stale port, exactly the stale ports go, and the bridge
      goes exactly when nothing else was on it. */
  lemma GcMeaning(t: Table, b: Id, bridge: bytes, valid: set<bytes>, p: Id)
    requires Inv(t) && IsNet(t, b, bridge) && StaleAt(t, b, valid, p)
    ensures Retained(t, GcTable(t, bridge, valid), b, valid)
  {
    var kept := Reaped(t, b, valid, []);
    assert p !in kept && kept != t;
    assert GcTable(t, bridge, valid) == CollectBridge(kept, b);
    assert !PortShaped(t[b].name) by {
      assert t[p].domain == b && !Memberless(t, b);
    }
    assert !StaleAt(t, b, valid, b) && b in kept;
    if exists j :: j in t && t[j].domain == b && !StaleAt(t, b, valid, j) {
      var j :| j in t && t[j].domain == b && !StaleAt(t, b, valid, j);
      assert j in kept && kept[j].domain == b;
    }
  }
}
