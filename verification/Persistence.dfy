/** What is in grout stays there: in every mode, over every history with handlers cut short anywhere. */
module Persistence {
  import opened Base
  import opened PortNames
  import opened Grout
  import opened Machine
  import opened Safety
  import opened Cleanup
  import opened Attach
  import opened RefStore

  /** The job is a DEL of p's name, or a GC of p's bridge that does not list p. */
  ghost predicate Threatens(job: Job, t: Table, p: Id)
    requires p in t
  {
    || (job.Del? && job.port == t[p].name)
    || (job.Gc? && IsNet(t, t[p].domain, job.bridge) && t[p].name !in job.valid)
  }

  /** p is as it was, and so is what it is a member of, up to addresses. */
  ghost predicate Unmoved(t0: Table, t: Table, p: Id)
    requires p in t0
  {
    && p in t && t[p] == t0[p]
    && (t0[p].domain in t0 ==>
          var d := t0[p].domain; d in t && t[d] == t0[d].(addrs := t[d].addrs))
  }

  lemma AddKeeps(env: Faults, job: Job, w0: World, evs: seq<Event>, p: Id)
    requires job.Add? && JobOk(job) && Inv(w0.ifaces) && Legal(env, job, w0, evs)
    requires p in w0.ifaces && PortShaped(w0.ifaces[p].name)
    ensures Unmoved(w0.ifaces, WorldAfter(w0, evs).ifaces, p)
  {
    AddTracks(env, job, w0, evs);
  }

  lemma DelKeeps(env: Faults, job: Job, w0: World, evs: seq<Event>, p: Id)
    requires job.Del? && JobOk(job) && Inv(w0.ifaces) && Legal(env, job, w0, evs)
    requires p in w0.ifaces && PortShaped(w0.ifaces[p].name) && w0.ifaces[p].name != job.port
    ensures Unmoved(w0.ifaces, WorldAfter(w0, evs).ifaces, p)
  {
    var t0 := w0.ifaces;
    DelSafety(env, job, w0, evs, p);
    assert Memberless(t0, p);
    var d := t0[p].domain;
    if d in t0 {
      assert t0[d].name != job.port;
      DelSafety(env, job, w0, evs, d);
    }
  }

  /** What has a member is no port, so GC does not take it for a stale one. */
  lemma DomainNotStale(t: Table, p: Id, b: Id, valid: set<bytes>)
    requires Inv(t) && p in t && t[p].domain in t && b in t
    ensures !StaleAt(t, b, valid, t[p].domain)
  {
    assert !Memberless(t, t[p].domain);
  }

  lemma GcKeeps(env: Faults, job: Job, w0: World, evs: seq<Event>, p: Id)
    requires job.Gc? && Inv(w0.ifaces) && Legal(env, job, w0, evs)
    requires p in w0.ifaces && PortShaped(w0.ifaces[p].name) && !Threatens(job, w0.ifaces, p)
    ensures Unmoved(w0.ifaces, WorldAfter(w0, evs).ifaces, p)
  {
    var t0 := w0.ifaces;
    GcSafety(env, job, w0, evs, p);
    assert Memberless(t0, p);
    assert forall b :: IsNet(t0, b, job.bridge) ==> !StaleAt(t0, b, job.valid, p);
    var d := t0[p].domain;
    if d in t0 {
      GcSafety(env, job, w0, evs, d);
      forall b | IsNet(t0, b, job.bridge)
        ensures !StaleAt(t0, b, job.valid, d)
      {
        DomainNotStale(t0, p, b, job.valid);
      }
    }
  }

  lemma TurnKeeps(env: Faults, job: Job, w0: World, evs: seq<Event>, p: Id)
    requires JobOk(job) && Inv(w0.ifaces) && Legal(env, job, w0, evs)
    requires p in w0.ifaces && PortShaped(w0.ifaces[p].name) && !Threatens(job, w0.ifaces, p)
    ensures Unmoved(w0.ifaces, WorldAfter(w0, evs).ifaces, p)
  {
    match job {
      case Add(_, _, _, _, _, _, _) => AddKeeps(env, job, w0, evs, p);
      case Del(_, _, _) => DelKeeps(env, job, w0, evs, p);
      case Check(_, _, _, _, _) => CheckRun(env, job, w0, evs);
      case Gc(_, _, _, _) => GcKeeps(env, job, w0, evs, p);
    }
  }

  lemma UnmovedThreat(job: Job, t0: Table, t: Table, p: Id)
    requires p in t0 && Unmoved(t0, t, p) && NoDangling(t0) && 0 !in t && Threatens(job, t, p)
    ensures Threatens(job, t0, p)
  {
  }

  lemma UnmovedTwice(t0: Table, t1: Table, t2: Table, p: Id)
    requires p in t0 && Unmoved(t0, t1, p) && Unmoved(t1, t2, p)
    ensures Unmoved(t0, t2, p)
  {
  }

  /** Whatever fails and wherever handlers are cut short, a port stays as it is, on the interface it is
      on, until a DEL of its name or a GC of its bridge that does not list it. */
  lemma {:induction false} PortPersists(env: Faults, w0: World, h: seq<Turn>, p: Id)
    requires Inv(w0.ifaces) && Serial(env, w0, h) && p in w0.ifaces && PortShaped(w0.ifaces[p].name)
    requires forall k :: 0 <= k < |h| ==> JobOk(h[k].job) && !Threatens(h[k].job, w0.ifaces, p)
    ensures Inv(WorldOf(w0, h).ifaces) && Unmoved(w0.ifaces, WorldOf(w0, h).ifaces, p)
  {
    if h != [] {
      var init, t := h[..|h| - 1], h[|h| - 1];
      PortPersists(env, w0, init, p);
      var w := WorldOf(w0, init);
      assert !Threatens(t.job, w0.ifaces, p);
      if Threatens(t.job, w.ifaces, p) {
        UnmovedThreat(t.job, w0.ifaces, w.ifaces, p);
      }
      TurnKeeps(env, t.job, w, t.evs, p);
      RunSafe(env, t.job, w, t.evs);
      UnmovedTwice(w0.ifaces, w.ifaces, WorldAfter(w, t.evs).ifaces, p);
    }
  }
}
