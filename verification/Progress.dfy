/** Handlers end: every answer brings a handler closer to its return, and every call can be answered. */
module Progress {
  import opened Base
  import opened Grout
  import opened Machine

  // ---------- every call has an answer ----------

  ghost function ListOf(t: Table): (l: seq<Info>)
    ensures IsListing(l, t)
    decreases |t|
  {
    if t == map[] then []
    else
      var i :| i in t;
      ListMore(t, i, ListOf(t - {i}));
      [InfoOf(i, t[i])] + ListOf(t - {i})
  }

  lemma ListMore(t: Table, i: Id, l: seq<Info>)
    requires i in t && IsListing(l, t - {i})
    ensures IsListing([InfoOf(i, t[i])] + l, t)
  {
    var l' := [InfoOf(i, t[i])] + l;
    forall x | x in l
      ensures x in l' && x.id != i && InTable(x, t)
    {
      assert InTable(x, t - {i});
      var k :| 0 <= k < |l| && l[k] == x;
      assert l'[k + 1] == x;
    }
    assert l'[0] == InfoOf(i, t[i]);
    forall j | j in t
      ensures InfoOf(j, t[j]) in l'
    {
      if j != i {
        assert j in t - {i} && InfoOf(j, t[j]) in l;
      }
    }
  }

  /** One environment of each kind: it refuses to create and configure, and does everything else. */
  ghost function Refusing(c: Call, w: World): (Reply, World) {
    match c
    case List => (Listed(ListOf(w.ifaces)), w)
    case DelIface(id) => if Deletable(w, id) then (Ack, Drop(w, id)) else (Failed, w)
    case Flush(id) => if id in w.ifaces then (Ack, SetAddrs(w, id, {})) else (Failed, w)
    case Release(att) => (Ack, w.(ipam := w.ipam - {att}, releases := w.releases + 1))
    case Collect(_) => (Ack, w)
    case RemoveSock(p) => (Ack, w.(socks := w.socks - {p}))
    case Stat(p) => (Present(p in w.socks), w)
    case _ => (Failed, w)
  }

  lemma Answered(env: Faults, c: Call, w: World)
    ensures Answers(env, c, w, Refusing(c, w).0, Refusing(c, w).1)
  {
  }

  // ---------- every run can be completed ----------

  /** How far a handler is from its return; within one phase, `Count` goes down. */
  function Phase(pc: Pc): nat {
    match pc
    case AddAlloc => 13 case AddConvert(_) => 12 case AddFind(_) => 11 case AddMake(_) => 10
    case AddRefind(_) => 9 case AddGateway(_, _, _) => 8 case AddDir(_) => 7 case AddPort(_) => 6
    case AddMove(_) => 5 case AddConfigure(_) => 4 case AddUndo(_, _) => 3 case AddRelease(_) => 2
    case DelFind => 9 case DelPort(_) => 8 case DelSock(_) => 7 case DelRelease => 2
    case Sweep(_) => 5 case SweepFlush(_) => 4 case SweepDrop(_) => 3
    case CheckFind => 4 case CheckSock => 3 case CheckPrev => 3 case CheckPod => 2
    case GcFind => 7 case GcReap(_, _, _, _) => 6 case GcSock(_, _, _) => 6 case GcIpam => 2
    case Done(_) => 0
  }

  function Count(pc: Pc): nat {
    if pc.AddGateway? then |pc.more|
    else if pc.GcReap? then 2 * |pc.rest| + 1
    else if pc.GcSock? then 2 * |pc.rest|
    else 0
  }

  predicate Closer(next: Pc, pc: Pc) {
    Phase(next) < Phase(pc) || (Phase(next) == Phase(pc) && Count(next) < Count(pc))
  }

  lemma AddCloser(job: Job, pc: Pc, r: Reply)
    requires job.Add? && AddPc(pc)
    ensures Closer(ResumeAdd(job, pc, r), pc)
  {
  }

  lemma GcCloser(job: Job, pc: Pc, r: Reply)
    requires job.Gc? && GcPc(pc)
    ensures Closer(ResumeGc(job, pc, r), pc)
  {
  }

  /** Whatever the answer, the handler is closer to its return: no run is infinite. */
  lemma Closing(job: Job, pc: Pc, r: Reply)
    requires Belongs(job, pc) && !pc.Done?
    ensures Closer(Resume(job, pc, r), pc)
  {
    if !SweepPc(pc) {
      if job.Add? {
        AddCloser(job, pc, r);
      } else if job.Gc? {
        GcCloser(job, pc, r);
      }
    }
  }

  lemma AnswerExists(env: Faults, c: Call, w: World) returns (e: Event)
    ensures Answers(env, c, w, e.reply, e.after)
  {
    Answered(env, c, w);
    e := Event(Refusing(c, w).0, Refusing(c, w).1);
  }

  /** In every mode, every run from every world can be completed. */
  lemma {:induction false} Completable(env: Faults, job: Job, w0: World, evs: seq<Event>, pc: Pc, w: World) returns (all: seq<Event>)
    requires Stands(env, job, w0, evs, pc, w) && Belongs(job, pc)
    ensures Complete(env, job, w0, all) && evs <= all
    decreases Phase(pc), Count(pc)
  {
    if pc.Done? {
      all := evs;
    } else {
      var e := AnswerExists(env, CallOf(job, pc), w);
      Advance(env, job, w0, evs, pc, w, e);
      Closing(job, pc, e.reply);
      all := Completable(env, job, w0, evs + [e], Resume(job, pc, e.reply), e.after);
    }
  }
}
