/** Any number of CNI processes on one grout socket, serialised by the file lock of
    pkg/cni/lock.go: waiting, timing out, crashing, and in between running handlers. */
module Processes {
  import opened Base
  import opened PortNames
  import opened Grout
  import opened Machine
  import opened Safety
  import opened RefStore
  import opened Persistence

  /** How far a process has got. flock(2) runs in its own goroutine, so the kernel may grant
      the lock to a caller whose timer has already fired, or whose select then picks the timer. */
  datatype Phase =
    | Blocked                // flock pending, Lock waiting
    | Granted                // the kernel granted the lock, Lock has not returned
    | Inside(pc: Pc)         // Lock returned nil: the handler body runs
    | Expired                // Lock returned a timeout, flock still pending
    | ExpiredHolding         // granted all the same; Close is next
    | Finished(r: Option<Result>)  // None: the lock was never taken
    | Dead

  datatype Proc = Proc(job: Job, phase: Phase)

  /** `owner` is a history variable: the bridge name each port that ADD made was configured with. */
  datatype Sys = Sys(world: World, holder: Option<nat>, procs: map<nat, Proc>, owner: map<Id, bytes>)

  datatype Action =
    | Spawn(pid: nat, job: Job)
    | Grant(pid: nat)
    | Enter(pid: nat)
    | Expire(pid: nat)
    | Close(pid: nat)
    | CallOut(pid: nat, e: Event)
    | Leave(pid: nat)
    | Crash(pid: nat)

  predicate Holding(p: Phase) {
    p.Granted? || p.Inside? || p.ExpiredHolding?
  }

  function Put(s: Sys, pid: nat, phase: Phase): Sys
    requires pid in s.procs
  {
    s.(procs := s.procs[pid := s.procs[pid].(phase := phase)])
  }

  /** Forgets deleted ports and records a port that appears while an ADD is running. */
  function Owners(s: Sys, job: Job, w': World): map<Id, bytes> {
    map i | i in w'.ifaces && (i in s.owner || (i !in s.world.ifaces && job.Add? && w'.ifaces[i].name == job.port)) ::
      if i in s.owner then s.owner[i] else (if job.Add? then job.bridge else [])
  }

  ghost predicate Enabled(env: Faults, s: Sys, a: Action) {
    match a
    case Spawn(pid, job) => pid !in s.procs && JobOk(job)
    case Grant(pid) => pid in s.procs && s.holder.None? && (s.procs[pid].phase.Blocked? || s.procs[pid].phase.Expired?)
    case Enter(pid) => pid in s.procs && s.procs[pid].phase.Granted?
    case Expire(pid) => pid in s.procs && (s.procs[pid].phase.Blocked? || s.procs[pid].phase.Granted?)
    case Close(pid) => pid in s.procs && (s.procs[pid].phase.Expired? || s.procs[pid].phase.ExpiredHolding?)
    case CallOut(pid, e) =>
      && pid in s.procs && s.procs[pid].phase.Inside?
      && var job, pc := s.procs[pid].job, s.procs[pid].phase.pc;
         Belongs(job, pc) && !pc.Done? && Answers(env, CallOf(job, pc), s.world, e.reply, e.after)
    case Leave(pid) => pid in s.procs && s.procs[pid].phase.Inside? && s.procs[pid].phase.pc.Done?
    case Crash(pid) => pid in s.procs && !s.procs[pid].phase.Dead? && !s.procs[pid].phase.Finished?
  }

  function Apply(s: Sys, a: Action): Sys {
    match a
    case Spawn(pid, job) => s.(procs := s.procs[pid := Proc(job, Blocked)])
    case Grant(pid) =>
      if pid !in s.procs then s
      else Put(s, pid, if s.procs[pid].phase.Blocked? then Granted else ExpiredHolding).(holder := Some(pid))
    case Enter(pid) => if pid !in s.procs then s else Put(s, pid, Inside(Start(s.procs[pid].job)))
    case Expire(pid) =>
      if pid !in s.procs then s
      else Put(s, pid, if s.procs[pid].phase.Blocked? then Expired else ExpiredHolding)
    case Close(pid) =>
      if pid !in s.procs then s
      else Put(s, pid, Finished(None)).(holder := if s.procs[pid].phase.Expired? then s.holder else None)
    case CallOut(pid, e) =>
      if pid in s.procs && s.procs[pid].phase.Inside? && Belongs(s.procs[pid].job, s.procs[pid].phase.pc) && !s.procs[pid].phase.pc.Done?
      then Put(s, pid, Inside(Resume(s.procs[pid].job, s.procs[pid].phase.pc, e.reply)))
           .(world := e.after, owner := Owners(s, s.procs[pid].job, e.after))
      else s
    case Leave(pid) =>
      if pid in s.procs && s.procs[pid].phase.Inside? && s.procs[pid].phase.pc.Done?
      then Put(s, pid, Finished(Some(s.procs[pid].phase.pc.r))).(holder := None)
      else s
    case Crash(pid) =>
      // the kernel closes the descriptor and with it drops the lock
      if pid !in s.procs then s
      else Put(s, pid, Dead).(holder := if Holding(s.procs[pid].phase) then None else s.holder)
  }

  function Init(w0: World): Sys {
    Sys(w0, None, map[], map[])
  }

  function After(w0: World, acts: seq<Action>): Sys {
    if acts == [] then Init(w0) else Apply(After(w0, acts[..|acts| - 1]), acts[|acts| - 1])
  }

  /** An interleaving: every action was enabled when it happened. */
  ghost predicate Interleaving(env: Faults, w0: World, acts: seq<Action>) {
    acts == [] ||
    (Interleaving(env, w0, acts[..|acts| - 1]) && Enabled(env, After(w0, acts[..|acts| - 1]), acts[|acts| - 1]))
  }

  // ---------- mutual exclusion and safety ----------

  /** The holder is the one process that holds the lock. */
  ghost predicate LockInv(s: Sys) {
    && (s.holder.Some? ==> s.holder.value in s.procs)
    && forall p :: p in s.procs ==> (Holding(s.procs[p].phase) <==> s.holder == Some(p))
  }

  /** Every port ADD made still sits on a live interface with the bridge name it was configured with. */
  ghost predicate OwnerInv(s: Sys) {
    forall i :: i in s.owner ==>
      && i in s.world.ifaces && s.world.ifaces[i].domain in s.world.ifaces
      && s.world.ifaces[s.world.ifaces[i].domain].name == s.owner[i]
  }

  ghost predicate ProcInv(s: Sys) {
    forall p :: p in s.procs ==>
      && JobOk(s.procs[p].job)
      && (s.procs[p].phase.Inside? ==>
            Belongs(s.procs[p].job, s.procs[p].phase.pc) && PcInv(s.procs[p].job, s.procs[p].phase.pc, s.world.ifaces))
  }

  ghost predicate SysInv(s: Sys) {
    LockInv(s) && ProcInv(s) && Inv(s.world.ifaces) && OwnerInv(s)
  }

  lemma LockStep(env: Faults, s: Sys, a: Action)
    requires LockInv(s) && Enabled(env, s, a)
    ensures LockInv(Apply(s, a))
  {
  }

  lemma CallStep(env: Faults, s: Sys, a: Action)
    requires SysInv(s) && Enabled(env, s, a) && a.CallOut?
    ensures SysInv(Apply(s, a)) && Gentle(s.world.ifaces, Apply(s, a).world.ifaces)
  {
    LockStep(env, s, a);
    var job, pc := s.procs[a.pid].job, s.procs[a.pid].phase.pc;
    StepSafe(env, job, pc, s.world, a.e.reply, a.e.after);
    assert forall p :: p in s.procs && s.procs[p].phase.Inside? ==> p == a.pid;
    OwnerStep(env, s, a);
  }

  lemma OwnerStep(env: Faults, s: Sys, a: Action)
    requires SysInv(s) && Enabled(env, s, a) && a.CallOut?
    requires Gentle(s.world.ifaces, a.e.after.ifaces) && Inv(a.e.after.ifaces)
    ensures OwnerInv(Apply(s, a))
  {
    var job, pc, t, t' := s.procs[a.pid].job, s.procs[a.pid].phase.pc, s.world.ifaces, a.e.after.ifaces;
    var s' := Apply(s, a);
    forall i | i in s'.owner
      ensures i in t' && t'[i].domain in t' && t'[t'[i].domain].name == s'.owner[i]
    {
      if i in s.owner {
        assert t'[i].domain == t[i].domain;
      } else {
        PortAppears(env, job, pc, s.world, a.e.reply, a.e.after, i);
      }
    }
  }

  /** The only step that makes an interface with the port's name puts it on the bridge. */
  lemma PortAppears(env: Faults, job: Job, pc: Pc, w: World, r: Reply, w': World, i: Id)
    requires Belongs(job, pc) && !pc.Done? && JobOk(job) && PcInv(job, pc, w.ifaces)
    requires Answers(env, CallOf(job, pc), w, r, w')
    requires job.Add? && i in w'.ifaces && i !in w.ifaces && w'.ifaces[i].name == job.port
    ensures w'.ifaces[i].domain in w'.ifaces && w'.ifaces[w'.ifaces[i].domain].name == job.bridge
  {
    assert pc.AddPort?;
  }

  /** Waiting, timing out, leaving and crashing touch neither grout nor another process. */
  lemma QuietStep(env: Faults, s: Sys, a: Action)
    requires SysInv(s) && Enabled(env, s, a) && !a.CallOut?
    ensures ProcInv(Apply(s, a)) && Apply(s, a).world == s.world && Apply(s, a).owner == s.owner
  {
  }

  lemma SysStep(env: Faults, s: Sys, a: Action)
    requires SysInv(s) && Enabled(env, s, a)
    ensures SysInv(Apply(s, a)) && Gentle(s.world.ifaces, Apply(s, a).world.ifaces)
    ensures !a.CallOut? ==> Apply(s, a).world == s.world
  {
    if a.CallOut? {
      CallStep(env, s, a);
    } else {
      LockStep(env, s, a);
      QuietStep(env, s, a);
    }
  }

  /** In every reachable state of every interleaving, whatever fails, times out or crashes: at most
      one process is between Lock and Unlock, names are unique, no domain dangles, every port ADD made
      is on a live interface with its configured bridge name, and no step deletes an interface that
      another one has as its domain. */
  lemma {:induction false} AlwaysSafe(env: Faults, w0: World, acts: seq<Action>)
    requires Inv(w0.ifaces) && Interleaving(env, w0, acts)
    ensures SysInv(After(w0, acts))
    ensures var s := After(w0, acts);
            forall p, q :: p in s.procs && q in s.procs && s.procs[p].phase.Inside? && s.procs[q].phase.Inside? ==> p == q
    ensures acts != [] ==> Gentle(After(w0, acts[..|acts| - 1]).world.ifaces, After(w0, acts).world.ifaces)
  {
    if acts != [] {
      AlwaysSafe(env, w0, acts[..|acts| - 1]);
      SysStep(env, After(w0, acts[..|acts| - 1]), acts[|acts| - 1]);
    }
  }

  // ---------- serialisability ----------

  /** The turns the processes took, in the order in which Lock returned to them. */
  function History(w0: World, acts: seq<Action>): (h: seq<Turn>) {
    if acts == [] then []
    else
      var s, h, a := After(w0, acts[..|acts| - 1]), History(w0, acts[..|acts| - 1]), acts[|acts| - 1];
      match a
      case Enter(pid) => if pid in s.procs then h + [Turn(s.procs[pid].job, [])] else h
      case CallOut(_, e) => if h == [] then h else h[|h| - 1 := h[|h| - 1].(evs := h[|h| - 1].evs + [e])]
      case _ => h
  }

  /** Which process took which turn. */
  function Turns(acts: seq<Action>): seq<nat> {
    if acts == [] then []
    else
      var l, a := Turns(acts[..|acts| - 1]), acts[|acts| - 1];
      if a.Enter? then l + [a.pid] else l
  }

  /** The history explains the state: it is serial, it ends in the current world, the process inside
      stands where the last turn stands, and a process has a turn exactly if it ever got inside;
      what it returned is what its turn returned. */
  ghost predicate Explains(env: Faults, w0: World, s: Sys, h: seq<Turn>, who: seq<nat>) {
    Serial(env, w0, h) && WorldOf(w0, h) == s.world && Tally(s, h, who)
  }

  ghost predicate Tally(s: Sys, h: seq<Turn>, who: seq<nat>) {
    && |who| == |h|
    && (forall j, k :: 0 <= j < k < |who| ==> who[j] != who[k])
    && (forall k :: 0 <= k < |who| ==> who[k] in s.procs && s.procs[who[k]].job == h[k].job)
    && (forall k :: 0 <= k < |who| ==> Explained(s.procs[who[k]].phase, h[k], k == |h| - 1))
    && (forall p :: p in s.procs && p !in who ==> Outside(s.procs[p].phase))
  }

  ghost predicate Explained(p: Phase, t: Turn, last: bool) {
    match p
    case Inside(pc) => last && PcAfter(t.job, t.evs) == pc
    case Finished(r) => r.Some? && PcAfter(t.job, t.evs) == Done(r.value)
    case Dead => true
    case _ => false
  }

  /** Phases of a process that has not entered its handler. */
  ghost predicate Outside(p: Phase) {
    !p.Inside? && (p.Finished? ==> p.r.None?)
  }

  lemma SerialAppend(env: Faults, w0: World, h: seq<Turn>, job: Job)
    requires Serial(env, w0, h)
    ensures Serial(env, w0, h + [Turn(job, [])]) && WorldOf(w0, h + [Turn(job, [])]) == WorldOf(w0, h)
  {
    assert (h + [Turn(job, [])])[..|h|] == h;
  }

  lemma SerialExtend(env: Faults, w0: World, h: seq<Turn>, e: Event)
    requires Serial(env, w0, h) && h != []
    requires !PcAfter(h[|h| - 1].job, h[|h| - 1].evs).Done?
    requires var t := h[|h| - 1];
             Answers(env, CallOf(t.job, PcAfter(t.job, t.evs)), WorldOf(w0, h), e.reply, e.after)
    ensures var t := h[|h| - 1]; var h' := h[|h| - 1 := t.(evs := t.evs + [e])];
            && Serial(env, w0, h') && WorldOf(w0, h') == e.after
            && PcAfter(t.job, t.evs + [e]) == Resume(t.job, PcAfter(t.job, t.evs), e.reply)
  {
    var t := h[|h| - 1];
    var h' := h[|h| - 1 := t.(evs := t.evs + [e])];
    assert h'[..|h| - 1] == h[..|h| - 1];
    Extend(env, t.job, WorldOf(w0, h[..|h| - 1]), t.evs, e);
  }

  lemma EnterExplained(env: Faults, w0: World, s: Sys, h: seq<Turn>, who: seq<nat>, pid: nat)
    requires LockInv(s) && Explains(env, w0, s, h, who) && Enabled(env, s, Enter(pid))
    ensures Explains(env, w0, Apply(s, Enter(pid)), h + [Turn(s.procs[pid].job, [])], who + [pid])
  {
    SerialAppend(env, w0, h, s.procs[pid].job);
    assert pid !in who;
  }

  /** The process inside owns the last turn. */
  lemma InsideIsLast(s: Sys, h: seq<Turn>, who: seq<nat>, pid: nat)
    requires Tally(s, h, who) && pid in s.procs && s.procs[pid].phase.Inside?
    ensures h != [] && who[|h| - 1] == pid && s.procs[pid].job == h[|h| - 1].job
    ensures s.procs[pid].phase.pc == PcAfter(h[|h| - 1].job, h[|h| - 1].evs)
  {
    assert pid in who;
    var k :| 0 <= k < |who| && who[k] == pid;
    assert Explained(s.procs[who[k]].phase, h[k], k == |h| - 1);
  }

  lemma CallTally(s: Sys, h: seq<Turn>, who: seq<nat>, s': Sys, t': Turn)
    requires Tally(s, h, who) && h != []
    requires var pid := who[|h| - 1];
             && pid in s.procs && t'.job == s.procs[pid].job
             && s'.procs == s.procs[pid := Proc(t'.job, Inside(PcAfter(t'.job, t'.evs)))]
    ensures Tally(s', h[|h| - 1 := t'], who)
  {
    var h' := h[|h| - 1 := t'];
    forall j | 0 <= j < |who|
      ensures s'.procs[who[j]].job == h'[j].job && Explained(s'.procs[who[j]].phase, h'[j], j == |h'| - 1)
    {
      assert Explained(s.procs[who[j]].phase, h[j], j == |h| - 1);
    }
  }

  lemma CallExplained(env: Faults, w0: World, s: Sys, h: seq<Turn>, who: seq<nat>, a: Action)
    requires Explains(env, w0, s, h, who) && Enabled(env, s, a) && a.CallOut?
    ensures h != [] && Explains(env, w0, Apply(s, a), h[|h| - 1 := h[|h| - 1].(evs := h[|h| - 1].evs + [a.e])], who)
  {
    InsideIsLast(s, h, who, a.pid);
    SerialExtend(env, w0, h, a.e);
    CallTally(s, h, who, Apply(s, a), h[|h| - 1].(evs := h[|h| - 1].evs + [a.e]));
  }

  /** A change of one process's phase that its turn, or its lack of one, still explains. */
  lemma PhaseTally(s: Sys, h: seq<Turn>, who: seq<nat>, pid: nat, phase: Phase, s': Sys)
    requires Tally(s, h, who) && pid in s.procs && s'.procs == s.procs[pid := s.procs[pid].(phase := phase)]
    requires forall k :: 0 <= k < |who| && who[k] == pid ==> Explained(phase, h[k], k == |h| - 1)
    requires pid !in who ==> Outside(phase)
    ensures Tally(s', h, who)
  {
    forall k | 0 <= k < |who|
      ensures Explained(s'.procs[who[k]].phase, h[k], k == |h| - 1)
    {
      assert Explained(s.procs[who[k]].phase, h[k], k == |h| - 1);
    }
  }

  /** A process waiting for the lock has no turn. */
  lemma WaitingIsOutside(s: Sys, h: seq<Turn>, who: seq<nat>, pid: nat)
    requires Tally(s, h, who) && pid in s.procs
    requires var p := s.procs[pid].phase; p.Blocked? || p.Granted? || p.Expired? || p.ExpiredHolding?
    ensures pid !in who
  {
    forall k | 0 <= k < |who|
      ensures who[k] != pid
    {
      assert Explained(s.procs[who[k]].phase, h[k], k == |h| - 1);
    }
  }

  lemma SpawnTally(s: Sys, h: seq<Turn>, who: seq<nat>, pid: nat, job: Job)
    requires Tally(s, h, who) && pid !in s.procs
    ensures Tally(s.(procs := s.procs[pid := Proc(job, Blocked)]), h, who)
  {
  }

  lemma OtherExplained(env: Faults, w0: World, s: Sys, h: seq<Turn>, who: seq<nat>, a: Action)
    requires Explains(env, w0, s, h, who) && Enabled(env, s, a) && !a.CallOut? && !a.Enter?
    ensures Explains(env, w0, Apply(s, a), h, who)
  {
    var s' := Apply(s, a);
    if a.Spawn? {
      SpawnTally(s, h, who, a.pid, a.job);
    } else {
      if a.Leave? {
        InsideIsLast(s, h, who, a.pid);
      } else if !a.Crash? {
        WaitingIsOutside(s, h, who, a.pid);
      }
      PhaseTally(s, h, who, a.pid, s'.procs[a.pid].phase, s');
    }
  }

  /** Every interleaving, with every timeout and crash, leaves the world of a serial order of
      handlers, some perhaps cut short; and each process returned what its turn in that order returned.
      A process that never got inside has no turn. */
  lemma {:induction false} Serialisable(env: Faults, w0: World, acts: seq<Action>)
    requires Inv(w0.ifaces) && Interleaving(env, w0, acts)
    ensures Explains(env, w0, After(w0, acts), History(w0, acts), Turns(acts))
  {
    if acts != [] {
      var init, a := acts[..|acts| - 1], acts[|acts| - 1];
      Serialisable(env, w0, init);
      AlwaysSafe(env, w0, init);
      var s, h, who := After(w0, init), History(w0, init), Turns(init);
      match a {
        case Enter(pid) => EnterExplained(env, w0, s, h, who, pid);
        case CallOut(_, _) => CallExplained(env, w0, s, h, who, a);
        case _ => OtherExplained(env, w0, s, h, who, a);
      }
    }
  }

  /** Only a process that has a turn makes calls. */
  lemma {:induction false} CallsHaveTurns(env: Faults, w0: World, acts: seq<Action>, k: nat)
    requires Inv(w0.ifaces) && Interleaving(env, w0, acts) && k < |acts| && acts[k].CallOut?
    ensures acts[k].pid in Turns(acts)
  {
    var init := acts[..|acts| - 1];
    if k < |init| {
      assert init[k] == acts[k];
      CallsHaveTurns(env, w0, init, k);
    } else {
      CallerHasTurn(env, w0, init, acts[k]);
    }
  }

  lemma CallerHasTurn(env: Faults, w0: World, acts: seq<Action>, a: Action)
    requires Inv(w0.ifaces) && Interleaving(env, w0, acts) && Enabled(env, After(w0, acts), a) && a.CallOut?
    ensures a.pid in Turns(acts)
  {
    Serialisable(env, w0, acts);
    InsideTurn(After(w0, acts), History(w0, acts), Turns(acts), a.pid);
  }

  lemma InsideTurn(s: Sys, h: seq<Turn>, who: seq<nat>, pid: nat)
    requires Tally(s, h, who) && pid in s.procs && s.procs[pid].phase.Inside?
    ensures pid in who
  {
    InsideIsLast(s, h, who, pid);
  }

  /** A process that timed out waiting for the lock took no turn and made no call. */
  lemma TimedOutTouchesNothing(env: Faults, w0: World, acts: seq<Action>, pid: nat)
    requires Inv(w0.ifaces) && Interleaving(env, w0, acts)
    requires pid in After(w0, acts).procs
    requires var p := After(w0, acts).procs[pid].phase; p.Expired? || p.ExpiredHolding? || p == Finished(None)
    ensures pid !in Turns(acts) && forall k :: 0 <= k < |acts| && acts[k].CallOut? ==> acts[k].pid != pid
  {
    Serialisable(env, w0, acts);
    forall k | 0 <= k < |acts| && acts[k].CallOut?
      ensures acts[k].pid in Turns(acts)
    {
      CallsHaveTurns(env, w0, acts, k);
    }
  }

  /** In every interleaving, whatever fails, times out or crashes, a port stays as it is until some process
      is asked to DEL its name or to GC its bridge without listing it. */
  lemma PortStays(env: Faults, w0: World, acts: seq<Action>, p: Id)
    requires Inv(w0.ifaces) && Interleaving(env, w0, acts) && p in w0.ifaces && PortShaped(w0.ifaces[p].name)
    requires forall q :: q in After(w0, acts).procs ==> !Threatens(After(w0, acts).procs[q].job, w0.ifaces, p)
    ensures Unmoved(w0.ifaces, After(w0, acts).world.ifaces, p)
  {
    Serialisable(env, w0, acts);
    AlwaysSafe(env, w0, acts);
    var s, h, who := After(w0, acts), History(w0, acts), Turns(acts);
    forall k | 0 <= k < |h|
      ensures JobOk(h[k].job) && !Threatens(h[k].job, w0.ifaces, p)
    {
      assert who[k] in s.procs && s.procs[who[k]].job == h[k].job;
    }
    PortPersists(env, w0, h, p);
  }

  /** Every process that got inside its handler has returned from it. What the others do, waiting,
      timing out or crashing, does not matter. */
  ghost predicate AllReturned(name: Attachment -> bytes, used: set<Attachment>, bridges: set<bytes>, s: Sys, who: seq<nat>) {
    forall p :: p in who && p in s.procs ==> Speaks(name, used, bridges, s.procs[p].job) && s.procs[p].phase.Finished?
  }

  /** Concurrent runs refine the reference store: if cleanup is reliable and every process that got
      inside has returned, grout holds what the store holds after the same calls in lock order. */
  lemma ConcurrentRefines(name: Attachment -> bytes, used: set<Attachment>, bridges: set<bytes>, w0: World, acts: seq<Action>)
    requires Naming(name, used) && Ready(w0.ifaces, bridges) && Interleaving(Reliable, w0, acts)
    requires AllReturned(name, used, bridges, After(w0, acts), Turns(acts))
    ensures RefsOf(name, used, After(w0, acts).world.ifaces) == Replay(RefsOf(name, used, w0.ifaces), History(w0, acts))
  {
    Serialisable(Reliable, w0, acts);
    var s, h, who := After(w0, acts), History(w0, acts), Turns(acts);
    TallyComplete(name, used, bridges, s, h, who);
    RefStoreRefines(name, used, bridges, w0, h);
  }

  lemma TallyComplete(name: Attachment -> bytes, used: set<Attachment>, bridges: set<bytes>, s: Sys, h: seq<Turn>, who: seq<nat>)
    requires Tally(s, h, who)
    requires AllReturned(name, used, bridges, s, who)
    ensures AllComplete(h) && forall k :: 0 <= k < |h| ==> Speaks(name, used, bridges, h[k].job)
  {
    forall k | 0 <= k < |h|
      ensures PcAfter(h[k].job, h[k].evs).Done? && Speaks(name, used, bridges, h[k].job)
    {
      assert who[k] in who && Explained(s.procs[who[k]].phase, h[k], k == |h| - 1);
    }
  }
}
