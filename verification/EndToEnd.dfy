/** From grout's table through the wire to the listing a handler sees. */
module EndToEnd {
  import opened Base
  import opened PortNames
  import opened Wire
  import opened Layout
  import opened Client
  import Grout
  import opened Machine
  import opened Safety
  import opened Attach

  ghost predicate Encodable(t: Grout.Table) {
    forall i :: i in t ==> NulFree(t[i].name) && |t[i].name| < NAME_SIZE
  }

  /** The ids of a table, each once. */
  ghost predicate Enumerates(ids: seq<Id>, t: Grout.Table) {
    && (forall j, k :: 0 <= j < k < |ids| ==> ids[j] != ids[k])
    && (forall i :: i in t <==> i in ids)
  }

  ghost predicate Filled(ids: seq<Id>, t: Grout.Table, fill: seq<Filler>) {
    && |fill| == |ids|
    && (forall k :: 0 <= k < |ids| ==> ids[k] in t && Fits(t[ids[k]].name, fill[k]) && 36 + |fill[k].more| <= MAX_MSG_LEN)
  }

  /** The payloads grout streams for this table. */
  function Records(ids: seq<Id>, t: Grout.Table, fill: seq<Filler>): (rs: seq<bytes>)
    requires |fill| == |ids| && forall k :: 0 <= k < |ids| ==> ids[k] in t
    ensures |rs| == |ids| && forall k :: 0 <= k < |ids| ==> rs[k] == GroutRecord(Grout.InfoOf(ids[k], t[ids[k]]), fill[k])
  {
    seq(|ids|, k requires 0 <= k < |ids| => GroutRecord(Grout.InfoOf(ids[k], t[ids[k]]), fill[k]))
  }

  lemma {:induction false} RecordsDecode(ids: seq<Id>, t: Grout.Table, fill: seq<Filler>)
    requires Filled(ids, t, fill) && Encodable(t)
    ensures var es := DecodeList(Records(ids, t, fill));
            |es| == |ids| && forall k :: 0 <= k < |ids| ==> es[k] == Grout.InfoOf(ids[k], t[ids[k]])
  {
    if ids != [] {
      RecordDecodes(Grout.InfoOf(ids[0], t[ids[0]]), fill[0]);
      RecordsDecode(ids[1..], t, fill[1..]);
      assert Records(ids, t, fill)[1..] == Records(ids[1..], t, fill[1..]);
    }
  }

  /** If names are NUL-free and at most 15 bytes, then whatever order grout lists its table in,
      whatever stale bytes follow the names and whatever the rest of each record holds, the streamed
      answer to InterfaceList decodes to a listing of exactly that table, and the stream is left at
      the next answer. This is what the handlers assume of a successful list call. */
  lemma ListingFidelity(ids: seq<Id>, t: Grout.Table, fill: seq<Filler>, id: Word, tail: bytes)
    requires Enumerates(ids, t) && Filled(ids, t, fill) && Encodable(t)
    ensures var a := Answer(Records(ids, t, fill), 0, []);
            && WellFormed(Streamed, a)
            && StreamOn(Sent(Streamed, a, id) + tail, id) == (Payloads(a.items), tail)
            && Grout.IsListing(DecodeList(a.items), t)
  {
    var a := Answer(Records(ids, t, fill), 0, []);
    forall k | 0 <= k < |a.items|
      ensures 0 < |a.items[k]| <= MAX_MSG_LEN
    {
      assert a.items[k] == GroutRecord(Grout.InfoOf(ids[k], t[ids[k]]), fill[k]);
    }
    CallSync(Streamed, a, id, tail);
    RecordsDecode(ids, t, fill);
    ListsAll(ids, t, DecodeList(a.items));
  }

  lemma ListsAll(ids: seq<Id>, t: Grout.Table, l: seq<Info>)
    requires Enumerates(ids, t) && |l| == |ids|
    requires forall k :: 0 <= k < |ids| ==> ids[k] in t && l[k] == Grout.InfoOf(ids[k], t[ids[k]])
    ensures Grout.IsListing(l, t)
  {
    forall i | i in t
      ensures Grout.InfoOf(i, t[i]) in l
    {
      var k :| 0 <= k < |ids| && ids[k] == i;
      assert l[k] == Grout.InfoOf(i, t[i]);
    }
  }

  /** Names ADD sends are encodable: port names always, bridge names by LoadConfig unless they hold NUL. */
  lemma PortNameEncodable(sha: bytes -> Digest, a: Attachment)
    ensures NulFree(GroutPortName(sha, a)) && |GroutPortName(sha, a)| < NAME_SIZE
  {
    PortNameShape(sha(Key(a)));
    var n := GroutPortName(sha, a);
    assert n[..4] == PORT_PREFIX;
    assert forall i :: 0 <= i < 4 ==> n[i] == n[..4][i];
  }

  /** The names a job may send are encodable. */
  predicate SendsEncodable(job: Job) {
    job.Add? ==> NulFree(job.bridge) && |job.bridge| < NAME_SIZE && NulFree(job.port) && |job.port| < NAME_SIZE
  }

  /** A call gives no interface a name but the one it asks for. */
  lemma CallNames(env: Grout.Faults, c: Grout.Call, w: Grout.World, r: Grout.Reply, w': Grout.World, i: Id)
    requires Grout.Answers(env, c, w, r, w') && i in w'.ifaces
    ensures (i in w.ifaces && w'.ifaces[i].name == w.ifaces[i].name) || (c.AddIface? && w'.ifaces[i].name == c.name)
  {
  }

  lemma CallSends(job: Job, pc: Pc)
    requires Belongs(job, pc) && !pc.Done? && CallOf(job, pc).AddIface?
    ensures job.Add? && (CallOf(job, pc).name == job.bridge || CallOf(job, pc).name == job.port)
  {
  }

  lemma {:induction false} StaysEncodable(env: Grout.Faults, job: Job, w0: Grout.World, evs: seq<Event>)
    requires Legal(env, job, w0, evs) && SendsEncodable(job) && Encodable(w0.ifaces)
    ensures Encodable(WorldAfter(w0, evs).ifaces)
  {
    if evs != [] {
      var init, e := evs[..|evs| - 1], evs[|evs| - 1];
      StaysEncodable(env, job, w0, init);
      var c := CallOf(job, PcAfter(job, init));
      if c.AddIface? {
        CallSends(job, PcAfter(job, init));
      }
      forall i | i in e.after.ifaces
        ensures NulFree(e.after.ifaces[i].name) && |e.after.ifaces[i].name| < NAME_SIZE
      {
        CallNames(env, c, WorldAfter(w0, init), e.reply, e.after, i);
      }
    }
  }

  /** ADD and DEL meet: however ADD ended, if it left its port, then the answer to DEL's InterfaceList,
      in any order and with any stale bytes, decodes to a list in which DEL's lookup finds that port,
      with its id and its domain. */
  lemma DelFindsPort(env: Grout.Faults, job: Job, w0: Grout.World, evs: seq<Event>, p: Id, ids: seq<Id>, fill: seq<Filler>)
    requires job.Add? && JobOk(job) && SendsEncodable(job) && Inv(w0.ifaces) && Encodable(w0.ifaces) && Legal(env, job, w0, evs)
    requires var t := WorldAfter(w0, evs).ifaces;
             && p in t && p !in w0.ifaces && t[p].name == job.port && Enumerates(ids, t) && Filled(ids, t, fill)
    ensures var t := WorldAfter(w0, evs).ifaces;
            Grout.FindNamed(DecodeList(Records(ids, t, fill)), job.port) == Some(Info(p, KIND_PORT, job.port, t[p].domain))
  {
    var t := WorldAfter(w0, evs).ifaces;
    StaysEncodable(env, job, w0, evs);
    ListingFidelity(ids, t, fill, 0, []);
    PortIsFramed(env, job, w0, evs, p);
    FindUnique(DecodeList(Records(ids, t, fill)), t, p);
  }

  lemma PortIsFramed(env: Grout.Faults, job: Job, w0: Grout.World, evs: seq<Event>, p: Id)
    requires job.Add? && JobOk(job) && Inv(w0.ifaces) && Legal(env, job, w0, evs)
    requires p in WorldAfter(w0, evs).ifaces && p !in w0.ifaces && WorldAfter(w0, evs).ifaces[p].name == job.port
    ensures UniqueNames(WorldAfter(w0, evs).ifaces) && WorldAfter(w0, evs).ifaces[p].kind == KIND_PORT
  {
    AddTracks(env, job, w0, evs);
    RunSafe(env, job, w0, evs);
    assert NewPort(job, WorldAfter(w0, evs).ifaces[p], WorldAfter(w0, evs).ifaces);
  }

  /** Names are unique, so a lookup by name in any listing finds the interface itself. */
  lemma FindUnique(l: seq<Info>, t: Grout.Table, p: Id)
    requires Grout.IsListing(l, t) && UniqueNames(t) && p in t
    ensures Grout.FindNamed(l, t[p].name) == Some(Grout.InfoOf(p, t[p]))
  {
    assert Grout.InfoOf(p, t[p]) in l;
  }
}
