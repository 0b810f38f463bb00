/** What the handlers act on: grout's interface table, the IPAM allocations and
    the vhost sockets, together with everything each external call may do to them. */
module Grout {
  import opened Base

  /** `mtu` is what was asked for; 0 leaves it to grout. */
  datatype Iface = Iface(name: bytes, kind: byte, domain: Id, mtu: Id, addrs: set<IPNet>)

  type Table = map<Id, Iface>

  /** `releases` counts how often the IPAM plugin has been asked to release an allocation. */
  datatype World = World(ifaces: Table, ipam: set<Attachment>, releases: nat, socks: set<bytes>)

  function InfoOf(id: Id, f: Iface): Info {
    Info(id, f.kind, f.name, f.domain)
  }

  predicate InTable(x: Info, t: Table) {
    x.id in t && x == InfoOf(x.id, t[x.id])
  }

  predicate DistinctIds(l: seq<Info>) {
    forall i, j :: 0 <= i < j < |l| ==> l[i].id != l[j].id
  }

  /** A listing reports every interface once, in any order. */
  ghost predicate IsListing(l: seq<Info>, t: Table) {
    && DistinctIds(l)
    && (forall x :: x in l ==> InTable(x, t))
    && (forall id :: id in t ==> InfoOf(id, t[id]) in l)
  }

  /** External calls a handler makes, in the order of the CNI plugin's own code. */
  datatype Call =
    | List
    | AddIface(name: bytes, kind: byte, domain: Id, mtu: Id, sock: Option<bytes>)
    | DelIface(id: Id)
    | AddAddr(id: Id, addr: IPNet)
    | Flush(id: Id)
    | Allocate(att: Attachment)
    | Release(att: Attachment)
    | Collect(keep: set<Attachment>)
    | RemoveSock(path: bytes)
    | Stat(path: bytes)
    // the rest only succeed or fail
    | ConvertResult
    | MakeDir(path: bytes)
    | MoveTap(port: bytes, netns: bytes)
    | SetUpPod(netns: bytes, port: bytes, ifName: bytes, mtu: Id)
    | ReadPrev
    | VerifyPod(netns: bytes, ifName: bytes)

  datatype Reply =
    | Failed
    | Ack
    | Listed(l: seq<Info>)
    | Created(id: Id)
    | Allocated(ips: Entries, extra: bytes)  // extra: version, routes and DNS, which are only passed on
    | Present(b: bool)

  /** How badly the environment may behave.
      Reliable: calls that create or configure may fail, but listing, deleting, flushing
      and releasing fail only when grout itself refuses.
      Faulty: any call may fail, without effect.
      Lossy: a call may also take effect and still be reported as failed. */
  datatype Faults = Reliable | Faulty | Lossy

  ghost predicate NameTaken(t: Table, name: bytes) {
    exists id :: id in t && t[id].name == name
  }

  ghost predicate Creatable(w: World, c: Call, id: Id)
    requires c.AddIface?
  {
    id != 0 && id !in w.ifaces && !NameTaken(w.ifaces, c.name)
  }

  /** grout creates the vhost socket together with a vhost port. */
  function Create(w: World, c: Call, id: Id): World
    requires c.AddIface?
  {
    w.(ifaces := w.ifaces[id := Iface(c.name, c.kind, c.domain, c.mtu, {})],
       socks := w.socks + (if c.sock.Some? then {c.sock.value} else {}))
  }

  function Drop(w: World, id: Id): World {
    w.(ifaces := w.ifaces - {id})
  }

  function SetAddrs(w: World, id: Id, addrs: set<IPNet>): World
    requires id in w.ifaces
  {
    w.(ifaces := w.ifaces[id := w.ifaces[id].(addrs := addrs)])
  }

  /** Interfaces with addresses cannot be deleted; having members is no obstacle. */
  predicate Deletable(w: World, id: Id) {
    id in w.ifaces && w.ifaces[id].addrs == {}
  }

  /** The environment may answer call `c` in world `w` with `r`, leaving `w'`. */
  ghost predicate Answers(env: Faults, c: Call, w: World, r: Reply, w': World) {
    match c
    case List =>
      w' == w && ((r.Listed? && IsListing(r.l, w.ifaces)) || (r.Failed? && !env.Reliable?))
    case AddIface(_, _, _, _, _) =>
      || (r.Created? && Creatable(w, c, r.id) && w' == Create(w, c, r.id))
      || (r.Failed? && w' == w)
      || (r.Failed? && env.Lossy? && exists id :: Creatable(w, c, id) && w' == Create(w, c, id))
    case DelIface(id) =>
      || (r.Ack? && Deletable(w, id) && w' == Drop(w, id))
      || (r.Failed? && w' == w && (env.Reliable? ==> !Deletable(w, id)))
      || (r.Failed? && env.Lossy? && Deletable(w, id) && w' == Drop(w, id))
    case AddAddr(id, a) =>
      || (r.Ack? && id in w.ifaces && w' == SetAddrs(w, id, w.ifaces[id].addrs + {a}))
      || (r.Failed? && w' == w)
      || (r.Failed? && env.Lossy? && id in w.ifaces && w' == SetAddrs(w, id, w.ifaces[id].addrs + {a}))
    case Flush(id) =>
      // two requests, one per family: a failed flush may have removed some addresses
      || (r.Ack? && id in w.ifaces && w' == SetAddrs(w, id, {}))
      || (r.Failed? && id !in w.ifaces && w' == w)
      || (r.Failed? && !env.Reliable? && id in w.ifaces &&
          exists kept :: kept <= w.ifaces[id].addrs && w' == SetAddrs(w, id, kept))
    case Allocate(att) =>
      || (r.Allocated? && w' == w.(ipam := w.ipam + {att}))
      || (r.Failed? && w' == w)
      || (r.Failed? && env.Lossy? && w' == w.(ipam := w.ipam + {att}))
    case Release(att) =>
      || (r.Ack? && w' == w.(ipam := w.ipam - {att}, releases := w.releases + 1))
      || (r.Failed? && !env.Reliable? && w' == w.(releases := w.releases + 1))
      || (r.Failed? && env.Lossy? && w' == w.(ipam := w.ipam - {att}, releases := w.releases + 1))
    case Collect(keep) =>
      // the IPAM plugin frees what it likes outside the valid attachments
      || (r.Ack? && w' == w.(ipam := w'.ipam) && w'.ipam <= w.ipam && w.ipam * keep <= w'.ipam)
      || (r.Failed? && !env.Reliable? && w' == w)
    case RemoveSock(p) =>
      || (r.Ack? && w' == w.(socks := w.socks - {p}))
      || (r.Failed? && !env.Reliable? && w' == w)
    case Stat(p) =>
      r == Present(p in w.socks) && w' == w
    case ConvertResult => (r.Ack? || r.Failed?) && w' == w
    case MakeDir(_) => (r.Ack? || r.Failed?) && w' == w
    case MoveTap(_, _) => (r.Ack? || r.Failed?) && w' == w
    case SetUpPod(_, _, _, _) => (r.Ack? || r.Failed?) && w' == w
    case ReadPrev => (r.Ack? || r.Failed?) && w' == w
    case VerifyPod(_, _) => (r.Ack? || r.Failed?) && w' == w
  }

  // ---------- searches over a listing ----------

  predicate IsBridge(x: Info, name: bytes) {
    x.name == name && x.kind == KIND_BRIDGE
  }

  /** findBridgeID */
  function FindBridge(l: seq<Info>, name: bytes): (r: Option<Id>)
    ensures r.Some? ==> exists x :: x in l && x.id == r.value && IsBridge(x, name)
    ensures r.None? ==> forall x :: x in l ==> !IsBridge(x, name)
  {
    if l == [] then None
    else if IsBridge(l[0], name) then Some(l[0].id)
    else FindBridge(l[1..], name)
  }

  /** findByName and findPortByName */
  function FindNamed(l: seq<Info>, name: bytes): (r: Option<Info>)
    ensures r.Some? ==> r.value in l && r.value.name == name
    ensures r.None? ==> forall x :: x in l ==> x.name != name
  {
    if l == [] then None
    else if l[0].name == name then Some(l[0])
    else FindNamed(l[1..], name)
  }

  /** Of several matches the first in the list is taken. */
  lemma {:induction false} FindsFirstBridge(l: seq<Info>, name: bytes, k: nat)
    requires k < |l| && IsBridge(l[k], name) && forall j :: 0 <= j < k ==> !IsBridge(l[j], name)
    ensures FindBridge(l, name) == Some(l[k].id)
  {
    if k > 0 {
      FindsFirstBridge(l[1..], name, k - 1);
    }
  }

  lemma {:induction false} FindsFirstNamed(l: seq<Info>, name: bytes, k: nat)
    requires k < |l| && l[k].name == name && forall j :: 0 <= j < k ==> l[j].name != name
    ensures FindNamed(l, name) == Some(l[k])
  {
    if k > 0 {
      FindsFirstNamed(l[1..], name, k - 1);
    }
  }
}
