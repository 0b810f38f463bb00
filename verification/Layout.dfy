/** The hand-computed C struct layouts of pkg/groutapi/client.go. Each encoder writes into a zeroed
    buffer at fixed offsets; its contract says the buffer is then the C struct, field after field,
    so no write overlaps another and all fit. */
module Layout {
  import opened Base
  import opened PortNames
  import opened Gateways
  import opened Wire

  // ---------- buffers ----------

  function Zeros(n: nat): (z: bytes)
    ensures |z| == n && forall i :: 0 <= i < n ==> z[i] == 0
  {
    seq(n, _ => 0)
  }

  /** A fixed-width character array: zero-filled, or cut to the width. */
  function Pad(s: bytes, n: nat): (r: bytes)
    ensures |r| == n
  {
    if |s| >= n then s[..n] else s + Zeros(n - |s|)
  }

  /** Writes d at off, beyond everything written so far (`done`). */
  method Write(a: array<byte>, off: nat, d: bytes, ghost done: bytes)
    requires |done| <= off && off + |d| <= a.Length && a[..] == done + Zeros(a.Length - |done|)
    modifies a
    ensures a[..] == done + Zeros(off - |done|) + d + Zeros(a.Length - off - |d|)
  {
    for i := 0 to |d|
      invariant a[..off] == (done + Zeros(off - |done|))
      invariant a[off..off + i] == d[..i]
      invariant forall j :: off + i <= j < a.Length ==> a[j] == 0
    {
      a[off + i] := d[i];
      assert a[off..off + i + 1] == a[off..off + i] + [d[i]] == d[..i + 1];
    }
    assert a[off + |d|..] == Zeros(a.Length - off - |d|);
    assert a[..] == a[..off] + a[off..off + |d|] + a[off + |d|..];
  }

  /** Writes d over a gap of zeros between `done` and `after`. */
  method WriteGap(a: array<byte>, off: nat, d: bytes, ghost done: bytes, ghost gap: nat, ghost after: bytes)
    requires off == |done| && |d| <= gap && a[..] == done + Zeros(gap) + after
    modifies a
    ensures a[..] == done + d + Zeros(gap - |d|) + after
  {
    ghost var whole := a[..];
    for i := 0 to |d|
      invariant forall j :: 0 <= j < a.Length && !(off <= j < off + i) ==> a[j] == whole[j]
      invariant forall j :: 0 <= j < i ==> a[off + j] == d[j]
    {
      a[off + i] := d[i];
    }
    GapFilled(done, gap, after, d, a[..]);
  }

  /** A sequence that is d inside the gap and what it was elsewhere. */
  lemma GapFilled(done: bytes, gap: nat, after: bytes, d: bytes, s: bytes)
    requires |d| <= gap && |s| == |done| + gap + |after|
    requires forall j :: 0 <= j < |d| ==> s[|done| + j] == d[j]
    requires forall j :: 0 <= j < |s| && !(|done| <= j < |done| + |d|) ==> s[j] == (done + Zeros(gap) + after)[j]
    ensures s == done + d + Zeros(gap - |d|) + after
  {
    var m, n := |done|, |done| + |d|;
    assert s[..m] == done;
    assert s[m..n] == d;
    assert s[n..m + gap] == Zeros(gap - |d|);
    assert s[m + gap..] == after;
    assert s == s[..m] + s[m..n] + s[n..m + gap] + s[m + gap..];
  }

  // ---------- gr_iface ----------

  const IFACE_SIZE := 292
  const NAME_SIZE := 16
  const DEVARGS_SIZE := 128
  const KIND_VXLAN: byte := 7

  /** struct gr_iface: the 20-byte base, the name and the description. */
  function GrIface(id: Id, kind: byte, flags: Id, mtu: Id, domain: Id, name: bytes): (b: bytes)
    ensures |b| == IFACE_SIZE
  {
    Le16(id) + [kind] + Zeros(1) + Le16(flags) + Zeros(2) + Le16(mtu) + Zeros(2) + Le16(domain) + Zeros(6)
    + Pad(name, NAME_SIZE) + Zeros(256)
  }

  /** cString: everything up to the first NUL. */
  function CString(b: bytes): (s: bytes)
    ensures |s| <= |b| && s == b[..|s|] && NulFree(s)
    ensures |s| < |b| ==> b[|s|] == 0
  {
    if b == [] || b[0] == 0 then [] else [b[0]] + CString(b[1..])
  }

  /** A name field: the name, its NUL, and whatever an earlier, longer name left behind. */
  lemma {:induction false} CStringCuts(name: bytes, stale: bytes)
    ensures CString(name + [0] + stale) == name <==> NulFree(name)
  {
    if name == [] {
      assert (name + [0] + stale)[0] == 0;
    } else {
      CStringCuts(name[1..], stale);
      var b := name + [0] + stale;
      assert b[1..] == name[1..] + [0] + stale;
      assert NulFree(name) <==> name[0] != 0 && NulFree(name[1..]);
      if b[0] != 0 {
        assert CString(b) == name <==> CString(b[1..]) == name[1..] by {
          if CString(b) == name {
            assert CString(b)[1..] == CString(b[1..]);
          } else {
            assert name == [name[0]] + name[1..];
          }
        }
      }
    }
  }

  // ---------- gr_iface_list answers ----------

  function DecodeIface(data: bytes): Option<Info> {
    if |data| < IFACE_SIZE then None
    else Some(Info(U16(data[0..2]), data[2], CString(data[20..36]), U16(data[12..14])))
  }

  /** InterfaceList's loop over the streamed items; short items are skipped. */
  function DecodeList(items: seq<bytes>): seq<Info> {
    if items == [] then []
    else
      match DecodeIface(items[0])
      case None => DecodeList(items[1..])
      case Some(e) => [e] + DecodeList(items[1..])
  }

  method DecodeItems(items: seq<bytes>) returns (result: seq<Info>)
    ensures result == DecodeList(items)
  {
    result := [];
    assert items[0..] == items && forall l: seq<Info> :: [] + l == l;
    for k := 0 to |items|
      invariant DecodeList(items) == result + DecodeList(items[k..])
    {
      assert items[k..][0] == items[k] && items[k..][1..] == items[k + 1..];
      var data := items[k];
      if |data| < IFACE_SIZE {
        continue;
      }
      var e := Info(U16(data[0..2]), data[2], CString(data[20..36]), U16(data[12..14]));
      assert result + ([e] + DecodeList(items[k + 1..])) == (result + [e]) + DecodeList(items[k + 1..]);
      result := result + [e];
    }
  }

  /** A gr_iface as grout fills it: everything the client does not read is arbitrary, including the
      bytes after the name's NUL. */
  datatype Filler = Filler(gap1: bytes, gap2: bytes, stale: bytes, more: bytes)

  ghost predicate Fits(name: bytes, f: Filler) {
    |f.gap1| == 9 && |f.gap2| == 6 && |name| + 1 + |f.stale| == NAME_SIZE && |f.more| >= 256
  }

  function GroutRecord(e: Info, f: Filler): bytes {
    Le16(e.id) + [e.kind] + f.gap1 + Le16(e.domain) + f.gap2 + (e.name + [0] + f.stale) + f.more
  }

  /** A listed interface decodes to itself, whatever stale tail follows its name: exactly when the
      name holds no NUL. */
  lemma RecordDecodes(e: Info, f: Filler)
    requires Fits(e.name, f)
    ensures DecodeIface(GroutRecord(e, f)) == Some(e) <==> NulFree(e.name)
  {
    var data := GroutRecord(e, f);
    assert data[0..2] == Le16(e.id) && data[2] == e.kind && data[12..14] == Le16(e.domain);
    assert data[20..36] == e.name + [0] + f.stale;
    CStringCuts(e.name, f.stale);
    Le16Inverse(e.id, [0, 0]);
    Le16Inverse(e.domain, [0, 0]);
  }

  // ---------- gr_iface_add_req ----------

  datatype Vxlan = Vxlan(vni: Word, encapVrf: Id, dstPort: Id, local: bytes)

  datatype AddReq = AddReq(name: bytes, kind: byte, domain: Id, mtu: Id, vhost: bytes, vxlan: Option<Vxlan>)

  /** struct l3_addr holding an IPv4 address. */
  function L3Addr(ip4: bytes): (b: bytes)
    requires |ip4| == 4
    ensures |b| == 20
  {
    [2] + Zeros(3) + ip4 + Zeros(12)
  }

  function DecodeL3(b: bytes): Option<bytes>
    requires |b| == 20
  {
    if b[0] != 2 then None else Some(b[4..8])
  }

  function VxlanInfo(v: Vxlan, ip4: bytes): (b: bytes)
    requires |ip4| == 4
    ensures |b| == 36
  {
    Le32(v.vni) + Le16(v.encapVrf) + Le16(v.dstPort) + L3Addr(ip4) + Zeros(8)
  }

  /** bridgeMAC: 02 and the low 40 bits of the name's 64-bit FNV-1a hash, which enters as a function. */
  function BridgeMac(fnv: bytes -> Long, name: bytes): (mac: bytes)
    ensures |mac| == 6
  {
    var s := fnv(name);
    [2, s % 256, s / 0x100 % 256, s / 0x1_0000 % 256, s / 0x100_0000 % 256, s / 0x1_0000_0000 % 256]
  }

  /** Unicast and locally administered, and shared exactly by names whose hashes agree in 40 bits. */
  lemma BridgeMacExact(fnv: bytes -> Long, m: bytes, n: bytes)
    ensures var a := BridgeMac(fnv, m); a[0] == 2 && Horner(a[1], a[2], a[3], a[4], a[5]) == fnv(m) % 0x100_0000_0000
    ensures BridgeMac(fnv, m) == BridgeMac(fnv, n) <==> fnv(m) % 0x100_0000_0000 == fnv(n) % 0x100_0000_0000
  {
    var a, b := BridgeMac(fnv, m), BridgeMac(fnv, n);
    Low40(fnv(m));
    Low40(fnv(n));
    if a == b {
      assert a[1] == b[1] && a[2] == b[2] && a[3] == b[3] && a[4] == b[4] && a[5] == b[5];
    }
    if Horner(a[1], a[2], a[3], a[4], a[5]) == Horner(b[1], b[2], b[3], b[4], b[5]) {
      HornerExact(a, b);
      assert a == b;
    }
  }

  /** The value of five bytes, least significant first. */
  function Horner(b0: byte, b1: byte, b2: byte, b3: byte, b4: byte): int {
    b0 as int + 256 * (b1 as int + 256 * (b2 as int + 256 * (b3 as int + 256 * (b4 as int))))
  }

  lemma Peel(a: byte, x: int, b: byte, y: int)
    requires a + 256 * x == b + 256 * y
    ensures a == b && x == y
  {
  }

  lemma HornerExact(a: bytes, b: bytes)
    requires |a| == |b| == 6 && Horner(a[1], a[2], a[3], a[4], a[5]) == Horner(b[1], b[2], b[3], b[4], b[5])
    ensures a[1..] == b[1..]
  {
    var a1: int, a2: int, a3: int, a4: int, a5: int := a[1], a[2], a[3], a[4], a[5];
    var b1: int, b2: int, b3: int, b4: int, b5: int := b[1], b[2], b[3], b[4], b[5];
    Peel(a1, a2 + 256 * (a3 + 256 * (a4 + 256 * a5)), b1, b2 + 256 * (b3 + 256 * (b4 + 256 * b5)));
    Peel(a2, a3 + 256 * (a4 + 256 * a5), b2, b3 + 256 * (b4 + 256 * b5));
    Peel(a3, a4 + 256 * a5, b3, b4 + 256 * b5);
    Peel(a4, a5, b4, b5);
  }

  /** Repeated division by 256. */
  lemma Shifts(s: Long)
    ensures s / 0x1_0000 == s / 256 / 256
    ensures s / 0x100_0000 == s / 256 / 256 / 256
    ensures s / 0x1_0000_0000 == s / 256 / 256 / 256 / 256
  {
  }

  lemma Low40(s: Long)
    ensures s % 0x100_0000_0000 ==
            Horner(s % 256, s / 0x100 % 256, s / 0x1_0000 % 256, s / 0x100_0000 % 256, s / 0x1_0000_0000 % 256)
  {
    Shifts(s);
    var a := s / 256;
    var b := a / 256;
    var c := b / 256;
    var d := c / 256;
    LowSum(s, a, b, c, d);
  }

  lemma LowSum(s: int, a: int, b: int, c: int, d: int)
    requires 0 <= s && a == s / 256 && b == a / 256 && c == b / 256 && d == c / 256
    ensures s % 0x100_0000_0000 == Horner(s % 256, a % 256, b % 256, c % 256, d % 256)
  {
    var s0, a0, b0, c0, d0, e := s % 256, a % 256, b % 256, c % 256, d % 256, d / 256;
    assert s == s0 + 256 * a && a == a0 + 256 * b && b == b0 + 256 * c && c == c0 + 256 * d && d == d0 + 256 * e;
    LowRest(s0 + 256 * (a0 + 256 * (b0 + 256 * (c0 + 256 * d0))), e);
  }

  lemma LowRest(x: int, e: int)
    requires 0 <= x < 0x100_0000_0000
    ensures (x + 0x100_0000_0000 * e) % 0x100_0000_0000 == x
  {
  }

  function BridgeInfo(mac: bytes): (b: bytes)
    requires |mac| == 6
    ensures |b| == 140
  {
    Zeros(4) + mac + Zeros(130)
  }

  function PortInfo(devargs: bytes): (b: bytes)
    ensures |b| == 174
  {
    Zeros(14) + Pad(devargs, DEVARGS_SIZE) + Zeros(32)
  }

  /** "net_tap_", "net_vhost_" and ",iface=" */
  const NET_TAP: bytes := [0x6e, 0x65, 0x74, 0x5f, 0x74, 0x61, 0x70, 0x5f]
  const NET_VHOST: bytes := [0x6e, 0x65, 0x74, 0x5f, 0x76, 0x68, 0x6f, 0x73, 0x74, 0x5f]
  const IFACE_ARG: bytes := [0x2c, 0x69, 0x66, 0x61, 0x63, 0x65, 0x3d]

  predicate IsAlnum(c: byte) {
    0x61 <= c <= 0x7a || 0x30 <= c <= 0x39
  }

  /** UTF-8 of the Kelvin sign and of the dotted capital I, the two characters outside ASCII whose
      lowercase forms, k and i, are in it. */
  const KELVIN: bytes := [0xe2, 0x84, 0xaa]
  const DOTTED_I: bytes := [0xc4, 0xb0]

  /** The next character of a non-empty UTF-8 string, lowercased, and its width. What is not ASCII then is
      dropped by vdevID, so it does not matter that it is skipped byte by byte. */
  function NextLower(s: bytes): (r: (byte, nat))
    requires s != []
    ensures 0 < r.1 <= |s|
  {
    if HasPrefix(s, KELVIN) then (0x6b, 3)
    else if HasPrefix(s, DOTTED_I) then (0x69, 2)
    else (Lower(s[0]), 1)
  }

  /** The letters and digits of a name, lowercased. */
  function VdevId(name: bytes): bytes {
    if name == [] then []
    else
      var (c, n) := NextLower(name);
      (if IsAlnum(c) then [c] else []) + VdevId(name[n..])
  }

  lemma VdevNext(id: bytes, s: bytes, c: byte, n: nat)
    requires s != [] && NextLower(s) == (c, n)
    ensures id + VdevId(s) == (if IsAlnum(c) then id + [c] else id) + VdevId(s[n..])
  {
    var more := VdevId(s[n..]);
    assert id + ([c] + more) == (id + [c]) + more && id + ([] + more) == id + more;
  }

  /** vdevID: a string builder filled one character at a time. */
  method BuildVdevId(name: bytes) returns (id: bytes)
    ensures id == VdevId(name)
  {
    id := [];
    var rest := name;
    assert [] + VdevId(name) == VdevId(name);
    while rest != []
      invariant VdevId(name) == id + VdevId(rest)
      decreases |rest|
    {
      var (c, n) := NextLower(rest);
      VdevNext(id, rest, c, n);
      if IsAlnum(c) {
        id := id + [c];
      }
      rest := rest[n..];
    }
    assert id + [] == id;
  }

  function Devargs(req: AddReq): bytes {
    if req.vhost == [] then NET_TAP + VdevId(req.name) + IFACE_ARG + req.name
    else NET_VHOST + VdevId(req.name) + IFACE_ARG + req.vhost
  }

  /** The whole request as a C struct; None where the client refuses to send it. */
  function IfaceAddBytes(req: AddReq, fnv: bytes -> Long): Option<bytes> {
    var base := GrIface(0, req.kind, 1, req.mtu, req.domain, req.name);
    if req.kind == KIND_BRIDGE then Some(base + BridgeInfo(BridgeMac(fnv, req.name)))
    else if req.kind == KIND_VXLAN then
      if req.vxlan.None? || To4(req.vxlan.value.local).None? then None
      else Some(base + VxlanInfo(req.vxlan.value, To4(req.vxlan.value.local).value))
    else if |Devargs(req)| >= DEVARGS_SIZE then None
    else Some(base + PortInfo(Devargs(req)))
  }

  /** Id, type and flags: the first six bytes. */
  function Front(kind: byte): (b: bytes)
    ensures |b| == 6
  {
    Le16(0) + [kind] + Zeros(1) + Le16(1)
  }

  method WriteFront(a: array<byte>, kind: byte)
    requires a.Length >= IFACE_SIZE && a[..] == Zeros(a.Length)
    modifies a
    ensures a[..] == Front(kind) + Zeros(a.Length - 6)
  {
    assert [] + Zeros(a.Length) == Zeros(a.Length);
    Write(a, 0, Le16(0), []);
    assert [] + Zeros(0) + Le16(0) == Le16(0);
    Write(a, 2, [kind], Le16(0));
    assert Le16(0) + Zeros(0) + [kind] == Le16(0) + [kind];
    Write(a, 4, Le16(1), Le16(0) + [kind]);
  }

  /** Domain, then MTU, each only when set. */
  method WriteLinks(a: array<byte>, domain: Id, mtu: Id, ghost front: bytes)
    requires |front| == 6 && a.Length >= IFACE_SIZE && a[..] == front + Zeros(a.Length - 6)
    modifies a
    ensures a[..] == front + Zeros(2) + Le16(mtu) + Zeros(2) + Le16(domain) + Zeros(a.Length - 14)
  {
    assert Le16(0) == Zeros(2);
    ghost var tail := Le16(domain) + Zeros(a.Length - 14);
    if domain != 0 {
      Write(a, 12, Le16(domain), front);
    }
    assert a[..] == (front + Zeros(2)) + Zeros(4) + tail;
    if mtu != 0 {
      WriteGap(a, 8, Le16(mtu), front + Zeros(2), 4, tail);
    }
    assert a[..] == front + Zeros(2) + Le16(mtu) + Zeros(2) + tail;
  }

  /** copy into the 16-byte name field. */
  method WriteName(a: array<byte>, name: bytes, ghost done: bytes)
    requires |done| == 14 && a.Length >= IFACE_SIZE && a[..] == done + Zeros(a.Length - 14)
    modifies a
    ensures a[..] == done + Zeros(6) + Pad(name, NAME_SIZE) + Zeros(a.Length - 36)
  {
    var cut := if |name| > NAME_SIZE then name[..NAME_SIZE] else name;
    Write(a, 20, cut, done);
    assert cut + Zeros(a.Length - 20 - |cut|) == Pad(name, NAME_SIZE) + Zeros(a.Length - 36);
    assert a[..] == (done + Zeros(6)) + (cut + Zeros(a.Length - 20 - |cut|));
  }

  /** The base layout, written in the order of InterfaceAdd. */
  method WriteBase(a: array<byte>, req: AddReq)
    requires a.Length >= IFACE_SIZE && a[..] == Zeros(a.Length)
    modifies a
    ensures a[..] == GrIface(0, req.kind, 1, req.mtu, req.domain, req.name) + Zeros(a.Length - IFACE_SIZE)
  {
    ghost var n := a.Length;
    WriteFront(a, req.kind);
    WriteLinks(a, req.domain, req.mtu, Front(req.kind));
    ghost var done := Front(req.kind) + Zeros(2) + Le16(req.mtu) + Zeros(2) + Le16(req.domain);
    WriteName(a, req.name, done);
    assert Zeros(n - 36) == Zeros(256) + Zeros(n - IFACE_SIZE);
    ghost var head := done + Zeros(6) + Pad(req.name, NAME_SIZE);
    assert a[..] == (head + Zeros(256)) + Zeros(n - IFACE_SIZE);
  }

  method BuildBridge(req: AddReq, fnv: bytes -> Long) returns (p: bytes)
    ensures p == GrIface(0, req.kind, 1, req.mtu, req.domain, req.name) + BridgeInfo(BridgeMac(fnv, req.name))
  {
    var mac := BridgeMac(fnv, req.name);
    ghost var base := GrIface(0, req.kind, 1, req.mtu, req.domain, req.name);
    var a := NewBuffer(IFACE_SIZE + 140);
    WriteBase(a, req);
    Write(a, 296, mac, base);
    assert base + Zeros(4) + mac + Zeros(130) == base + BridgeInfo(mac);
    return a[..];
  }

  method BuildVxlan(req: AddReq, v: Vxlan) returns (p: Option<bytes>)
    ensures p == if To4(v.local).None? then None
                 else Some(GrIface(0, req.kind, 1, req.mtu, req.domain, req.name) + VxlanInfo(v, To4(v.local).value))
  {
    ghost var base := GrIface(0, req.kind, 1, req.mtu, req.domain, req.name);
    var a := NewBuffer(IFACE_SIZE + 36);
    WriteBase(a, req);
    WriteVxlan(a, v, base);
    var ip4 := To4(v.local);
    if ip4.None? {
      return None;
    }
    ghost var head := base + Le32(v.vni) + Le16(v.encapVrf) + Le16(v.dstPort);
    WriteL3(a, 300, ip4.value, head);
    assert head + L3Addr(ip4.value) + Zeros(8) == base + VxlanInfo(v, ip4.value);
    return Some(a[..]);
  }

  method BuildPort(req: AddReq) returns (p: Option<bytes>)
    ensures p == if |Devargs(req)| >= DEVARGS_SIZE then None
                 else Some(GrIface(0, req.kind, 1, req.mtu, req.domain, req.name) + PortInfo(Devargs(req)))
  {
    var id := BuildVdevId(req.name);
    var devargs := NET_TAP + id + IFACE_ARG + req.name;
    if req.vhost != [] {
      devargs := NET_VHOST + id + IFACE_ARG + req.vhost;
    }
    if |devargs| >= DEVARGS_SIZE {
      return None;
    }
    assert devargs == Devargs(req);
    var payload := FillPort(req, devargs);
    return Some(payload);
  }

  method FillPort(req: AddReq, devargs: bytes) returns (p: bytes)
    requires |devargs| < DEVARGS_SIZE
    ensures p == GrIface(0, req.kind, 1, req.mtu, req.domain, req.name) + PortInfo(devargs)
  {
    ghost var base := GrIface(0, req.kind, 1, req.mtu, req.domain, req.name);
    var a := NewBuffer(IFACE_SIZE + 174);
    WriteBase(a, req);
    Write(a, 306, devargs, base);
    PortInfoAt(base, devargs);
    return a[..];
  }

  lemma PortInfoAt(base: bytes, devargs: bytes)
    requires |devargs| < DEVARGS_SIZE
    ensures base + Zeros(14) + devargs + Zeros(160 - |devargs|) == base + PortInfo(devargs)
  {
    assert devargs + Zeros(160 - |devargs|) == Pad(devargs, DEVARGS_SIZE) + Zeros(32);
  }

  /** InterfaceAdd's payload, built in place. */
  method BuildIfaceAdd(req: AddReq, fnv: bytes -> Long) returns (r: Option<bytes>)
    ensures r == IfaceAddBytes(req, fnv)
  {
    if req.kind == KIND_BRIDGE {
      var p := BuildBridge(req, fnv);
      r := Some(p);
    } else if req.kind == KIND_VXLAN {
      if req.vxlan.None? {
        return None;
      }
      r := BuildVxlan(req, req.vxlan.value);
    } else {
      r := BuildPort(req);
    }
  }

  /** putL3AddrIPv4 */
  method WriteL3(a: array<byte>, off: nat, ip4: bytes, ghost done: bytes)
    requires |ip4| == 4 && off == |done| && off + 20 <= a.Length && a[..] == done + Zeros(a.Length - off)
    modifies a
    ensures a[..] == done + L3Addr(ip4) + Zeros(a.Length - off - 20)
  {
    Write(a, off, [2], done);
    assert done + Zeros(0) + [2] == done + [2];
    Write(a, off + 4, ip4, done + [2]);
    assert Zeros(a.Length - off - 8) == Zeros(12) + Zeros(a.Length - off - 20);
    assert done + [2] + Zeros(3) + ip4 + Zeros(12) == done + L3Addr(ip4);
  }

  method NewBuffer(n: nat) returns (a: array<byte>)
    ensures fresh(a) && a.Length == n && a[..] == Zeros(n)
  {
    a := new byte[n](_ => 0);
  }

  method WriteVxlan(a: array<byte>, v: Vxlan, ghost base: bytes)
    requires |base| == IFACE_SIZE && a.Length == IFACE_SIZE + 36 && a[..] == base + Zeros(36)
    modifies a
    ensures a[..] == base + Le32(v.vni) + Le16(v.encapVrf) + Le16(v.dstPort) + Zeros(28)
  {
    Write(a, 292, Le32(v.vni), base);
    ghost var d1 := base + Le32(v.vni);
    assert base + Zeros(0) + Le32(v.vni) == d1;
    Write(a, 296, Le16(v.encapVrf), d1);
    ghost var d2 := d1 + Le16(v.encapVrf);
    assert d1 + Zeros(0) + Le16(v.encapVrf) == d2;
    Write(a, 298, Le16(v.dstPort), d2);
    assert d2 + Zeros(0) + Le16(v.dstPort) == d2 + Le16(v.dstPort);
  }

  /** What ADD encodes, grout's struct decodes: the same name, type and domain, for every NUL-free
      name of at most 15 bytes. */
  lemma AddCarriesName(req: AddReq, fnv: bytes -> Long)
    requires NulFree(req.name) && |req.name| < NAME_SIZE && IfaceAddBytes(req, fnv).Some?
    ensures DecodeIface(IfaceAddBytes(req, fnv).value) == Some(Info(0, req.kind, req.name, req.domain))
  {
    var data := IfaceAddBytes(req, fnv).value;
    var base := GrIface(0, req.kind, 1, req.mtu, req.domain, req.name);
    assert data[..IFACE_SIZE] == base;
    assert data[0..2] == base[0..2] == Le16(0) && data[2] == req.kind;
    assert data[12..14] == base[12..14] == Le16(req.domain);
    assert data[20..36] == base[20..36] == Pad(req.name, NAME_SIZE);
    assert Pad(req.name, NAME_SIZE) == req.name + [0] + Zeros(15 - |req.name|);
    CStringCuts(req.name, Zeros(15 - |req.name|));
    Le16Inverse(0, [0, 0]);
    Le16Inverse(req.domain, [0, 0]);
  }

  /** The base of a request read at its offsets: no id, the type, the flag UP, MTU, domain and name. */
  lemma AddReadBack(req: AddReq, fnv: bytes -> Long)
    requires IfaceAddBytes(req, fnv).Some?
    ensures var p := IfaceAddBytes(req, fnv).value;
            && |p| >= IFACE_SIZE && U16(p[0..2]) == 0 && p[2] == req.kind && U16(p[4..6]) == 1
            && U16(p[8..10]) == req.mtu && U16(p[12..14]) == req.domain && p[20..36] == Pad(req.name, 16)
  {
    var p := IfaceAddBytes(req, fnv).value;
    var base := GrIface(0, req.kind, 1, req.mtu, req.domain, req.name);
    assert p[..IFACE_SIZE] == base;
    assert p[0..2] == base[0..2] == Le16(0) && p[2] == base[2] && p[4..6] == base[4..6] == Le16(1);
    assert p[8..10] == base[8..10] == Le16(req.mtu) && p[12..14] == base[12..14] == Le16(req.domain);
    assert p[20..36] == base[20..36] == Pad(req.name, 16);
    Le16Inverse(0, [0, 0]);
    Le16Inverse(1, [0, 0]);
    Le16Inverse(req.mtu, [0, 0]);
    Le16Inverse(req.domain, [0, 0]);
  }

  /** A bridge request is 432 bytes long and has the bridge's MAC at offset 296. */
  lemma BridgeReadBack(req: AddReq, fnv: bytes -> Long)
    requires req.kind == KIND_BRIDGE
    ensures IfaceAddBytes(req, fnv).Some?
    ensures var p := IfaceAddBytes(req, fnv).value; |p| == 432 && p[296..302] == BridgeMac(fnv, req.name)
  {
    var p := IfaceAddBytes(req, fnv).value;
    assert p[292..] == BridgeInfo(BridgeMac(fnv, req.name));
    assert p[296..302] == p[292..][4..10];
  }

  /** A port request is 466 bytes long and has the NUL-terminated device arguments at offset 306. */
  lemma PortReadBack(req: AddReq, fnv: bytes -> Long)
    requires req.kind != KIND_BRIDGE && req.kind != KIND_VXLAN
    ensures IfaceAddBytes(req, fnv).Some? <==> |Devargs(req)| < DEVARGS_SIZE
    ensures IfaceAddBytes(req, fnv).Some? ==>
              var p, n := IfaceAddBytes(req, fnv).value, |Devargs(req)|;
              |p| == 466 && p[306..306 + n] == Devargs(req) && p[306 + n] == 0
  {
    if IfaceAddBytes(req, fnv).Some? {
      var p, n, info := IfaceAddBytes(req, fnv).value, |Devargs(req)|, PortInfo(Devargs(req));
      assert p[292..] == info;
      assert p[306..306 + n] == info[14..14 + n] == Pad(Devargs(req), DEVARGS_SIZE)[..n];
      assert p[306 + n] == info[14 + n] == Pad(Devargs(req), DEVARGS_SIZE)[n];
    }
  }
}
