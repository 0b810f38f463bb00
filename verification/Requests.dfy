/** Address, route and flood requests of pkg/groutapi/client.go: built at fixed offsets, read back
    as grout reads the C structs. */
module Requests {
  import opened Base
  import opened Gateways
  import opened Wire
  import opened Layout

  // ---------- IPMask.Size ----------

  predicate AllZero(b: bytes) {
    forall i :: 0 <= i < |b| ==> b[i] == 0
  }

  /** Leading ones of a byte that has no one after a zero; None otherwise. */
  function ByteOnes(b: byte): Option<nat> {
    match b
    case 0 => Some(0) case 128 => Some(1) case 192 => Some(2) case 224 => Some(3) case 240 => Some(4)
    case 248 => Some(5) case 252 => Some(6) case 254 => Some(7) case 255 => Some(8)
    case _ => None
  }

  function Ones(mask: bytes): (r: Option<nat>)
    ensures r.Some? ==> r.value <= 8 * |mask|
  {
    if mask == [] then Some(0)
    else if mask[0] == 255 then
      match Ones(mask[1..])
      case Some(k) => Some(8 + k)
      case None => None
    else if AllZero(mask[1..]) then ByteOnes(mask[0])
    else None
  }

  /** The prefix length; 0 for a mask that is not contiguous. */
  function PrefixLen(mask: bytes): nat {
    match Ones(mask) case Some(k) => k case None => 0
  }

  lemma PrefixSplit(mask: bytes, p: nat)
    requires mask != []
    ensures mask == PrefixMask(|mask|, p)
            <==> mask[0] == PrefixByte(p, 0) && mask[1..] == PrefixMask(|mask| - 1, if p >= 8 then p - 8 else 0)
  {
    var want := PrefixMask(|mask|, p);
    assert want[1..] == PrefixMask(|mask| - 1, if p >= 8 then p - 8 else 0);
    assert mask == [mask[0]] + mask[1..] && want == [want[0]] + want[1..];
  }

  lemma ByteOnesExact(b: byte, p: nat)
    requires b != 255
    ensures ByteOnes(b) == Some(p) <==> p < 8 && b == PrefixByte(p, 0)
  {
  }

  /** Size recognises exactly the contiguous masks, and gives their prefix length. */
  lemma {:induction false} OnesExact(mask: bytes, p: nat)
    requires p <= 8 * |mask|
    ensures Ones(mask) == Some(p) <==> mask == PrefixMask(|mask|, p)
  {
    if mask != [] {
      PrefixSplit(mask, p);
      if mask[0] != 255 {
        ByteOnesExact(mask[0], p);
        assert AllZero(mask[1..]) <==> mask[1..] == PrefixMask(|mask| - 1, 0);
      } else if p >= 8 {
        OnesExact(mask[1..], p - 8);
      }
    }
  }

  /** So the length of a prefix mask is its prefix, and that of any other mask 0. */
  lemma PrefixLenExact(mask: bytes, p: nat)
    requires p <= 8 * |mask|
    ensures mask == PrefixMask(|mask|, p) ==> PrefixLen(mask) == p
    ensures (forall q :: 0 <= q <= 8 * |mask| ==> mask != PrefixMask(|mask|, q)) ==> PrefixLen(mask) == 0
  {
    OnesExact(mask, p);
    if Ones(mask).Some? {
      OnesExact(mask, Ones(mask).value);
    }
  }

  // ---------- addresses ----------

  /** What an address or route request says, once decoded. */
  datatype Fields = Fields(id: Id, ip: bytes, len: byte, flag: byte)

  function FlagByte(b: bool): byte {
    if b then 1 else 0
  }

  /** gr_ip4_addr_add/del_req, and gr_ip4_route_del_req, which has the same shape. */
  function Ip4Req(f: Fields): (b: bytes)
    requires |f.ip| == 4
    ensures |b| == 16
  {
    Le16(f.id) + Zeros(2) + f.ip + [f.len] + Zeros(3) + [f.flag] + Zeros(3)
  }

  /** gr_ip6_addr_add/del_req */
  function Ip6Req(f: Fields): (b: bytes)
    requires |f.ip| == 16
    ensures |b| == 22
  {
    Le16(f.id) + f.ip + [f.len] + Zeros(1) + [f.flag] + Zeros(1)
  }

  method BuildIp4(f: Fields) returns (p: bytes)
    requires |f.ip| == 4
    ensures p == Ip4Req(f)
  {
    var a := NewBuffer(16);
    assert [] + Zeros(16) == Zeros(16);
    Write(a, 0, Le16(f.id), []);
    ghost var d := Le16(f.id);
    assert [] + Zeros(0) + d == d;
    Write(a, 4, f.ip, d);
    d := d + Zeros(2) + f.ip;
    Write(a, 8, [f.len], d);
    assert d + Zeros(0) + [f.len] == d + [f.len];
    d := d + [f.len];
    Write(a, 12, [f.flag], d);
    return a[..];
  }

  method BuildIp6(f: Fields) returns (p: bytes)
    requires |f.ip| == 16
    ensures p == Ip6Req(f)
  {
    var a := NewBuffer(22);
    assert [] + Zeros(22) == Zeros(22);
    Write(a, 0, Le16(f.id), []);
    ghost var d := Le16(f.id);
    assert [] + Zeros(0) + d == d;
    Write(a, 2, f.ip, d);
    assert d + Zeros(0) + f.ip == d + f.ip;
    d := d + f.ip;
    Write(a, 18, [f.len], d);
    assert d + Zeros(0) + [f.len] == d + [f.len];
    d := d + [f.len];
    Write(a, 20, [f.flag], d);
    return a[..];
  }

  function ReadIp4(p: bytes): Fields
    requires |p| == 16
  {
    Fields(U16(p[0..2]), p[4..8], p[8], p[12])
  }

  function ReadIp6(p: bytes): Fields
    requires |p| == 22
  {
    Fields(U16(p[0..2]), p[2..18], p[18], p[20])
  }

  datatype Family = V4 | V6

  /** AddressAdd and AddressDel: family and payload, or None for an address of neither family. */
  method BuildAddress(iface: Id, net: IPNet, flag: bool) returns (fam: Family, p: Option<bytes>)
    ensures p.Some? <==> |net.ip| == 4 || |net.ip| == 16
    ensures fam.V4? <==> IsV4(net.ip)
    ensures p.Some? && fam.V4? ==>
              |p.value| == 16 && ReadIp4(p.value) == Fields(iface, To4(net.ip).value, PrefixLen(net.mask) % 256, FlagByte(flag))
    ensures p.Some? && fam.V6? ==>
              |p.value| == 22 && ReadIp6(p.value) == Fields(iface, net.ip, PrefixLen(net.mask) % 256, FlagByte(flag))
    ensures p.Some? ==> p.value[if fam.V4? then 12 else 20] == if flag then 1 else 0
  {
    var len := PrefixLen(net.mask) % 256;
    var ip4 := To4(net.ip);
    if ip4.Some? {
      var f := Fields(iface, ip4.value, len, FlagByte(flag));
      var payload := BuildIp4(f);
      Ip4RoundTrip(f);
      return V4, Some(payload);
    }
    var ip6 := To16(net.ip);
    if ip6.None? {
      return V6, None;
    }
    var f := Fields(iface, ip6.value, len, FlagByte(flag));
    var payload := BuildIp6(f);
    Ip6RoundTrip(f);
    return V6, Some(payload);
  }

  lemma Ip4RoundTrip(f: Fields)
    requires |f.ip| == 4
    ensures ReadIp4(Ip4Req(f)) == f
  {
    Le16Inverse(f.id, [0, 0]);
    var p := Ip4Req(f);
    assert p[0..2] == Le16(f.id) && p[4..8] == f.ip;
  }

  lemma Ip6RoundTrip(f: Fields)
    requires |f.ip| == 16
    ensures ReadIp6(Ip6Req(f)) == f
  {
    Le16Inverse(f.id, [0, 0]);
    var p := Ip6Req(f);
    assert p[0..2] == Le16(f.id) && p[2..18] == f.ip;
  }

  // ---------- routes ----------

  /** GR_NH_ORIGIN_STATIC */
  const STATIC: byte := 4

  function Vrf(v: Id): Id {
    if v == 0 then 1 else v
  }

  datatype Route = Route(dest: Fields, via: bytes)

  /** gr_ip4_route_add_req, 24 bytes */
  function Route4(r: Route): (b: bytes)
    requires |r.dest.ip| == 4 && |r.via| == 4
    ensures |b| == 24
  {
    Le16(r.dest.id) + Zeros(2) + r.dest.ip + [r.dest.len] + Zeros(3) + r.via + Zeros(4) + [STATIC] + [r.dest.flag] + Zeros(2)
  }

  /** gr_ip6_route_add_req, 44 bytes */
  function Route6(r: Route): (b: bytes)
    requires |r.dest.ip| == 16 && |r.via| == 16
    ensures |b| == 44
  {
    Le16(r.dest.id) + r.dest.ip + [r.dest.len] + r.via + Zeros(5) + [STATIC] + [r.dest.flag] + Zeros(2)
  }

  function ReadRoute4(p: bytes): Route
    requires |p| == 24
  {
    Route(Fields(U16(p[0..2]), p[4..8], p[8], p[21]), p[12..16])
  }

  function ReadRoute6(p: bytes): Route
    requires |p| == 44
  {
    Route(Fields(U16(p[0..2]), p[2..18], p[18], p[41]), p[19..35])
  }

  lemma Route4RoundTrip(r: Route)
    requires |r.dest.ip| == 4 && |r.via| == 4
    ensures ReadRoute4(Route4(r)) == r && Route4(r)[20] == STATIC
  {
    Le16Inverse(r.dest.id, [0, 0]);
    var p := Route4(r);
    assert p[0..2] == Le16(r.dest.id) && p[4..8] == r.dest.ip && p[12..16] == r.via;
  }

  lemma Route6RoundTrip(r: Route)
    requires |r.dest.ip| == 16 && |r.via| == 16
    ensures ReadRoute6(Route6(r)) == r && Route6(r)[40] == STATIC
  {
    Le16Inverse(r.dest.id, [0, 0]);
    var p := Route6(r);
    assert p[0..2] == Le16(r.dest.id) && p[2..18] == r.dest.ip && p[19..35] == r.via;
  }

  method BuildRoute4(r: Route) returns (p: bytes)
    requires |r.dest.ip| == 4 && |r.via| == 4
    ensures p == Route4(r)
  {
    var a := NewBuffer(24);
    assert [] + Zeros(24) == Zeros(24);
    Write(a, 0, Le16(r.dest.id), []);
    ghost var d := Le16(r.dest.id);
    assert [] + Zeros(0) + d == d;
    Write(a, 4, r.dest.ip, d);
    d := d + Zeros(2) + r.dest.ip;
    Write(a, 8, [r.dest.len], d);
    assert d + Zeros(0) + [r.dest.len] == d + [r.dest.len];
    d := d + [r.dest.len];
    Write(a, 12, r.via, d);
    d := d + Zeros(3) + r.via;
    Write(a, 20, [STATIC], d);
    d := d + Zeros(4) + [STATIC];
    Write(a, 21, [r.dest.flag], d);
    assert d + Zeros(0) + [r.dest.flag] == d + [r.dest.flag];
    return a[..];
  }

  method BuildRoute6(r: Route) returns (p: bytes)
    requires |r.dest.ip| == 16 && |r.via| == 16
    ensures p == Route6(r)
  {
    var a := NewBuffer(44);
    assert [] + Zeros(44) == Zeros(44);
    Write(a, 0, Le16(r.dest.id), []);
    ghost var d := Le16(r.dest.id);
    assert [] + Zeros(0) + d == d;
    Write(a, 2, r.dest.ip, d);
    assert d + Zeros(0) + r.dest.ip == d + r.dest.ip;
    d := d + r.dest.ip;
    Write(a, 18, [r.dest.len], d);
    assert d + Zeros(0) + [r.dest.len] == d + [r.dest.len];
    d := d + [r.dest.len];
    Write(a, 19, r.via, d);
    assert d + Zeros(0) + r.via == d + r.via;
    d := d + r.via;
    Write(a, 40, [STATIC], d);
    d := d + Zeros(5) + [STATIC];
    Write(a, 41, [r.dest.flag], d);
    assert d + Zeros(0) + [r.dest.flag] == d + [r.dest.flag];
    return a[..];
  }

  /** RouteAdd: the payload decodes to the default-filled VRF, destination, next hop and flag; it is
      refused for a destination of neither family, a next hop of neither, or IPv4 via non-IPv4. */
  method BuildRouteAdd(vrf: Id, dest: IPNet, via: bytes, flag: bool) returns (fam: Family, p: Option<bytes>)
    ensures fam.V4? <==> IsV4(dest.ip)
    ensures p.Some? <==> if IsV4(dest.ip) then IsV4(via) else To16(dest.ip).Some? && To16(via).Some?
    ensures p.Some? && fam.V4? ==>
              |p.value| == 24 &&
              ReadRoute4(p.value) == Route(Fields(Vrf(vrf), To4(dest.ip).value, PrefixLen(dest.mask) % 256, FlagByte(flag)), To4(via).value)
    ensures p.Some? && fam.V6? ==>
              |p.value| == 44 &&
              ReadRoute6(p.value) == Route(Fields(Vrf(vrf), dest.ip, PrefixLen(dest.mask) % 256, FlagByte(flag)), To16(via).value)
    ensures p.Some? ==>
              var n := if fam.V4? then 20 else 40;
              && U16(p.value[0..2]) == (if vrf == 0 then 1 else vrf)
              && p.value[n] == 4 && p.value[n + 1] == if flag then 1 else 0
  {
    var len := PrefixLen(dest.mask) % 256;
    var d4 := To4(dest.ip);
    if d4.Some? {
      var n4 := To4(via);
      if n4.None? {
        return V4, None;
      }
      var r := Route(Fields(Vrf(vrf), d4.value, len, FlagByte(flag)), n4.value);
      var payload := BuildRoute4(r);
      Route4RoundTrip(r);
      return V4, Some(payload);
    }
    var d6, n6 := To16(dest.ip), To16(via);
    if d6.None? || n6.None? {
      return V6, None;
    }
    var r := Route(Fields(Vrf(vrf), d6.value, len, FlagByte(flag)), n6.value);
    var payload := BuildRoute6(r);
    Route6RoundTrip(r);
    return V6, Some(payload);
  }

  // ---------- flood lists and VXLAN ----------

  datatype Flood = Flood(vrf: Id, vni: Word, addr: bytes)

  /** gr_flood_entry with GR_FLOOD_T_VTEP, 28 bytes */
  function FloodEntry(f: Flood): (b: bytes)
    requires |f.addr| == 4
    ensures |b| == 28
  {
    [1] + Zeros(1) + Le16(f.vrf) + Le32(f.vni) + L3Addr(f.addr)
  }

  /** FloodAdd and FloodDel; None for an address that is not IPv4. */
  method BuildFlood(vrf: Id, vni: Word, addr: bytes, flag: bool) returns (p: Option<bytes>)
    ensures p.Some? <==> IsV4(addr)
    ensures p.Some? ==> p.value == FloodEntry(Flood(Vrf(vrf), vni, To4(addr).value)) + [FlagByte(flag)] + Zeros(3)
    ensures p.Some? ==>
              && |p.value| == 32 && p.value[0] == 1 && U16(p.value[2..4]) == (if vrf == 0 then 1 else vrf)
              && U32(p.value[4..8]) == vni && p.value[8] == 2 && p.value[12..16] == To4(addr).value
              && p.value[28] == if flag then 1 else 0
  {
    var ip4 := To4(addr);
    if ip4.None? {
      return None;
    }
    var a := NewBuffer(32);
    assert [] + Zeros(32) == Zeros(32);
    Write(a, 0, [1], []);
    ghost var d := [1];
    assert [] + Zeros(0) + d == d;
    Write(a, 2, Le16(Vrf(vrf)), d);
    d := d + Zeros(1) + Le16(Vrf(vrf));
    Write(a, 4, Le32(vni), d);
    assert d + Zeros(0) + Le32(vni) == d + Le32(vni);
    d := d + Le32(vni);
    WriteL3(a, 8, ip4.value, d);
    d := d + L3Addr(ip4.value);
    Write(a, 28, [FlagByte(flag)], d);
    assert d + Zeros(0) + [FlagByte(flag)] == d + [FlagByte(flag)];
    FloodRead(Flood(Vrf(vrf), vni, ip4.value), [FlagByte(flag)] + Zeros(3));
    assert a[..] == FloodEntry(Flood(Vrf(vrf), vni, ip4.value)) + ([FlagByte(flag)] + Zeros(3));
    return Some(a[..]);
  }

  lemma FloodRead(f: Flood, tail: bytes)
    requires |f.addr| == 4
    ensures var p := FloodEntry(f) + tail;
            && p[0] == 1 && U16(p[2..4]) == f.vrf && U32(p[4..8]) == f.vni && p[8] == 2 && p[12..16] == f.addr && p[28..] == tail
  {
    var p := FloodEntry(f) + tail;
    Le32Inverse(f.vni);
    Le16Inverse(f.vrf, [0, 0]);
    assert p[2..4] == Le16(f.vrf) && p[4..8] == Le32(f.vni) && p[8..28] == L3Addr(f.addr);
    assert p[12..16] == p[8..28][4..8] == f.addr && p[8] == p[8..28][0];
  }

  /** One item of FloodList: VNI and address, None for items that are too short. */
  function DecodeFlood(data: bytes): Option<(Word, Option<bytes>)> {
    if |data| < 28 then None else Some((U32(data[4..8]), DecodeL3(data[8..28])))
  }

  lemma L3RoundTrip(ip4: bytes)
    requires |ip4| == 4
    ensures DecodeL3(L3Addr(ip4)) == Some(ip4)
  {
    assert L3Addr(ip4)[4..8] == ip4;
  }

  /** Every flood entry decodes to its VNI and address, whatever follows it; the VRF is at offset 2. */
  lemma FloodRoundTrip(f: Flood, tail: bytes)
    requires |f.addr| == 4
    ensures DecodeFlood(FloodEntry(f) + tail) == Some((f.vni, Some(f.addr)))
    ensures U16((FloodEntry(f) + tail)[2..4]) == f.vrf
  {
    var p := FloodEntry(f) + tail;
    Le32Inverse(f.vni);
    Le16Inverse(f.vrf, [0, 0]);
    L3RoundTrip(f.addr);
    assert p[2..4] == Le16(f.vrf) && p[4..8] == Le32(f.vni) && p[8..28] == L3Addr(f.addr);
  }

  /** The VXLAN section of an interface request reads back as VNI, VRF, port and local address. */
  lemma VxlanRoundTrip(req: AddReq, fnv: bytes -> Long)
    requires req.kind == KIND_VXLAN && IfaceAddBytes(req, fnv).Some?
    ensures var p := IfaceAddBytes(req, fnv).value; var v := req.vxlan.value;
            && |p| == 328 && U32(p[292..296]) == v.vni && U16(p[296..298]) == v.encapVrf && U16(p[298..300]) == v.dstPort
            && DecodeL3(p[300..320]) == To4(v.local) && p[300] == 2 && p[304..308] == To4(v.local).value
  {
    var p, v := IfaceAddBytes(req, fnv).value, req.vxlan.value;
    var ip4 := To4(v.local).value;
    Le32Inverse(v.vni);
    Le16Inverse(v.encapVrf, [0, 0]);
    Le16Inverse(v.dstPort, [0, 0]);
    L3RoundTrip(ip4);
    assert p[292..] == VxlanInfo(v, ip4);
    assert p[292..296] == p[292..][0..4] == Le32(v.vni);
    assert p[296..298] == p[292..][4..6] == Le16(v.encapVrf);
    assert p[298..300] == p[292..][6..8] == Le16(v.dstPort);
    assert p[300..320] == p[292..][8..28] == L3Addr(ip4);
    assert p[300] == p[300..320][0] && p[304..308] == p[300..320][4..8];
  }
}
