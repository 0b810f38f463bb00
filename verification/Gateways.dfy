/** gatewaysFor (pkg/cni/handler.go), with the parts of Go's net.IP it relies on. */
module Gateways {
  import opened Base

  // ---------- net.IP ----------

  const V4_IN_V6: bytes := [0, 0, 0, 0, 0, 0, 0, 0, 0, 0, 0xff, 0xff]

  function To4(ip: bytes): Option<bytes> {
    if |ip| == 4 then Some(ip)
    else if |ip| == 16 && ip[..12] == V4_IN_V6 then Some(ip[12..])
    else None
  }

  function To16(ip: bytes): Option<bytes> {
    if |ip| == 4 then Some(V4_IN_V6 + ip) else if |ip| == 16 then Some(ip) else None
  }

  predicate IsV4(ip: bytes) {
    To4(ip).Some?
  }

  /** Bitwise and of the low k bits. */
  function And(a: nat, m: nat, k: nat): (r: nat)
    ensures r <= a && r <= m
  {
    if k == 0 then 0
    else 2 * And(a / 2, m / 2, k - 1) + (if a % 2 == 1 && m % 2 == 1 then 1 else 0)
  }

  function And8(a: byte, m: byte): byte {
    And(a, m, 8)
  }

  function AndBytes(ip: bytes, mask: bytes): (r: bytes)
    requires |ip| == |mask|
    ensures |r| == |ip| && forall i :: 0 <= i < |r| ==> r[i] == And8(ip[i], mask[i])
  {
    seq(|ip|, i requires 0 <= i < |ip| => And8(ip[i], mask[i]))
  }

  /** IP.Mask: narrows a 16-byte side to 4 bytes where Go does, and gives nil on a length mismatch. */
  function Mask(ip: bytes, mask: bytes): Option<bytes> {
    var m := if |mask| == 16 && |ip| == 4 && (forall i :: 0 <= i < 12 ==> mask[i] == 255) then mask[12..] else mask;
    var p := if |m| == 4 && |ip| == 16 && ip[..12] == V4_IN_V6 then ip[12..] else ip;
    if |p| == |m| then Some(AndBytes(p, m)) else None
  }

  // ---------- gatewaysFor ----------

  /** uint8 increment, wrapping. */
  function Inc(b: byte): byte {
    if b == 255 then 0 else b + 1
  }

  /** Adds one to the last byte only; the byte wraps, nothing carries. */
  function BumpLast(b: bytes): (r: bytes)
    requires b != []
    ensures |r| == |b|
  {
    b[|b| - 1 := Inc(b[|b| - 1])]
  }

  /** The gateway of one entry; None where the code indexes an empty slice and panics. */
  function GatewayOf(c: IPConfig): Option<IPNet> {
    match c.gateway
    case Some(g) => Some(IPNet(g, c.address.mask))
    case None =>
      match Mask(c.address.ip, c.address.mask)
      case Some(n) => if n == [] then None else Some(IPNet(BumpLast(n), c.address.mask))
      case None => None
  }

  /** The last loop of IP.Mask: the conjunction goes to a new slice. */
  method AndSlices(ip: array<byte>, p: nat, mask: array<byte>, m: nat) returns (out: array<byte>)
    requires p <= ip.Length && m <= mask.Length && ip.Length - p == mask.Length - m
    ensures fresh(out) && out[..] == AndBytes(ip[p..], mask[m..])
  {
    var n := ip.Length - p;
    out := new byte[n];
    for i := 0 to n
      invariant forall k :: 0 <= k < i ==> out[k] == And8(ip[p + k], mask[m + k])
    {
      out[i] := And8(ip[p + i], mask[m + i]);
    }
  }

  /** IP.Mask on the slices, null for nil. */
  method MaskSlices(ip: array<byte>, mask: array<byte>) returns (out: array?<byte>)
    ensures out == null <==> Mask(ip[..], mask[..]).None?
    ensures out != null ==> fresh(out) && Mask(ip[..], mask[..]) == Some(out[..])
  {
    var m := if mask.Length == 16 && ip.Length == 4 && (forall i :: 0 <= i < 12 ==> mask[i] == 255) then 12 else 0;
    var p := if mask.Length - m == 4 && ip.Length == 16 && ip[..12] == V4_IN_V6 then 12 else 0;
    assert ip.Length == 16 ==> ip[..][..12] == ip[..12];
    if ip.Length - p != mask.Length - m {
      return null;
    }
    out := AndSlices(ip, p, mask, m);
    assert ip[p..] == ip[..][p..] && mask[m..] == mask[..][m..];
  }

  /** The derivation on the slices themselves. The byte that is incremented in place belongs
      to a new slice: neither the address nor the mask that IPAM returned, shared or not,
      changes. null is the panic. */
  method DeriveGateway(ip: array<byte>, mask: array<byte>) returns (gw: array?<byte>)
    ensures var derived := GatewayOf(IPConfig(IPNet(ip[..], mask[..]), None));
            && (gw == null <==> derived.None?)
            && (gw != null ==> fresh(gw) && derived == Some(IPNet(gw[..], mask[..])))
    ensures ip[..] == old(ip[..]) && mask[..] == old(mask[..])
  {
    gw := MaskSlices(ip, mask);
    if gw == null || gw.Length == 0 {
      return null;
    }
    gw[gw.Length - 1] := Inc(gw[gw.Length - 1]);
  }

  function Join(a: Option<seq<IPNet>>, b: Option<seq<IPNet>>): Option<seq<IPNet>> {
    if a.Some? && b.Some? then Some(a.value + b.value) else None
  }

  /** The loop of gatewaysFor from its first remaining entry on; a nil entry panics. */
  function GatewaysFrom(ips: Entries, seen4: bool, seen6: bool): Option<seq<IPNet>> {
    if ips == [] then Some([])
    else if ips[0].None? then None
    else
      var c := ips[0].value;
      var v4 := IsV4(c.address.ip);
      if (v4 && seen4) || (!v4 && seen6) then GatewaysFrom(ips[1..], seen4, seen6)
      else
        match GatewayOf(c)
        case None => None
        case Some(g) =>
          Join(Some([g]), GatewaysFrom(ips[1..], seen4 || v4, seen6 || !v4))
  }

  function GatewaysFor(ips: Entries): Option<seq<IPNet>> {
    GatewaysFrom(ips, false, false)
  }

  lemma JoinMore(a: seq<IPNet>, g: IPNet, b: Option<seq<IPNet>>)
    ensures Join(Some(a), Join(Some([g]), b)) == Join(Some(a + [g]), b)
    ensures Join(Some([]), b) == b && Join(Some(a), Some([])) == Some(a)
  {
    if b.Some? {
      assert a + ([g] + b.value) == a + [g] + b.value && [] + b.value == b.value;
    }
    assert a + [] == a;
  }

  /** gatewaysFor as written: two flags, an accumulating list, one in-place byte increment. */
  method ComputeGateways(ips: Entries) returns (r: Option<seq<IPNet>>)
    ensures r == GatewaysFor(ips)
  {
    var seen4, seen6 := false, false;
    var gws: seq<IPNet> := [];
    assert ips[0..] == ips;
    JoinMore([], IPNet([], []), GatewaysFor(ips));
    for k := 0 to |ips|
      invariant GatewaysFor(ips) ==
                Join(Some(gws), GatewaysFrom(ips[k..], seen4, seen6))
    {
      assert ips[k..][0] == ips[k] && ips[k..][1..] == ips[k + 1..];
      if ips[k].None? {
        return None;
      }
      var c := ips[k].value;
      var v4 := IsV4(c.address.ip);
      if (v4 && seen4) || (!v4 && seen6) {
        continue;
      }
      var gw: bytes;
      match c.gateway {
        case Some(g) => gw := g;
        case None =>
          var n := Mask(c.address.ip, c.address.mask);
          if n.None? || n.value == [] {
            return None;
          }
          gw := n.value;
          gw := gw[|gw| - 1 := Inc(gw[|gw| - 1])];
      }
      JoinMore(gws, IPNet(gw, c.address.mask), GatewaysFrom(ips[k + 1..], seen4 || v4, seen6 || !v4));
      gws := gws + [IPNet(gw, c.address.mask)];
      if v4 {
        seen4 := true;
      } else {
        seen6 := true;
      }
    }
    JoinMore(gws, IPNet([], []), Some([]));
    r := Some(gws);
  }

  predicate OfFamily(c: Option<IPConfig>, v4: bool) {
    c.Some? && IsV4(c.value.address.ip) == v4
  }

  /** Index of the first entry of a family, or |ips|. */
  function First(ips: Entries, v4: bool): (i: nat)
    ensures i <= |ips|
    ensures i < |ips| ==> OfFamily(ips[i], v4)
    ensures forall j :: 0 <= j < i ==> !OfFamily(ips[j], v4)
  {
    if ips == [] then 0 else if OfFamily(ips[0], v4) then 0 else 1 + First(ips[1..], v4)
  }

  /** The gateway of the entry at i, as a list of at most one. */
  function Pick(ips: Entries, i: nat): Option<seq<IPNet>> {
    if i >= |ips| then Some([])
    else if ips[i].None? then None
    else match GatewayOf(ips[i].value) case None => None case Some(g) => Some([g])
  }

  lemma {:induction false} NilPanics(ips: Entries, seen4: bool, seen6: bool)
    requires None in ips
    ensures GatewaysFrom(ips, seen4, seen6) == None
  {
    if ips[0].Some? {
      var v4 := IsV4(ips[0].value.address.ip);
      assert None in ips[1..];
      NilPanics(ips[1..], seen4, seen6);
      NilPanics(ips[1..], seen4 || v4, seen6 || !v4);
    }
  }

  lemma NoNil(ips: Entries)
    requires GatewaysFor(ips).Some?
    ensures None !in ips
  {
    if None in ips {
      NilPanics(ips, false, false);
    }
  }

  lemma {:induction false} GatewaysFromSeen(ips: Entries, v4: bool)
    requires None !in ips
    ensures GatewaysFrom(ips, v4, !v4) == Pick(ips, First(ips, !v4))
    ensures GatewaysFrom(ips, true, true) == Some([])
  {
    if ips != [] {
      assert ips[0] != None;
      GatewaysFromSeen(ips[1..], v4);
      assert forall g: IPNet :: [g] + [] == [g];
    }
  }

  /** One gateway per family present, each from the first address of that family, in list order;
      a nil entry anywhere panics. */
  lemma {:induction false} GatewaysAreFirsts(ips: Entries)
    ensures var i4, i6 := First(ips, true), First(ips, false);
            GatewaysFor(ips) ==
            if None in ips then None
            else if i4 <= i6 then Join(Pick(ips, i4), Pick(ips, i6))
            else Join(Pick(ips, i6), Pick(ips, i4))
    ensures GatewaysFor(ips).Some? ==> |GatewaysFor(ips).value| <= 2
  {
    if None in ips {
      NilPanics(ips, false, false);
    } else if ips == [] {
      var none: seq<IPNet> := [];
      assert none + none == none;
    } else {
      assert ips[0] != None;
      var v4 := IsV4(ips[0].value.address.ip);
      GatewaysFromSeen(ips[1..], v4);
      assert Pick(ips, First(ips, !v4)) == Pick(ips[1..], First(ips[1..], !v4));
    }
  }

  // ---------- derived gateways ----------

  /** Byte i of the contiguous mask with p leading ones. */
  function PrefixByte(p: nat, i: nat): byte {
    if p >= 8 * i + 8 then 255
    else if p <= 8 * i then 0
    else
      var ones := p - 8 * i;
      if ones == 1 then 128 else if ones == 2 then 192 else if ones == 3 then 224 else if ones == 4 then 240
      else if ones == 5 then 248 else if ones == 6 then 252 else 254
  }

  function PrefixMask(n: nat, p: nat): (m: bytes)
    ensures |m| == n && forall i :: 0 <= i < n ==> m[i] == PrefixByte(p, i)
  {
    seq(n, i requires 0 <= i < n => PrefixByte(p, i))
  }

  /** Big-endian value. */
  function Value(b: bytes): nat {
    if b == [] then 0 else 256 * Value(b[..|b| - 1]) + b[|b| - 1]
  }

  ghost predicate InSubnet(ip: bytes, net: IPNet) {
    Mask(ip, net.mask) == Mask(net.ip, net.mask)
  }

  lemma {:induction false} AndIdempotent(a: nat, m: nat, k: nat)
    ensures And(And(a, m, k), m, k) == And(a, m, k)
  {
    if k > 0 {
      AndIdempotent(a / 2, m / 2, k - 1);
    }
  }

  lemma AndSplit(a: nat, m: nat, k: nat)
    requires k > 0
    ensures And(a, m, k) / 2 == And(a / 2, m / 2, k - 1)
    ensures And(a, m, k) % 2 == if a % 2 == 1 && m % 2 == 1 then 1 else 0
  {
  }

  /** An even mask ignores the last bit of what it masks. */
  lemma NextMasked(a: nat, m: nat, k: nat)
    requires k > 0 && m % 2 == 0
    ensures And(a, m, k) % 2 == 0 && And(And(a, m, k) + 1, m, k) == And(a, m, k)
  {
    var r := And(a, m, k);
    AndSplit(a, m, k);
    AndSplit(r + 1, m, k);
    AndIdempotent(a / 2, m / 2, k - 1);
    assert (r + 1) / 2 == r / 2;
  }

  /** An odd mask shows the last bit, so values that differ there stay apart. */
  lemma ParityShows(s: nat, r: nat, m: nat, k: nat)
    requires k > 0 && m % 2 == 1 && s % 2 != r % 2
    ensures And(s, m, k) != r
  {
    AndSplit(s, m, k);
  }

  lemma IncParity(b: byte)
    ensures Inc(b) % 2 != b % 2
    ensures b % 2 == 0 ==> b < 255 && Inc(b) == b + 1
  {
  }

  /** One more than a masked byte: it leaves the masked bits alone exactly when the mask's last bit is clear. */
  lemma BumpMasked(a: byte, m: byte)
    ensures m % 2 == 0 ==> And8(a, m) < 255 && And8(Inc(And8(a, m)), m) == And8(a, m)
    ensures m % 2 == 1 ==> And8(Inc(And8(a, m)), m) != And8(a, m)
  {
    IncParity(And8(a, m));
    if m % 2 == 0 {
      NextMasked(a, m, 8);
    } else {
      ParityShows(Inc(And8(a, m)), And8(a, m), m, 8);
    }
  }

  lemma LastBit(p: nat, z: nat)
    ensures PrefixByte(p, z) % 2 == 1 <==> p >= 8 * z + 8
  {
  }

  lemma DerivedIsNetworkPlusOne(n: bytes, mask: bytes, p: nat)
    requires |n| == |mask| > 0 && mask == PrefixMask(|mask|, p)
    requires p <= 8 * |mask|
    ensures var net := AndBytes(n, mask); var gw := BumpLast(net);
            && (AndBytes(gw, mask) == net <==> p < 8 * |mask|)
            && (p < 8 * |mask| ==> Value(gw) == Value(net) + 1 && gw[..|gw| - 1] == net[..|net| - 1])
  {
    var net := AndBytes(n, mask);
    var gw := BumpLast(net);
    var z := |n| - 1;
    BumpMasked(n[z], mask[z]);
    forall i | 0 <= i < z
      ensures And8(gw[i], mask[i]) == net[i]
    {
      AndIdempotent(n[i], mask[i], 8);
    }
    LastBit(p, z);
    if p < 8 * |mask| {
      assert AndBytes(gw, mask) == net;
      assert gw[..z] == net[..z];
    } else {
      assert AndBytes(gw, mask)[z] != net[z];
    }
  }

  /** What IP.Mask leaves of an address and a mask: their last 4 bytes where one of them is the 16-byte
      form of an IPv4 one and the other is not, and both as they are otherwise. */
  ghost predicate Narrows(ip: bytes, mask: bytes) {
    || (|ip| == 4 && |mask| == 16 && forall i :: 0 <= i < 12 ==> mask[i] == 255)
    || (|ip| == 16 && |mask| == 4 && ip[..12] == V4_IN_V6)
  }

  lemma MaskMeans(ip: bytes, mask: bytes)
    ensures Mask(ip, mask) ==
            if Narrows(ip, mask) then Some(AndBytes(ip[|ip| - 4..], mask[|mask| - 4..]))
            else if |ip| == |mask| then Some(AndBytes(ip, mask))
            else None
  {
  }

  lemma PrefixTail(mask: bytes, p: nat)
    requires mask == PrefixMask(16, p) && forall i :: 0 <= i < 12 ==> mask[i] == 255
    ensures p >= 96 && mask[12..] == PrefixMask(4, p - 96)
  {
    assert mask[11] == PrefixByte(p, 11);
  }

  /** On every address and every prefix mask: a gateway can be derived exactly if the lengths go together,
      as they are or after narrowing IPv4; and it is the network address plus one, inside the subnet,
      exactly for prefixes shorter than the mask. At full length it always falls outside. */
  lemma DerivedGateway(c: IPConfig, p: nat)
    requires c.gateway.None? && c.address.mask == PrefixMask(|c.address.mask|, p) && p <= 8 * |c.address.mask|
    ensures var ip, mask := c.address.ip, c.address.mask;
            && (GatewayOf(c).Some? <==> (|ip| == |mask| && ip != []) || Narrows(ip, mask))
            && (GatewayOf(c).Some? ==>
                  var gw := GatewayOf(c).value;
                  && gw.mask == mask && Mask(ip, mask).Some?
                  && (InSubnet(gw.ip, c.address) <==> p < 8 * |mask|)
                  && (p < 8 * |mask| ==> Value(gw.ip) == Value(Mask(ip, mask).value) + 1))
  {
    var ip, mask := c.address.ip, c.address.mask;
    MaskMeans(ip, mask);
    if Narrows(ip, mask) {
      DerivedNarrow(c, p);
    } else if |ip| == |mask| && ip != [] {
      DerivedIsNetworkPlusOne(ip, mask, p);
      MaskMeans(BumpLast(AndBytes(ip, mask)), mask);
    }
  }

  lemma DerivedNarrow(c: IPConfig, p: nat)
    requires c.gateway.None? && c.address.mask == PrefixMask(|c.address.mask|, p) && p <= 8 * |c.address.mask|
    requires Narrows(c.address.ip, c.address.mask)
    ensures GatewayOf(c).Some? && GatewayOf(c).value.mask == c.address.mask && Mask(c.address.ip, c.address.mask).Some?
    ensures InSubnet(GatewayOf(c).value.ip, c.address) <==> p < 8 * |c.address.mask|
    ensures p < 8 * |c.address.mask| ==> Value(GatewayOf(c).value.ip) == Value(Mask(c.address.ip, c.address.mask).value) + 1
  {
    var ip, mask := c.address.ip, c.address.mask;
    var n, m, q := ip[|ip| - 4..], mask[|mask| - 4..], if |mask| == 16 then p - 96 else p;
    if |mask| == 16 {
      PrefixTail(mask, p);
    } else {
      assert m == mask;
    }
    MaskMeans(ip, mask);
    DerivedIsNetworkPlusOne(n, m, q);
    var gw := BumpLast(AndBytes(n, m));
    MaskMeans(gw, mask);
    assert gw[|gw| - 4..] == gw;
  }

  // ---------- when gatewaysFor panics ----------

  /** No gateway is given, and none can be derived: address and mask do not go together. */
  ghost predicate Underivable(c: IPConfig) {
    && c.gateway.None?
    && !((|c.address.ip| == |c.address.mask| && c.address.ip != []) || Narrows(c.address.ip, c.address.mask))
  }

  lemma UnderivableExact(c: IPConfig)
    ensures GatewayOf(c).None? <==> Underivable(c)
  {
    MaskMeans(c.address.ip, c.address.mask);
  }

  /** The first entry of a family, if there is one, has no gateway to give. */
  ghost predicate FirstFails(ips: Entries, v4: bool) {
    var i := First(ips, v4);
    i < |ips| && Underivable(ips[i].value)
  }

  /** gatewaysFor panics exactly on a nil entry, or if the first address of some family comes without a
      gateway and with a mask that does not go with it. */
  lemma PanicsExactly(ips: Entries)
    ensures GatewaysFor(ips).None? <==> None in ips || FirstFails(ips, true) || FirstFails(ips, false)
  {
    GatewaysAreFirsts(ips);
    if None !in ips {
      PickFails(ips, true);
      PickFails(ips, false);
    }
  }

  lemma PickFails(ips: Entries, v4: bool)
    ensures Pick(ips, First(ips, v4)).None? <==> FirstFails(ips, v4)
  {
    var i := First(ips, v4);
    if i < |ips| {
      UnderivableExact(ips[i].value);
    }
  }

  // ---------- which gateways ----------

  /** g is the gateway for this entry: the one IPAM gave, or else the masked address with its last byte
      incremented; with the address's mask. */
  ghost predicate GatewayIs(c: IPConfig, g: IPNet) {
    && g.mask == c.address.mask
    && if c.gateway.Some? then g.ip == c.gateway.value
       else
         var n := Mask(c.address.ip, c.address.mask);
         && n.Some? && n.value != [] && |g.ip| == |n.value|
         && var z := |g.ip| - 1;
            g.ip[..z] == n.value[..z] && g.ip[z] == (n.value[z] as int + 1) % 256
  }

  lemma GatewayOfIs(c: IPConfig)
    requires GatewayOf(c).Some?
    ensures GatewayIs(c, GatewayOf(c).value)
  {
    if c.gateway.None? {
      var n := Mask(c.address.ip, c.address.mask).value;
      assert BumpLast(n)[..|n| - 1] == n[..|n| - 1];
    }
  }

  /** gatewaysFor, where it does not panic: no gateway for a family that is not there, and one for each that
      is, namely that of its first entry, in the order of these entries. */
  lemma GatewaysRead(ips: Entries)
    requires GatewaysFor(ips).Some?
    ensures var gws, n, i4, i6 := GatewaysFor(ips).value, |ips|, First(ips, true), First(ips, false);
            && |gws| == (if i4 < n then 1 else 0) + (if i6 < n then 1 else 0)
            && (i4 < n ==> GatewayIs(ips[i4].value, gws[if i6 < i4 then 1 else 0]))
            && (i6 < n ==> GatewayIs(ips[i6].value, gws[if i4 < i6 then 1 else 0]))
  {
    GatewaysAreFirsts(ips);
    var n, i4, i6 := |ips|, First(ips, true), First(ips, false);
    if i4 < n {
      GatewayOfIs(ips[i4].value);
    }
    if i6 < n {
      GatewayOfIs(ips[i6].value);
    }
  }

  /** Bit i of a number. */
  function BitAt(v: nat, i: nat): nat {
    if i == 0 then v % 2 else BitAt(v / 2, i - 1)
  }

  /** And, bit by bit. */
  lemma {:induction false} AndBits(a: nat, m: nat, k: nat, i: nat)
    requires i < k
    ensures BitAt(And(a, m, k), i) == if BitAt(a, i) == 1 && BitAt(m, i) == 1 then 1 else 0
  {
    AndSplit(a, m, k);
    if i > 0 {
      AndBits(a / 2, m / 2, k - 1, i - 1);
    }
  }
}
