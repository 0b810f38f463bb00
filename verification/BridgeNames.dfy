/** bridgeNameFor and the bounds LoadConfig establishes (pkg/cni/config.go). FNV-1a enters as an
    arbitrary function with 32-bit results; JSON decoding is not part of this model. */
module BridgeNames {
  import opened Base
  import opened PortNames

  const NAME_MAX := 15

  /** "br-" */
  const BR: bytes := [0x62, 0x72, 0x2d]

  function Hex(v: int): byte
    requires 0 <= v < 16
  {
    if v < 10 then 0x30 + v else 0x61 + (v - 10)
  }

  /** "-%04x" of the low 16 bits. */
  function Suffix(h: Word): (r: bytes)
    ensures |r| == 5
  {
    var v := h % 0x1_0000;
    [0x2d, Hex(v / 0x1000), Hex(v / 0x100 % 0x10), Hex(v / 0x10 % 0x10), Hex(v % 0x10)]
  }

  function BridgeNameFor(fnv: bytes -> Word, network: bytes): bytes {
    var name := BR + network;
    if |name| <= NAME_MAX then name
    else
      var suffix := Suffix(fnv(network));
      var head := NAME_MAX - |suffix|;
      name[..if head < |BR| then |BR| else head] + suffix
  }

  /** Always "br-...", never longer than 15 bytes, never the shape of a port name. */
  lemma BridgeNameShape(fnv: bytes -> Word, network: bytes)
    ensures var b := BridgeNameFor(fnv, network);
            HasPrefix(b, BR) && |b| <= NAME_MAX && !HasPrefix(b, PORT_PREFIX) && !PortShaped(b)
    ensures |BridgeNameFor(fnv, network)| < NAME_MAX <==> |network| < 12
  {
    var b := BridgeNameFor(fnv, network);
    assert b[..3] == BR;
    assert b[0] == 0x62 && PORT_PREFIX[0] == 0x67;
    assert |b| >= 4 ==> b[..4][0] == b[0];
  }

  /** Networks of at most 12 bytes get bridges of their own. */
  lemma BridgeNameInjective(fnv: bytes -> Word, m: bytes, n: bytes)
    requires |m| <= 12 && |n| <= 12
    ensures BridgeNameFor(fnv, m) == BridgeNameFor(fnv, n) <==> m == n
  {
    if BridgeNameFor(fnv, m) == BridgeNameFor(fnv, n) {
      assert m == (BR + m)[3..] && n == (BR + n)[3..];
    }
  }

  /** Every longer network shares its bridge with a 12-byte one, namely the bridge name without
      "br-": distinct networks can collapse onto one bridge, whatever the hash. */
  lemma LongNetworkShares(fnv: bytes -> Word, network: bytes)
    requires |network| > 12
    ensures var short := BridgeNameFor(fnv, network)[3..];
            |short| == 12 && short != network && BridgeNameFor(fnv, short) == BridgeNameFor(fnv, network)
  {
    var b := BridgeNameFor(fnv, network);
    assert |b| == 15 && b[..3] == BR && BR + b[3..] == b;
  }

  lemma HexExact(u: int, v: int)
    requires 0 <= u < 16 && 0 <= v < 16
    ensures Hex(u) == Hex(v) <==> u == v
  {
  }

  lemma SuffixExact(g: Word, h: Word)
    ensures Suffix(g) == Suffix(h) <==> g % 0x1_0000 == h % 0x1_0000
  {
    var u, v := g % 0x1_0000, h % 0x1_0000;
    if Suffix(g) == Suffix(h) {
      var s, t := Suffix(g), Suffix(h);
      assert s[1] == t[1] && s[2] == t[2] && s[3] == t[3] && s[4] == t[4];
      HexExact(u / 0x1000, v / 0x1000);
      HexExact(u / 0x100 % 0x10, v / 0x100 % 0x10);
      HexExact(u / 0x10 % 0x10, v / 0x10 % 0x10);
      HexExact(u % 0x10, v % 0x10);
      Digits4(u);
      Digits4(v);
    }
  }

  lemma Digits4(v: int)
    requires 0 <= v < 0x1_0000
    ensures v == 0x1000 * (v / 0x1000) + 0x100 * (v / 0x100 % 0x10) + 0x10 * (v / 0x10 % 0x10) + v % 0x10
  {
    var a := v / 0x10;
    var b := a / 0x10;
    assert v / 0x100 == b && v / 0x1000 == b / 0x10;
  }

  /** What a long network becomes. */
  function Short(fnv: bytes -> Word, network: bytes): (r: bytes)
    requires |network| > 12
    ensures |r| == 12
  {
    network[..7] + Suffix(fnv(network))
  }

  /** Exactly when two networks share a bridge: they are the same; both are long, with the same first 7
      bytes and the same low 16 bits of their hashes; or one is what the other is shortened to. */
  lemma SharedBridge(fnv: bytes -> Word, m: bytes, n: bytes)
    ensures BridgeNameFor(fnv, m) == BridgeNameFor(fnv, n) <==>
              || m == n
              || (|m| > 12 && |n| > 12 && m[..7] == n[..7] && fnv(m) % 0x1_0000 == fnv(n) % 0x1_0000)
              || (|m| > 12 && n == Short(fnv, m))
              || (|n| > 12 && m == Short(fnv, n))
  {
    Stem(fnv, m);
    Stem(fnv, n);
    var x := if |m| > 12 then Short(fnv, m) else m;
    var y := if |n| > 12 then Short(fnv, n) else n;
    assert (BR + x)[3..] == x && (BR + y)[3..] == y;
    if |m| > 12 && |n| > 12 {
      SuffixExact(fnv(m), fnv(n));
      assert x[..7] == m[..7] && y[..7] == n[..7] && x[7..] == Suffix(fnv(m)) && y[7..] == Suffix(fnv(n));
    }
  }

  lemma Stem(fnv: bytes -> Word, network: bytes)
    ensures BridgeNameFor(fnv, network) == BR + if |network| > 12 then Short(fnv, network) else network
  {
    if |network| > 12 {
      assert (BR + network)[..10] == BR + network[..7];
    }
  }

  /** The value of a hexadecimal digit. */
  ghost predicate HexDigit(c: byte, v: int) {
    (0x30 <= c <= 0x39 && v == c - 0x30) || (0x61 <= c <= 0x66 && v == c - 0x61 + 10)
  }

  /** The name read: "br-" and the network, or its first 7 bytes, a dash, and the low 16 bits of its hash in
      four hexadecimal digits, most significant first. */
  lemma BridgeNameRead(fnv: bytes -> Word, network: bytes)
    ensures var b := BridgeNameFor(fnv, network);
            if |network| <= 12 then b == BR + network
            else
              && |b| == 15 && b[..10] == BR + network[..7] && b[10] == 0x2d
              && exists v1, v2, v3, v4 :: && HexDigit(b[11], v1) && HexDigit(b[12], v2) && HexDigit(b[13], v3) && HexDigit(b[14], v4)
                                          && 0x1000 * v1 + 0x100 * v2 + 0x10 * v3 + v4 == fnv(network) % 0x1_0000
  {
    Stem(fnv, network);
    if |network| > 12 {
      var b, v := BridgeNameFor(fnv, network), fnv(network) % 0x1_0000;
      assert b == BR + (network[..7] + Suffix(fnv(network)));
      Digits4(v);
      var v1, v2, v3, v4 := v / 0x1000, v / 0x100 % 0x10, v / 0x10 % 0x10, v % 0x10;
      assert b[11] == Hex(v1) && b[12] == Hex(v2) && b[13] == Hex(v3) && b[14] == Hex(v4);
      assert HexDigit(b[11], v1) && HexDigit(b[12], v2) && HexDigit(b[13], v3) && HexDigit(b[14], v4);
    }
  }

  // ---------- LoadConfig ----------

  datatype RawConf = RawConf(hasIpam: bool, name: bytes, bridge: bytes, mtu: int, ifType: bytes, logLevelOk: bool)
  datatype Conf = Conf(name: bytes, bridge: bytes, mtu: int, virtio: bool)
  datatype ConfError = NoIpam | NoName | BadMtu | BridgeTooLong | BadType | BadLogLevel
  datatype Loaded = Good(conf: Conf) | Bad(error: ConfError)

  const TAP: bytes := [0x74, 0x61, 0x70]
  const VIRTIO: bytes := [0x76, 0x69, 0x72, 0x74, 0x69, 0x6f]

  /** Validation and defaults, in the order LoadConfig applies them. */
  function LoadConfig(fnv: bytes -> Word, raw: RawConf): (r: Loaded)
    ensures r.Good? ==> |r.conf.bridge| <= NAME_MAX && 0 <= r.conf.mtu < 0x1_0000
    ensures r.Good? && raw.bridge == [] ==> !PortShaped(r.conf.bridge)
    ensures r.Good? <==> && raw.hasIpam && raw.name != [] && 0 <= raw.mtu <= 65535 && |raw.bridge| <= NAME_MAX
                         && raw.ifType in {[], TAP, VIRTIO} && raw.logLevelOk
    ensures r.Good? ==> r.conf.name == raw.name && r.conf.mtu == raw.mtu && (r.conf.virtio <==> raw.ifType == VIRTIO)
    ensures r.Good? ==> r.conf.bridge == if raw.bridge != [] then raw.bridge else BridgeNameFor(fnv, raw.name)
    ensures r == Bad(NoIpam) <==> !raw.hasIpam
    ensures r == Bad(NoName) <==> raw.hasIpam && raw.name == []
    ensures r == Bad(BadMtu) <==> raw.hasIpam && raw.name != [] && !(0 <= raw.mtu <= 65535)
    ensures r == Bad(BridgeTooLong) <==> raw.hasIpam && raw.name != [] && 0 <= raw.mtu <= 65535 && |raw.bridge| > NAME_MAX
    ensures r == Bad(BadType) <==> && raw.hasIpam && raw.name != [] && 0 <= raw.mtu <= 65535 && |raw.bridge| <= NAME_MAX
                                   && raw.ifType !in {[], TAP, VIRTIO}
    ensures r == Bad(BadLogLevel) <==> && raw.hasIpam && raw.name != [] && 0 <= raw.mtu <= 65535 && |raw.bridge| <= NAME_MAX
                                       && raw.ifType in {[], TAP, VIRTIO} && !raw.logLevelOk
  {
    if !raw.hasIpam then Bad(NoIpam)
    else if raw.name == [] then Bad(NoName)
    else if raw.mtu < 0 || raw.mtu > 65535 then Bad(BadMtu)
    else if |raw.bridge| > NAME_MAX then Bad(BridgeTooLong)
    else if raw.ifType != [] && raw.ifType != TAP && raw.ifType != VIRTIO then Bad(BadType)
    else if !raw.logLevelOk then Bad(BadLogLevel)
    else
      BridgeNameShape(fnv, raw.name);
      var bridge := if raw.bridge == [] then BridgeNameFor(fnv, raw.name) else raw.bridge;
      Good(Conf(raw.name, bridge, raw.mtu, raw.ifType == VIRTIO))
  }
}
