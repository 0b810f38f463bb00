/** podMACFromResult of pkg/cni/netns.go. */
module PodMac {
  import opened Base
  import opened Gateways

  predicate Usable(c: Option<IPConfig>, v4: bool) {
    c.Some? && if v4 then IsV4(c.value.address.ip) else To16(c.value.address.ip).Some?
  }

  /** The last four bytes of an address that has a 4- or 16-byte form. */
  function Low4(ip: bytes): (r: bytes)
    requires |ip| == 4 || |ip| == 16
    ensures |r| == 4
  {
    ip[|ip| - 4..]
  }

  ghost predicate FirstUsable(ips: Entries, v4: bool, k: nat) {
    k < |ips| && Usable(ips[k], v4) && forall j :: 0 <= j < k ==> !Usable(ips[j], v4)
  }

  ghost predicate NoneUsable(ips: Entries, v4: bool) {
    forall j :: 0 <= j < |ips| ==> !Usable(ips[j], v4)
  }

  /** The MAC is 02:00 and four address bytes: of the first IPv4 wherever it is in the list, else of
      the first IPv6; there is none exactly if no entry is usable. */
  ghost predicate IsPodMac(ips: Entries, mac: Option<bytes>) {
    && (forall k: nat :: FirstUsable(ips, true, k) ==> mac == Some([2, 0] + Low4(ips[k].value.address.ip)))
    && (NoneUsable(ips, true) ==> forall k: nat :: FirstUsable(ips, false, k) ==> mac == Some([2, 0] + Low4(ips[k].value.address.ip)))
    && (mac.None? <==> NoneUsable(ips, true) && NoneUsable(ips, false))
  }

  method PodMacFromResult(result: Option<Entries>) returns (mac: Option<bytes>)
    ensures result.None? ==> mac.None?
    ensures result.Some? ==> IsPodMac(result.value, mac)
    ensures mac.Some? ==> |mac.value| == 6 && mac.value[0] % 2 == 0 && mac.value[0] / 2 % 2 == 1
  {
    if result.None? {
      return None;
    }
    var ips := result.value;
    for k := 0 to |ips|
      invariant forall j :: 0 <= j < k ==> !Usable(ips[j], true)
    {
      if ips[k].None? {
        continue;
      }
      var ip4 := To4(ips[k].value.address.ip);
      if ip4.Some? {
        assert ip4.value == Low4(ips[k].value.address.ip) && FirstUsable(ips, true, k);
        return Some([2, 0] + ip4.value);
      }
    }
    for k := 0 to |ips|
      invariant forall j :: 0 <= j < k ==> !Usable(ips[j], false)
    {
      if ips[k].None? {
        continue;
      }
      var ip6 := To16(ips[k].value.address.ip);
      if ip6.Some? {
        assert ip6.value[12..] == Low4(ips[k].value.address.ip) && FirstUsable(ips, false, k);
        return Some([2, 0] + ip6.value[12..]);
      }
    }
    return None;
  }

  /** Results whose first IPv4 addresses differ get different MACs. */
  lemma PodMacDistinct(a: Entries, b: Entries, i: nat, j: nat, m: Option<bytes>, n: Option<bytes>)
    requires FirstUsable(a, true, i) && FirstUsable(b, true, j) && IsPodMac(a, m) && IsPodMac(b, n)
    ensures m == n <==> To4(a[i].value.address.ip) == To4(b[j].value.address.ip)
  {
    var x, y := Low4(a[i].value.address.ip), Low4(b[j].value.address.ip);
    assert To4(a[i].value.address.ip) == Some(x) && To4(b[j].value.address.ip) == Some(y);
    assert ([2, 0] + x)[2..] == x && ([2, 0] + y)[2..] == y;
  }
}
