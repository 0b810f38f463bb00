/** DPDK device names and arguments: distinct for distinct ports, and within grout's limits. */
module Devices {
  import opened Base
  import opened PortNames
  import opened Layout
  import Grout
  import Machine
  import Safety

  lemma AsciiLower(s: bytes)
    requires s != [] && s[0] < 0x80
    ensures NextLower(s) == (Lower(s[0]), 1)
  {
    assert KELVIN[0] >= 0x80 && DOTTED_I[0] >= 0x80;
    assert |s| >= 3 ==> s[..3][0] == s[0];
    assert |s| >= 2 ==> s[..2][0] == s[0];
  }

  /** vdevID on ASCII, character by character. */
  function Alnums(s: bytes): bytes {
    if s == [] then []
    else
      var c := Lower(s[0]);
      (if IsAlnum(c) then [c] else []) + Alnums(s[1..])
  }

  lemma {:induction false} VdevOfAscii(s: bytes)
    requires forall i :: 0 <= i < |s| ==> s[i] < 0x80
    ensures VdevId(s) == Alnums(s)
  {
    if s != [] {
      AsciiLower(s);
      VdevOfAscii(s[1..]);
    }
  }

  /** One character: letters are lowercased, digits kept, everything else in ASCII dropped. */
  lemma VdevOne(c: byte)
    requires c < 0x80
    ensures VdevId([c]) == if 0x41 <= c <= 0x5a then [c + 0x20]
                           else if 0x61 <= c <= 0x7a || 0x30 <= c <= 0x39 then [c]
                           else []
  {
    VdevOfAscii([c]);
    assert [c][1..] == [];
    assert Alnums([c]) == (if IsAlnum(Lower(c)) then [Lower(c)] else []) + Alnums([]);
  }

  /** The Kelvin sign gives k, the dotted capital I gives i; another character outside ASCII gives nothing. */
  lemma VdevUnicode()
    ensures VdevId([0xe2, 0x84, 0xaa]) == [0x6b] && VdevId([0xc4, 0xb0]) == [0x69] && VdevId([0xc3, 0xa9]) == []
  {
    var kelvin: bytes, dotted: bytes, acute: bytes := [0xe2, 0x84, 0xaa], [0xc4, 0xb0], [0xc3, 0xa9];
    assert NextLower(kelvin) == (0x6b, 3) && kelvin[3..] == [];
    assert NextLower(dotted) == (0x69, 2) && dotted[2..] == [];
    assert NextLower(acute) == (0xc3, 1) && acute[1..] == [0xa9] && NextLower([0xa9]) == (0xa9, 1) && [0xa9][1..] == [];
  }

  /** Strings in ASCII are taken character by character, in order. */
  lemma VdevConcat(a: bytes, b: bytes)
    requires forall i :: 0 <= i < |a| ==> a[i] < 0x80
    requires forall i :: 0 <= i < |b| ==> b[i] < 0x80
    ensures VdevId(a + b) == VdevId(a) + VdevId(b)
  {
    VdevOfAscii(a);
    VdevOfAscii(b);
    VdevOfAscii(a + b);
    AlnumsConcat(a, b);
  }

  lemma {:induction false} AlnumsConcat(a: bytes, b: bytes)
    ensures Alnums(a + b) == Alnums(a) + Alnums(b)
  {
    if a == [] {
      assert a + b == b;
    } else {
      AlnumsConcat(a[1..], b);
      assert (a + b)[0] == a[0] && (a + b)[1..] == a[1..] + b;
    }
  }

  lemma {:induction false} AlnumsKeeps(s: bytes)
    requires forall i :: 0 <= i < |s| ==> IsAlnum(s[i])
    ensures Alnums(s) == s
  {
    if s != [] {
      AlnumsKeeps(s[1..]);
      assert Lower(s[0]) == s[0] && s == [s[0]] + s[1..];
    }
  }

  lemma PrefixBytes(n: bytes)
    requires PortShaped(n)
    ensures n[3] == 0x2d && forall i :: 0 <= i < 3 ==> IsAlnum(n[i])
  {
    assert n[..4] == PORT_PREFIX;
    assert forall i :: 0 <= i < 4 ==> n[i] == n[..4][i];
  }

  /** Of a port name only the dash is dropped. */
  lemma VdevOfPort(n: bytes)
    requires PortShaped(n)
    ensures VdevId(n) == n[..3] + n[4..] && |VdevId(n)| == 14
  {
    PrefixBytes(n);
    VdevOfAscii(n);
    var head, tail := n[..3], n[4..];
    assert n == head + ([0x2d] + tail);
    AlnumsConcat(head, [0x2d] + tail);
    AlnumsConcat([0x2d], tail);
    AlnumsKeeps(head);
    AlnumsKeeps(tail);
    assert Alnums([0x2d]) == [] && [] + tail == tail;
  }

  /** vdevID drops characters, yet never maps two port names to one device id. */
  lemma VdevInjective(m: bytes, n: bytes)
    requires PortShaped(m) && PortShaped(n)
    ensures VdevId(m) == VdevId(n) <==> m == n
  {
    VdevOfPort(m);
    VdevOfPort(n);
    if VdevId(m) == VdevId(n) {
      assert m[4..] == VdevId(m)[3..] == VdevId(n)[3..] == n[4..];
      assert m == m[..4] + m[4..] && n == n[..4] + n[4..];
    }
  }

  /** So the live ports of a sound table have distinct device ids. */
  lemma LiveVdevsDistinct(t: Grout.Table, i: Id, j: Id)
    requires Safety.Inv(t) && i in t && j in t && i != j && PortShaped(t[i].name) && PortShaped(t[j].name)
    ensures VdevId(t[i].name) != VdevId(t[j].name)
  {
    VdevInjective(t[i].name, t[j].name);
  }

  /** TAP device arguments of a port always fit; vhost ones fit exactly if the directory of grout's
      control socket has at most 69 bytes. */
  lemma DevargsFit(req: AddReq, dir: bytes)
    requires PortShaped(req.name)
    ensures req.vhost == [] ==> |Devargs(req)| == 44
    ensures req.vhost == Machine.SockPath(dir, req.name) ==> (|Devargs(req)| < DEVARGS_SIZE <==> |dir| <= 69)
  {
    VdevOfPort(req.name);
  }

  /** The device arguments of a port read: "net_tap_" or "net_vhost_", the device id, which is the name
      without its dash, ",iface=", and the name or the socket path. */
  lemma DevargsRead(req: AddReq)
    requires PortShaped(req.name)
    ensures var d, id := Devargs(req), req.name[..3] + req.name[4..];
            && |id| == 14
            && d == if req.vhost == []
                    then [0x6e, 0x65, 0x74, 0x5f, 0x74, 0x61, 0x70, 0x5f] + id + [0x2c, 0x69, 0x66, 0x61, 0x63, 0x65, 0x3d] + req.name
                    else [0x6e, 0x65, 0x74, 0x5f, 0x76, 0x68, 0x6f, 0x73, 0x74, 0x5f] + id
                         + [0x2c, 0x69, 0x66, 0x61, 0x63, 0x65, 0x3d] + req.vhost
  {
    VdevOfPort(req.name);
  }
}
