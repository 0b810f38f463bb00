/** The framing of pkg/groutapi/protocol.go: little-endian headers and payloads on one byte stream. */
module Wire {
  import opened Base

  const MAX_MSG_LEN := 128 * 1024

  function Le16(n: Id): (b: bytes)
    ensures |b| == 2
  {
    [n % 256, n / 256]
  }

  function Le32(n: Word): (b: bytes)
    ensures |b| == 4
  {
    [n % 256, n / 0x100 % 256, n / 0x1_0000 % 256, n / 0x100_0000]
  }

  function U16(b: bytes): Id
    requires |b| == 2
  {
    b[0] as int + 256 * (b[1] as int)
  }

  function U32(b: bytes): Word
    requires |b| == 4
  {
    b[0] as int + 0x100 * (b[1] as int) + 0x1_0000 * (b[2] as int) + 0x100_0000 * (b[3] as int)
  }

  lemma Le16Inverse(n: Id, b: bytes)
    requires |b| == 2
    ensures U16(Le16(n)) == n && Le16(U16(b)) == b
  {
  }

  lemma Le32Inverse(n: Word)
    ensures U32(Le32(n)) == n
  {
    var a := n / 0x100;
    var b := a / 0x100;
    assert n / 0x1_0000 == b && n / 0x100_0000 == b / 0x100;
  }

  /** The least significant byte comes first. */
  lemma LittleEndian()
    ensures Le16(0x0102) == [2, 1] && Le32(0x0102_0304) == [4, 3, 2, 1]
    ensures U16([2, 1]) == 0x0102 && U32([4, 3, 2, 1]) == 0x0102_0304
  {
  }

  // ---------- frames ----------

  /** One response: the header's id and status, and the payload it announces. */
  datatype Frame = Frame(forId: Word, status: Word, payload: bytes)

  predicate Sized(f: Frame) {
    |f.payload| <= MAX_MSG_LEN
  }

  /** Any payload whose length fits the header; grout is not bound by MAX_MSG_LEN. */
  function Encode(f: Frame): (b: bytes)
    requires |f.payload| < 0x1_0000_0000
    ensures |b| == 12 + |f.payload|
  {
    Le32(f.forId) + Le32(f.status) + Le32(|f.payload|) + f.payload
  }

  /** What readResponse makes of a stream: a frame, or an error; and what is left to read. */
  datatype Read = Got(frame: Frame, rest: bytes) | Broken(rest: bytes)

  function ReadFrame(s: bytes): (r: Read)
    ensures r.Got? ==> |r.rest| < |s| && Sized(r.frame)
  {
    if |s| < 12 then Broken([])
    else
      var len := U32(s[8..12]);
      if len > MAX_MSG_LEN then Broken(s[12..])
      else if |s| < 12 + len then Broken([])
      else Got(Frame(U32(s[..4]), U32(s[4..8]), s[12..12 + len]), s[12 + len..])
  }

  /** Reading undoes writing, whatever follows, exactly for payloads of at most MAX_MSG_LEN bytes. Of a
      longer one only the header is consumed: the next read starts inside the payload. */
  lemma ReadEncoded(f: Frame, tail: bytes)
    requires |f.payload| < 0x1_0000_0000
    ensures ReadFrame(Encode(f) + tail) == if Sized(f) then Got(f, tail) else Broken(f.payload + tail)
    ensures ReadFrame(Encode(f) + tail).rest == tail <==> Sized(f)
  {
    var s := Encode(f) + tail;
    Le32Inverse(f.forId);
    Le32Inverse(f.status);
    Le32Inverse(|f.payload|);
    assert s[..4] == Le32(f.forId) && s[4..8] == Le32(f.status) && s[8..12] == Le32(|f.payload|);
    assert s[12..12 + |f.payload|] == f.payload && s[12 + |f.payload|..] == tail && s[12..] == f.payload + tail;
  }

  /** The other way round: what is read as a frame lies at these offsets, and what is left follows it. */
  lemma ReadLayout(s: bytes)
    requires ReadFrame(s).Got?
    ensures var f, rest := ReadFrame(s).frame, ReadFrame(s).rest;
            && |s| == 12 + |f.payload| + |rest|
            && f.forId == U32(s[0..4]) && f.status == U32(s[4..8]) && |f.payload| == U32(s[8..12])
            && f.payload == s[12..12 + |f.payload|] && rest == s[12 + |f.payload|..]
  {
    assert s[0..4] == s[..4];
  }

  predicate AllSized(fs: seq<Frame>) {
    forall i :: 0 <= i < |fs| ==> Sized(fs[i])
  }

  function EncodeAll(fs: seq<Frame>): bytes
    requires AllSized(fs)
  {
    if fs == [] then [] else assert Sized(fs[0]); Encode(fs[0]) + EncodeAll(fs[1..])
  }

  lemma ReadNext(fs: seq<Frame>)
    requires AllSized(fs)
    ensures ReadFrame(EncodeAll(fs)) == if fs == [] then Broken([]) else Got(fs[0], EncodeAll(fs[1..]))
  {
    if fs != [] {
      assert Sized(fs[0]);
      ReadEncoded(fs[0], EncodeAll(fs[1..]));
    }
  }

  // ---------- the stream ----------

  /** How many of n bytes are written when the peer still takes `room` of them; None is no limit. */
  function Taken(room: Option<nat>, n: nat): nat {
    if room.None? || n <= room.value then n else room.value
  }

  function Left(room: Option<nat>, n: nat): Option<nat> {
    if room.None? then None else Some(room.value - Taken(room, n))
  }

  /** The bytes of a request; the length field holds the low 32 bits of the length. */
  function RequestBytes(id: Word, msgType: Word, payload: bytes): (b: bytes)
    ensures |b| == 12 + |payload|
  {
    Le32(id) + Le32(msgType) + Le32(|payload| % 0x1_0000_0000) + payload
  }

  /** b is a request: id, type and the low 32 bits of the length, little-endian, then the payload. */
  ghost predicate IsRequest(b: bytes, id: Word, msgType: Word, payload: bytes) {
    && |b| == 12 + |payload|
    && U32(b[0..4]) == id && U32(b[4..8]) == msgType && U32(b[8..12]) == |payload| % 0x1_0000_0000
    && b[12..] == payload
  }

  lemma RequestLayout(id: Word, msgType: Word, payload: bytes)
    ensures IsRequest(RequestBytes(id, msgType, payload), id, msgType, payload)
  {
    var b := RequestBytes(id, msgType, payload);
    Le32Inverse(id);
    Le32Inverse(msgType);
    Le32Inverse(|payload| % 0x1_0000_0000);
    assert b[0..4] == Le32(id) && b[4..8] == Le32(msgType) && b[8..12] == Le32(|payload| % 0x1_0000_0000);
  }

  /** One end of the Unix socket: bytes still to be read, bytes written so far, and how many more the
      peer takes before it goes away and writes fail. */
  class Conn {
    var inp: bytes
    var out: bytes
    var room: Option<nat>

    constructor (inp: bytes, room: Option<nat>)
      ensures this.inp == inp && out == [] && this.room == room
    {
      this.inp, this.out, this.room := inp, [], room;
    }

    /** io.ReadFull: n bytes, or an error with everything consumed. */
    method ReadFull(n: nat) returns (ok: bool, data: bytes)
      modifies this`inp
      ensures ok <==> |old(inp)| >= n
      ensures ok ==> data == old(inp)[..n] && inp == old(inp)[n..]
      ensures !ok ==> inp == []
    {
      if |inp| < n {
        inp := [];
        return false, [];
      }
      ok, data := true, inp[..n];
      inp := inp[n..];
    }

    /** net.Conn's Write: everything, or an error after as much as the peer took. */
    method Write(data: bytes) returns (ok: bool)
      modifies this`out, this`room
      ensures ok <==> Taken(old(room), |data|) == |data|
      ensures out == old(out) + data[..Taken(old(room), |data|)] && room == Left(old(room), |data|)
    {
      var n := Taken(room, |data|);
      out, room := out + data[..n], Left(room, |data|);
      return n == |data|;
    }

    /** Header, then payload; the peer may go away in the middle of either. */
    method WriteRequest(id: Word, msgType: Word, payload: bytes) returns (ok: bool)
      modifies this`out, this`room
      ensures var msg := RequestBytes(id, msgType, payload);
              && (ok <==> Taken(old(room), |msg|) == |msg|)
              && out == old(out) + msg[..Taken(old(room), |msg|)]
              && room == Left(old(room), |msg|)
      ensures ok ==> |out| >= |old(out)| && IsRequest(out[|old(out)|..], id, msgType, payload)
    {
      RequestLayout(id, msgType, payload);
      var hdr := Le32(id) + Le32(msgType) + Le32(|payload| % 0x1_0000_0000);
      ghost var msg, n := RequestBytes(id, msgType, payload), Taken(room, 12 + |payload|);
      assert msg == hdr + payload;
      ok := Write(hdr);
      if !ok {
        assert msg[..n] == hdr[..n];
        return;
      }
      assert hdr[..12] == hdr && n >= 12 && msg[..n] == hdr + payload[..n - 12];
      if |payload| > 0 {
        ok := Write(payload);
      }
      assert out == old(out) + (hdr + payload[..n - 12]);
      assert ok ==> out == old(out) + msg && out[|old(out)|..] == msg;
    }

    method ReadResponse() returns (r: Option<Frame>)
      modifies this`inp
      ensures ReadFrame(old(inp)) == if r.Some? then Got(r.value, inp) else Broken(inp)
    {
      ghost var s := inp;
      var ok, hdr := ReadFull(12);
      if !ok {
        return None;
      }
      assert hdr[..4] == s[..4] && hdr[4..8] == s[4..8] && hdr[8..12] == s[8..12];
      var len := U32(hdr[8..12]);
      if len > MAX_MSG_LEN {
        return None;
      }
      var payload := [];
      if len > 0 {
        ok, payload := ReadFull(len);
        if !ok {
          return None;
        }
        assert s[12..][..len] == s[12..12 + len] && s[12..][len..] == s[12 + len..];
      }
      return Some(Frame(U32(hdr[..4]), U32(hdr[4..8]), payload));
    }
  }
}
