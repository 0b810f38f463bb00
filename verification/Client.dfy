/** The request/response client of pkg/groutapi/client.go: unary requests, streamed answers, and
    correlation ids over one connection. */
module Client {
  import opened Base
  import opened Wire

  /** A unary call decodes its answer into a struct of `want` bytes, 0 for none. */
  datatype Kind = Unary(want: nat) | Streamed

  /** What a call hands back: the payloads of its answer, or an error. */
  datatype Outcome = Payloads(ps: seq<bytes>) | Fault

  function NextId(id: Word): Word {
    (id + 1) % 0x1_0000_0000
  }

  /** The id of the j-th request after `base`. */
  function IdAt(base: Word, j: nat): Word {
    (base + 1 + j) % 0x1_0000_0000
  }

  // ---------- one call, as a function of the stream ----------

  /** An answer can be decoded if it is empty, which leaves the struct as it was, or long enough. */
  predicate Decodes(want: nat, payload: bytes) {
    payload == [] || |payload| >= want
  }

  function UnaryOn(s: bytes, id: Word, want: nat): (Outcome, bytes) {
    match ReadFrame(s)
    case Broken(rest) => (Fault, rest)
    case Got(f, rest) =>
      if f.forId == id && f.status == 0 && Decodes(want, f.payload) then (Payloads([f.payload]), rest) else (Fault, rest)
  }

  /** The read loop of requestStream. */
  function StreamOn(s: bytes, id: Word): (Outcome, bytes)
    decreases |s|
  {
    match ReadFrame(s)
    case Broken(rest) => (Fault, rest)
    case Got(f, rest) =>
      if f.forId != id || f.status != 0 then (Fault, rest)
      else if f.payload == [] then (Payloads([]), rest)
      else
        match StreamOn(rest, id)
        case (Payloads(ps), s') => (Payloads([f.payload] + ps), s')
        case (Fault, s') => (Fault, s')
  }

  function CallOn(k: Kind, s: bytes, id: Word): (Outcome, bytes) {
    if k.Unary? then UnaryOn(s, id, k.want) else StreamOn(s, id)
  }

  // ---------- the client ----------

  class GroutClient {
    const conn: Conn
    var reqId: Word

    constructor (conn: Conn)
      ensures this.conn == conn && reqId == 0
    {
      this.conn, this.reqId := conn, 0;
    }

    method Request(msgType: Word, payload: bytes, want: nat) returns (r: Outcome)
      modifies this, conn
      ensures reqId == NextId(old(reqId))
      ensures var msg := RequestBytes(reqId, msgType, payload); var n := Taken(old(conn.room), |msg|);
              && conn.out == old(conn.out) + msg[..n] && conn.room == Left(old(conn.room), |msg|)
              && (n < |msg| ==> r.Fault? && conn.inp == old(conn.inp))
              && (n == |msg| ==> (r, conn.inp) == UnaryOn(old(conn.inp), reqId, want))
      ensures Taken(old(conn.room), 12 + |payload|) == 12 + |payload| ==>
                |conn.out| >= |old(conn.out)| && IsRequest(conn.out[|old(conn.out)|..], reqId, msgType, payload)
    {
      reqId := NextId(reqId);
      var sent := conn.WriteRequest(reqId, msgType, payload);
      if !sent {
        return Fault;
      }
      var f := conn.ReadResponse();
      if f.None? || f.value.forId != reqId || f.value.status != 0 {
        return Fault;
      }
      if |f.value.payload| > 0 && |f.value.payload| < want {
        return Fault;
      }
      return Payloads([f.value.payload]);
    }

    method RequestStream(msgType: Word, payload: bytes) returns (r: Outcome)
      modifies this, conn
      ensures reqId == NextId(old(reqId))
      ensures var msg := RequestBytes(reqId, msgType, payload); var n := Taken(old(conn.room), |msg|);
              && conn.out == old(conn.out) + msg[..n] && conn.room == Left(old(conn.room), |msg|)
              && (n < |msg| ==> r.Fault? && conn.inp == old(conn.inp))
              && (n == |msg| ==> (r, conn.inp) == StreamOn(old(conn.inp), reqId))
      ensures Taken(old(conn.room), 12 + |payload|) == 12 + |payload| ==>
                |conn.out| >= |old(conn.out)| && IsRequest(conn.out[|old(conn.out)|..], reqId, msgType, payload)
    {
      reqId := NextId(reqId);
      var sent := conn.WriteRequest(reqId, msgType, payload);
      if !sent {
        return Fault;
      }
      ghost var sentOut, sentRoom := conn.out, conn.room;
      var items: seq<bytes> := [];
      var finished := false;
      ghost var s0 := conn.inp;
      PrependMore(items, [], StreamOn(s0, reqId));
      while !finished
        invariant conn.out == sentOut && conn.room == sentRoom && reqId == NextId(old(reqId))
        invariant StreamOn(s0, reqId) == if finished then (Payloads(items), conn.inp) else Prepend(items, StreamOn(conn.inp, reqId))
        decreases if finished then 0 else 1, |conn.inp|
      {
        ghost var here := conn.inp;
        var f := conn.ReadResponse();
        if f.None? || f.value.forId != reqId || f.value.status != 0 {
          return Fault;
        }
        if |f.value.payload| == 0 {
          finished := true;
          assert items + [] == items;
        } else {
          PrependMore(items, f.value.payload, StreamOn(conn.inp, reqId));
          items := items + [f.value.payload];
        }
      }
      return Payloads(items);
    }
  }

  function Prepend(items: seq<bytes>, o: (Outcome, bytes)): (Outcome, bytes) {
    match o
    case (Payloads(ps), s) => (Payloads(items + ps), s)
    case (Fault, s) => (Fault, s)
  }

  lemma PrependMore(items: seq<bytes>, p: bytes, o: (Outcome, bytes))
    ensures Prepend(items, Prepend([p], o)) == Prepend(items + [p], o)
    ensures Prepend([], o) == o
  {
    if o.0.Payloads? {
      assert items + ([p] + o.0.ps) == items + [p] + o.0.ps;
      assert [] + o.0.ps == o.0.ps;
    }
  }

  // ---------- sequences of calls ----------

  /** Calls made one after the other on one connection: their outcomes, and what is left to read. */
  function Calls(ks: seq<Kind>, s: bytes, base: Word): (r: (seq<Outcome>, bytes))
    ensures |r.0| == |ks|
  {
    if ks == [] then ([], s)
    else
      var (o, s') := CallOn(ks[0], s, NextId(base));
      var (os, s'') := Calls(ks[1..], s', NextId(base));
      ([o] + os, s'')
  }

  /** A server's answer to one request: `items` and a last frame that ends it. */
  datatype Answer = Answer(items: seq<bytes>, status: Word, last: bytes)

  /** Well-formed: a unary request gets one frame; a stream gets non-empty frames, then an empty one or an error. */
  ghost predicate WellFormed(k: Kind, a: Answer) {
    && |a.last| <= MAX_MSG_LEN
    && (forall i :: 0 <= i < |a.items| ==> 0 < |a.items[i]| <= MAX_MSG_LEN)
    && (k.Unary? ==> a.items == [])
    && (k.Streamed? ==> a.status != 0 || a.last == [])
  }

  /** The bytes of an answer to request `id`. */
  ghost function Sent(k: Kind, a: Answer, id: Word): bytes
    requires WellFormed(k, a)
    decreases |a.items|
  {
    if a.items == [] then Encode(Frame(id, a.status, a.last))
    else Encode(Frame(id, 0, a.items[0])) + Sent(k, a.(items := a.items[1..]), id)
  }

  /** What a caller should get for an answer. */
  function Expected(k: Kind, a: Answer): Outcome {
    if a.status != 0 then Fault
    else if k.Streamed? then Payloads(a.items)
    else if Decodes(k.want, a.last) then Payloads([a.last])
    else Fault
  }

  lemma {:induction false} CallSync(k: Kind, a: Answer, id: Word, tail: bytes)
    requires WellFormed(k, a)
    ensures CallOn(k, Sent(k, a, id) + tail, id) == (Expected(k, a), tail)
    decreases |a.items|
  {
    if a.items == [] {
      ReadEncoded(Frame(id, a.status, a.last), tail);
    } else {
      var f, a' := Frame(id, 0, a.items[0]), a.(items := a.items[1..]);
      var more := Sent(k, a', id) + tail;
      assert Sent(k, a, id) + tail == Encode(f) + more;
      ReadEncoded(f, more);
      CallSync(k, a', id, tail);
      assert [a.items[0]] + a'.items == a.items;
    }
  }

  ghost predicate AllWellFormed(ks: seq<Kind>, answers: seq<Answer>) {
    |ks| == |answers| && forall i :: 0 <= i < |ks| ==> WellFormed(ks[i], answers[i])
  }

  /** Everything a server sends in answer to these requests. */
  ghost function SentAll(ks: seq<Kind>, answers: seq<Answer>, base: Word): bytes
    requires AllWellFormed(ks, answers)
  {
    if ks == [] then [] else Sent(ks[0], answers[0], NextId(base)) + SentAll(ks[1..], answers[1..], NextId(base))
  }

  function ExpectedAll(ks: seq<Kind>, answers: seq<Answer>): seq<Outcome>
    requires |ks| == |answers|
  {
    if ks == [] then [] else [Expected(ks[0], answers[0])] + ExpectedAll(ks[1..], answers[1..])
  }

  /** Stream synchronisation: against a server that answers every request with well-formed frames,
      every sequence of calls returns exactly its own answers, in order, consumes exactly their
      frames, and leaves the stream where the next answer begins. Error answers included. */
  lemma {:induction false} SessionSync(ks: seq<Kind>, answers: seq<Answer>, base: Word, tail: bytes)
    requires AllWellFormed(ks, answers)
    ensures Calls(ks, SentAll(ks, answers, base) + tail, base) == (ExpectedAll(ks, answers), tail)
  {
    if ks == [] {
      assert SentAll(ks, answers, base) + tail == tail;
    } else {
      var more := SentAll(ks[1..], answers[1..], NextId(base)) + tail;
      assert SentAll(ks, answers, base) + tail == Sent(ks[0], answers[0], NextId(base)) + more;
      CallSync(ks[0], answers[0], NextId(base), more);
      SessionSync(ks[1..], answers[1..], NextId(base), tail);
    }
  }

  // ---------- stale answers ----------

  /** How many of the frames a call reads. */
  function Reads(k: Kind, fs: seq<Frame>, id: Word): (n: nat)
    ensures n <= |fs|
  {
    if fs == [] then 0
    else if k.Unary? || fs[0].forId != id || fs[0].status != 0 || fs[0].payload == [] then 1
    else 1 + Reads(k, fs[1..], id)
  }

  function PayloadsOf(fs: seq<Frame>): seq<bytes> {
    seq(|fs|, i requires 0 <= i < |fs| => fs[i].payload)
  }

  /** A successful outcome holds the payloads of frames 0..n, all of them tagged with `id`. */
  ghost predicate Owned(k: Kind, fs: seq<Frame>, id: Word, o: Outcome, n: nat) {
    o.Payloads? ==>
      && 0 < n <= |fs|
      && (forall i :: 0 <= i < n ==> fs[i].forId == id && fs[i].status == 0)
      && o.ps == PayloadsOf(if k.Unary? then fs[..1] else fs[..n - 1])
  }

  lemma OwnedMore(fs: seq<Frame>, id: Word, ps: seq<bytes>, n: nat)
    requires fs != [] && fs[0].forId == id && fs[0].status == 0
    requires Owned(Streamed, fs[1..], id, Payloads(ps), n)
    ensures Owned(Streamed, fs, id, Payloads([fs[0].payload] + ps), n + 1)
  {
    assert forall i :: 0 < i < n + 1 ==> fs[i] == fs[1..][i - 1];
    assert fs[..n] == [fs[0]] + fs[1..][..n - 1];
    assert [fs[0].payload] + ps == PayloadsOf(fs[..n]);
  }

  /** On a stream of any frames whatever, a call stops at a frame boundary, and if it succeeds then
      every frame it read carries its own id and its payloads are those frames' payloads. */
  lemma {:induction false} CallReadsOwn(k: Kind, fs: seq<Frame>, id: Word)
    requires AllSized(fs)
    ensures CallOn(k, EncodeAll(fs), id).1 == EncodeAll(fs[Reads(k, fs, id)..])
    ensures Owned(k, fs, id, CallOn(k, EncodeAll(fs), id).0, Reads(k, fs, id))
  {
    ReadNext(fs);
    if fs != [] && k.Streamed? && fs[0].forId == id && fs[0].status == 0 && fs[0].payload != [] {
      CallReadsOwn(k, fs[1..], id);
      var n := Reads(k, fs[1..], id);
      var (o, rest) := StreamOn(EncodeAll(fs[1..]), id);
      assert Reads(k, fs, id) == n + 1 && fs[1..][n..] == fs[n + 1..];
      if o.Payloads? {
        OwnedMore(fs, id, o.ps, n);
      }
    } else if fs != [] {
      assert PayloadsOf(fs[..1]) == [fs[0].payload] && PayloadsOf(fs[..0]) == [];
    }
  }

  /** The counter before the j-th call. */
  function BaseAt(base: Word, j: nat): Word {
    (base + j) % 0x1_0000_0000
  }

  /** Request ids repeat exactly every 2^32 requests. */
  lemma IdsDistinct(base: Word, i: nat, j: nat)
    requires i <= j
    ensures IdAt(base, i) == IdAt(base, j) <==> (j - i) % 0x1_0000_0000 == 0
  {
    var m := 0x1_0000_0000;
    var a, b := base + 1 + i, base + 1 + j;
    assert a == m * (a / m) + a % m && b == m * (b / m) + b % m;
    assert b - a == m * ((b - a) / m) + (b - a) % m;
    if a % m == b % m {
      assert b - a == m * (b / m - a / m);
    }
    if (b - a) % m == 0 {
      assert b % m - a % m == m * ((b - a) / m - b / m + a / m);
    }
  }

  /** The frames are tagged with the requests they answer, any number for each, in any order. */
  ghost predicate Tagged(fs: seq<Frame>, base: Word, owner: seq<nat>) {
    |owner| == |fs| && forall i :: 0 <= i < |fs| ==> fs[i].forId == IdAt(base, owner[i])
  }

  /** If the outcome is a success, all its payloads are payloads of frames that answer call j. */
  ghost predicate OwnAnswer(fs: seq<Frame>, owner: seq<nat>, j: nat, o: Outcome)
    requires |owner| == |fs|
  {
    o.Payloads? ==> forall p :: p in o.ps ==> exists i :: 0 <= i < |fs| && owner[i] == j && p == fs[i].payload
  }

  /** Within 2^32 requests an id has one owner. */
  lemma OneOwner(base: Word, o: nat, j: nat)
    requires o < j + 0x1_0000_0000 && j < o + 0x1_0000_0000 && IdAt(base, o) == IdAt(base, j)
    ensures o == j
  {
    IdsDistinct(base, if o < j then o else j, if o < j then j else o);
  }

  lemma TagsOwn(fs: seq<Frame>, base: Word, owner: seq<nat>, j: nat)
    requires Tagged(fs, base, owner)
    requires forall i :: 0 <= i < |owner| ==> owner[i] < j + 0x1_0000_0000 && j < owner[i] + 0x1_0000_0000
    ensures forall i :: 0 <= i < |fs| ==> (fs[i].forId == IdAt(base, j) ==> owner[i] == j)
  {
    forall i | 0 <= i < |fs| && fs[i].forId == IdAt(base, j)
      ensures owner[i] == j
    {
      OneOwner(base, owner[i], j);
    }
  }

  /** No stale answers: whatever earlier calls left unread, a call that succeeds returns only frames
      the server sent in answer to that very call, as long as fewer than 2^32 requests lie between. */
  lemma NoStaleAnswer(k: Kind, fs: seq<Frame>, base: Word, owner: seq<nat>, j: nat)
    requires AllSized(fs) && Tagged(fs, base, owner)
    requires forall i :: 0 <= i < |owner| ==> owner[i] < j + 0x1_0000_0000 && j < owner[i] + 0x1_0000_0000
    ensures CallOn(k, EncodeAll(fs), IdAt(base, j)).1 == EncodeAll(fs[Reads(k, fs, IdAt(base, j))..])
    ensures OwnAnswer(fs, owner, j, CallOn(k, EncodeAll(fs), IdAt(base, j)).0)
  {
    var id := IdAt(base, j);
    CallReadsOwn(k, fs, id);
    TagsOwn(fs, base, owner, j);
    OwnedIsOwn(k, fs, owner, j, id, CallOn(k, EncodeAll(fs), id).0, Reads(k, fs, id));
  }

  lemma OwnedIsOwn(k: Kind, fs: seq<Frame>, owner: seq<nat>, j: nat, id: Word, o: Outcome, n: nat)
    requires |owner| == |fs| && Owned(k, fs, id, o, n)
    requires forall i :: 0 <= i < |fs| ==> (fs[i].forId == id ==> owner[i] == j)
    ensures OwnAnswer(fs, owner, j, o)
  {
    if o.Payloads? {
      forall p | p in o.ps
        ensures exists i :: 0 <= i < |fs| && owner[i] == j && p == fs[i].payload
      {
        var i :| 0 <= i < |o.ps| && o.ps[i] == p;
        assert fs[i].forId == id && p == fs[i].payload;
      }
    }
  }

  /** On any frames of at most MAX_MSG_LEN bytes, a session of any length and outcome never leaves a
      frame boundary: some number n of frames has been read. */
  lemma {:induction false} SessionAligned(ks: seq<Kind>, fs: seq<Frame>, base: Word) returns (n: nat)
    requires AllSized(fs)
    ensures n <= |fs| && Calls(ks, EncodeAll(fs), base).1 == EncodeAll(fs[n..])
    decreases |ks|
  {
    if ks == [] {
      n := 0;
      assert fs[0..] == fs;
    } else {
      var k := Reads(ks[0], fs, NextId(base));
      CallReadsOwn(ks[0], fs, NextId(base));
      CallsRest(ks, EncodeAll(fs), base);
      SuffixSized(fs, k);
      var m := SessionAligned(ks[1..], fs[k..], NextId(base));
      SuffixTwice(fs, k, m);
      n := k + m;
    }
  }

  lemma CallsRest(ks: seq<Kind>, s: bytes, base: Word)
    requires ks != []
    ensures Calls(ks, s, base).1 == Calls(ks[1..], CallOn(ks[0], s, NextId(base)).1, NextId(base)).1
  {
  }

  lemma SuffixSized(fs: seq<Frame>, n: nat)
    requires AllSized(fs) && n <= |fs|
    ensures AllSized(fs[n..])
  {
  }

  lemma SuffixTwice(fs: seq<Frame>, n: nat, m: nat)
    requires n <= |fs| && m <= |fs[n..]|
    ensures fs[n..][m..] == fs[n + m..]
  {
  }

  /** Over a whole session of fewer than 2^32 calls on any tagged frames, every call that succeeds
      returns only payloads of its own frames. */
  lemma {:induction false} SessionNoStale(ks: seq<Kind>, fs: seq<Frame>, base: Word, owner: seq<nat>, j: nat, total: nat, k: nat)
    requires AllSized(fs) && Tagged(fs, base, owner) && j + |ks| <= total < 0x1_0000_0000
    requires forall i :: 0 <= i < |owner| ==> owner[i] < total
    requires k < |ks|
    ensures OwnAnswer(fs, owner, j + k, Calls(ks, EncodeAll(fs), BaseAt(base, j)).0[k])
    decreases |ks|
  {
    var n := FirstCall(ks[0], fs, base, owner, j, total);
    CallsStep(ks, EncodeAll(fs), BaseAt(base, j), k);
    if k > 0 {
      SuffixTagged(fs, base, owner, n);
      SessionNoStale(ks[1..], fs[n..], base, owner[n..], j + 1, total, k - 1);
      OwnSuffix(fs, owner, j + k, Calls(ks[1..], EncodeAll(fs[n..]), BaseAt(base, j + 1)).0[k - 1], n);
    }
  }

  lemma FirstCall(k: Kind, fs: seq<Frame>, base: Word, owner: seq<nat>, j: nat, total: nat) returns (n: nat)
    requires AllSized(fs) && Tagged(fs, base, owner) && j < total < 0x1_0000_0000
    requires forall i :: 0 <= i < |owner| ==> owner[i] < total
    ensures n <= |fs| && NextId(BaseAt(base, j)) == BaseAt(base, j + 1)
    ensures CallOn(k, EncodeAll(fs), BaseAt(base, j + 1)).1 == EncodeAll(fs[n..])
    ensures OwnAnswer(fs, owner, j, CallOn(k, EncodeAll(fs), BaseAt(base, j + 1)).0)
  {
    NextBase(base, j);
    NoStaleAnswer(k, fs, base, owner, j);
    n := Reads(k, fs, IdAt(base, j));
  }

  lemma SuffixTagged(fs: seq<Frame>, base: Word, owner: seq<nat>, n: nat)
    requires AllSized(fs) && Tagged(fs, base, owner) && n <= |fs|
    ensures AllSized(fs[n..]) && Tagged(fs[n..], base, owner[n..])
  {
  }

  lemma CallsStep(ks: seq<Kind>, s: bytes, base: Word, k: nat)
    requires k < |ks|
    ensures var (o, rest) := CallOn(ks[0], s, NextId(base));
            Calls(ks, s, base).0[k] == if k == 0 then o else Calls(ks[1..], rest, NextId(base)).0[k - 1]
  {
  }

  lemma OwnSuffix(fs: seq<Frame>, owner: seq<nat>, j: nat, o: Outcome, n: nat)
    requires |owner| == |fs| && n <= |fs| && OwnAnswer(fs[n..], owner[n..], j, o)
    ensures OwnAnswer(fs, owner, j, o)
  {
    if o.Payloads? {
      forall p | p in o.ps
        ensures exists i :: 0 <= i < |fs| && owner[i] == j && p == fs[i].payload
      {
        var i :| 0 <= i < |fs[n..]| && owner[n..][i] == j && p == fs[n..][i].payload;
        assert owner[n + i] == j && p == fs[n + i].payload;
      }
    }
  }

  lemma NextBase(base: Word, j: nat)
    ensures NextId(BaseAt(base, j)) == IdAt(base, j) == BaseAt(base, j + 1)
  {
    var m := 0x1_0000_0000;
    assert base + j == m * ((base + j) / m) + (base + j) % m;
  }

  /** The other side of the coin: the client never resynchronises. Once one foreign frame is ahead
      of the answers, every later unary call reads the frame before its own and fails. */
  lemma {:induction false} NeverResync(ks: seq<Kind>, stale: Frame, fs: seq<Frame>, base: Word)
    requires AllSized([stale] + fs) && |fs| == |ks| < 0x1_0000_0000
    requires forall i :: 0 <= i < |ks| ==> ks[i].Unary?
    requires stale.forId != NextId(base)
    requires forall i :: 0 <= i < |fs| ==> fs[i].forId == IdAt(base, i)
    ensures forall i :: 0 <= i < |ks| ==> Calls(ks, EncodeAll([stale] + fs), base).0[i].Fault?
  {
    if ks != [] {
      ReadNext([stale] + fs);
      assert ([stale] + fs)[1..] == fs == [fs[0]] + fs[1..];
      NextBase(base, 0);
      IdsDistinct(base, 0, 1);
      forall i | 0 <= i < |fs[1..]|
        ensures fs[1..][i].forId == IdAt(NextId(base), i)
      {
        ShiftId(base, i);
        assert fs[1..][i] == fs[i + 1];
      }
      assert fs[0].forId == NextId(base) != NextId(NextId(base));
      NeverResync(ks[1..], fs[0], fs[1..], NextId(base));
    }
  }

  lemma ShiftId(base: Word, i: nat)
    ensures IdAt(NextId(base), i) == IdAt(base, i + 1)
  {
    var m := 0x1_0000_0000;
    assert base + 1 == m * ((base + 1) / m) + NextId(base);
    if base + 1 >= m {
      assert NextId(base) == base + 1 - m;
    }
  }

  // ---------- frames over maxMsgLen ----------

  /** A call that reads no further frame after f. */
  predicate Ends(k: Kind, f: Frame, id: Word) {
    k.Unary? || f.forId != id || f.status != 0 || f.payload == []
  }

  /** The limit of both: the stream stays at a frame boundary exactly if the frame's payload is at most
      MAX_MSG_LEN bytes. Otherwise the call fails with the whole payload still to be read. */
  lemma OversizeExact(k: Kind, f: Frame, id: Word, tail: bytes)
    requires |f.payload| < 0x1_0000_0000
    ensures !Sized(f) ==> CallOn(k, Encode(f) + tail, id) == (Fault, f.payload + tail)
    ensures Ends(k, f, id) ==> (CallOn(k, Encode(f) + tail, id).1 == tail <==> Sized(f))
  {
    ReadEncoded(f, tail);
    assert !Sized(f) ==> |f.payload + tail| > |tail|;
  }

  /** So the next call parses that payload: if it begins with a frame tagged with the call's own id,
      the call takes this frame for its answer. */
  lemma OversizeMisleads(k: Kind, f: Frame, inner: Frame, junk: bytes, tail: bytes, base: Word)
    requires !Sized(f) && |f.payload| < 0x1_0000_0000 && Sized(inner) && f.payload == Encode(inner) + junk
    requires inner.forId == IdAt(base, 1) && inner.status == 0
    ensures Calls([k, Unary(0)], Encode(f) + tail, base) == ([Fault, Payloads([inner.payload])], junk + tail)
  {
    OversizeExact(k, f, NextId(base), tail);
    assert f.payload + tail == Encode(inner) + (junk + tail);
    ReadEncoded(inner, junk + tail);
    NextBase(base, 0);
    ShiftId(base, 0);
    NextBase(NextId(base), 0);
    SecondCall(k, Encode(f) + tail, base);
  }

  lemma SecondCall(k: Kind, s: bytes, base: Word)
    ensures var (o, rest) := CallOn(k, s, NextId(base)); var (o', rest') := UnaryOn(rest, NextId(NextId(base)), 0);
            Calls([k, Unary(0)], s, base) == ([o, o'], rest')
  {
    var (o, rest) := CallOn(k, s, NextId(base));
    var (o', rest') := UnaryOn(rest, NextId(NextId(base)), 0);
    assert [k, Unary(0)][1..] == [Unary(0)] && [Unary(0)][1..] == [];
    assert Calls([], rest', NextId(NextId(base))) == ([], rest');
    assert Calls([Unary(0)], rest, NextId(base)) == ([o'] + [], rest');
    assert [o] + ([o'] + []) == [o, o'];
  }

  /** Such frames exist for every client: an answer to its first call that makes the second one return
      bytes nobody sent as an answer. */
  lemma OversizeBreaks(base: Word)
    ensures exists f: Frame :: && MAX_MSG_LEN < |f.payload| < 0x1_0000_0000 && f.forId == IdAt(base, 0)
                               && Calls([Unary(0), Unary(0)], Encode(f), base).0 == [Fault, Payloads([[7]])]
  {
    var inner := Frame(IdAt(base, 1), 0, [7]);
    var junk: bytes := seq(MAX_MSG_LEN, _ => 0);
    var f := Frame(IdAt(base, 0), 0, Encode(inner) + junk);
    OversizeMisleads(Unary(0), f, inner, junk, [], base);
    assert Encode(f) + [] == Encode(f);
  }
}
