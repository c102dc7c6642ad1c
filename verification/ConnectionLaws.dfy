/** What every step of a connection's writer and reader keeps, whatever the peer sends. */
module ConnectionLaws {
  import opened Bytes
  import opened NetMessage
  import opened Framing
  import opened ConnectionState

  // ----- The writer -----

  predicate WriteInRange(w: Writer) {
    !w.op.NoWrite? ==> w.qOut != [] && w.op.sent <= |WriteBuffer(w)|
  }

  /** What goes out after the outstanding write: the front's body if only its header is being written, and the rest. */
  function AfterWrite(w: Writer): seq<byte>
    requires Writing(w)
  {
    (if w.op.HeaderWrite? then w.qOut[0].body else []) + Frames(w.qOut[1..])
  }

  /** The bytes that still have to go out for the posted messages. */
  function Rest(w: Writer): seq<byte>
    requires WriteInRange(w)
  {
    if w.op.NoWrite? then [] else WriteBuffer(w)[w.op.sent..] + AfterWrite(w)
  }

  /** Of all operations ever started, exactly one has not ended, or none if nothing is outstanding. */
  predicate OneAtMost(calls: Calls, idle: bool) {
    calls.started == calls.ended + if idle then 0 else 1
  }

  /** A write is outstanding exactly while the queue is non-empty and no write has failed; it belongs to the front
      message and stays within the part it writes; a failed write leaves the queue non-empty. Of all writes ever
      started, only the outstanding one has not ended. */
  predicate WriterDiscipline(w: Writer) {
    && OneAtMost(w.calls, w.op.NoWrite?)
    && (w.op.NoWrite? <==> w.qOut == [] || w.failed)
    && (w.failed ==> w.qOut != [])
    && WriteInRange(w)
    && (w.op.BodyWrite? ==> w.qOut[0].body != [])
  }

  ghost predicate IsTail<T>(q: seq<T>, s: seq<T>) {
    |q| <= |s| && s[|s| - |q|..] == q
  }

  /** The message bytes sent so far and those still to be sent are the frames of the posted messages. */
  predicate WireInv(w: Writer)
    requires WriteInRange(w)
  {
    if w.failed then w.wire <= Frames(w.posted) else w.wire + Rest(w) == Frames(w.posted)
  }

  ghost predicate WriterInv(w: Writer) {
    && WriterDiscipline(w)
    && IsTail(w.qOut, w.posted)
    && (w.calls.started > 0 ==> |w.posted| > 0)
    && AllSizesMatch(w.posted)
    && WireInv(w)
  }

  lemma WireIsPrefix(w: Writer)
    requires WriterInv(w)
    ensures w.wire <= Frames(w.posted)
  {
  }

  lemma TailGrows<T>(q: seq<T>, s: seq<T>, x: T)
    requires IsTail(q, s)
    ensures IsTail(q + [x], s + [x])
  {
    assert (s + [x])[|s| - |q|..] == s[|s| - |q|..] + [x];
  }

  lemma TailShrinks<T>(q: seq<T>, s: seq<T>)
    requires IsTail(q, s) && q != []
    ensures IsTail(q[1..], s)
  {
    assert s[|s| - |q| + 1..] == s[|s| - |q|..][1..];
  }

  lemma RestOfOne(w: Writer, m: Msg)
    requires w.qOut == [m] && w.op == HeaderWrite(0)
    ensures Rest(w) == Frames([m])
  {
    assert w.qOut[1..] == [];
    assert WriteBuffer(w)[0..] == WriteBuffer(w);
    assert m.body + [] == m.body && Frame(m) + [] == Frame(m);
  }

  lemma RestGrows(w: Writer, m: Msg)
    requires WriterDiscipline(w) && !w.op.NoWrite?
    ensures WriteInRange(Post(w, m)) && Rest(Post(w, m)) == Rest(w) + Frames([m])
  {
    var w' := Post(w, m);
    assert w'.qOut[1..] == w.qOut[1..] + [m];
    FramesAppend(w.qOut[1..], [m]);
    Assoc(if w.op.HeaderWrite? then w.qOut[0].body else [], Frames(w.qOut[1..]), Frames([m]));
    Assoc(WriteBuffer(w)[w.op.sent..], AfterWrite(w), Frames([m]));
  }

  lemma PostKeepsDiscipline(w: Writer, m: Msg)
    requires WriterDiscipline(w)
    ensures WriterDiscipline(Post(w, m))
  {
  }

  lemma PostKeepsWire(w: Writer, m: Msg)
    requires WriterDiscipline(w) && WireInv(w)
    ensures WriteInRange(Post(w, m)) && WireInv(Post(w, m))
  {
    PostKeepsDiscipline(w, m);
    FramesAppend(w.posted, [m]);
    if !w.failed {
      if w.qOut == [] {
        RestOfOne(Post(w, m), m);
        assert w.wire + [] == w.wire;
      } else {
        RestGrows(w, m);
        Assoc(w.wire, Rest(w), Frames([m]));
      }
    }
  }

  lemma PostKeepsWriter(w: Writer, m: Msg)
    requires WriterInv(w) && SizeMatches(m)
    ensures WriterInv(Post(w, m))
  {
    PostKeepsDiscipline(w, m);
    PostKeepsWire(w, m);
    PostKeepsTail(w, m);
  }

  lemma PostKeepsTail(w: Writer, m: Msg)
    requires IsTail(w.qOut, w.posted) && AllSizesMatch(w.posted) && SizeMatches(m)
    ensures IsTail(Post(w, m).qOut, Post(w, m).posted) && AllSizesMatch(Post(w, m).posted)
    ensures |Post(w, m).posted| > 0
  {
    TailGrows(w.qOut, w.posted, m);
  }

  lemma ChunkOff(wire: seq<byte>, buffer: seq<byte>, sent: nat, n: nat, after: seq<byte>)
    requires sent <= n <= |buffer|
    ensures wire + (buffer[sent..] + after) == (wire + buffer[sent..n]) + (buffer[n..] + after)
  {
    assert buffer[sent..] == buffer[sent..n] + buffer[n..];
  }

  lemma TransmitKeepsBuffer(w: Writer, k: nat)
    requires WriteInRange(w) && Writing(w) && w.op.sent + k <= |WriteBuffer(w)|
    ensures
      var w' := Transmit(w, k);
      Writing(w') && WriteInRange(w') && WriteBuffer(w') == WriteBuffer(w) && AfterWrite(w') == AfterWrite(w)
  {
  }

  lemma TransmitMovesRest(w: Writer, k: nat)
    requires WriteInRange(w) && Writing(w) && w.op.sent + k <= |WriteBuffer(w)|
    ensures WriteInRange(Transmit(w, k))
    ensures Transmit(w, k).wire + Rest(Transmit(w, k)) == w.wire + Rest(w)
  {
    TransmitKeepsBuffer(w, k);
    ChunkOff(w.wire, WriteBuffer(w), w.op.sent, w.op.sent + k, AfterWrite(w));
  }

  lemma TransmitKeepsWriter(w: Writer, k: nat)
    requires WriterInv(w) && Writing(w) && w.op.sent + k <= |WriteBuffer(w)|
    ensures WriterInv(Transmit(w, k))
  {
    TransmitMovesRest(w, k);
  }

  lemma FinishKeepsRest(w: Writer)
    requires w.qOut != [] && w.op.NoWrite?
    ensures WriteInRange(FinishMessage(w)) && Rest(FinishMessage(w)) == Frames(w.qOut[1..])
  {
    var w' := FinishMessage(w);
    if w'.qOut != [] {
      assert WriteBuffer(w')[0..] == HeaderBytes(w'.qOut[0].header);
      Assoc(HeaderBytes(w'.qOut[0].header), w'.qOut[0].body, Frames(w'.qOut[1..]));
    }
  }

  lemma NothingLeft(b: seq<byte>, sent: nat, after: seq<byte>)
    requires sent == |b|
    ensures b[sent..] + after == after && b[0..] == b
  {
  }

  /** A message without a body, or its body, has been written. */
  lemma MessageWritten(w: Writer)
    requires WriterDiscipline(w) && Writing(w) && (w.op.HeaderWrite? ==> w.qOut[0].body == [])
    ensures Written(w, true) == FinishMessage(w.(op := NoWrite, calls := Ended(w.calls)))
    ensures AfterWrite(w) == Frames(w.qOut[1..])
  {
  }

  lemma WrittenKeepsRest(w: Writer)
    requires WriterDiscipline(w) && Writing(w) && w.op.sent == |WriteBuffer(w)|
    ensures WriteInRange(Written(w, true)) && Rest(Written(w, true)) == Rest(w)
  {
    NothingLeft(WriteBuffer(w), w.op.sent, AfterWrite(w));
    if w.op.HeaderWrite? && w.qOut[0].body != [] {
      NothingLeft(w.qOut[0].body, |w.qOut[0].body|, []);
    } else {
      MessageWritten(w);
      FinishKeepsRest(w.(op := NoWrite, calls := Ended(w.calls)));
    }
  }

  lemma WrittenKeepsDiscipline(w: Writer, ok: bool)
    requires WriterDiscipline(w) && Writing(w)
    ensures WriterDiscipline(Written(w, ok)) && Written(w, ok).posted == w.posted && Written(w, ok).wire == w.wire
    ensures Written(w, ok).calls.started <= w.calls.started + 1
    ensures Written(w, ok).qOut == w.qOut || Written(w, ok).qOut == w.qOut[1..]
  {
  }

  lemma WrittenKeepsWriter(w: Writer, ok: bool)
    requires WriterInv(w) && Writing(w) && (ok ==> w.op.sent == |WriteBuffer(w)|)
    ensures WriterInv(Written(w, ok))
  {
    WrittenKeepsDiscipline(w, ok);
    if ok {
      TailShrinks(w.qOut, w.posted);
      WrittenKeepsRest(w);
    } else {
      WireIsPrefix(w);
    }
  }

  // ----- The reader -----

  function Deliveries(ms: seq<Msg>): (es: seq<Event>)
    ensures |es| == |ms|
  {
    if ms == [] then [] else Deliveries(ms[..|ms| - 1]) + [Delivered(ms[|ms| - 1])]
  }

  lemma DeliveriesOne(m: Msg)
    ensures Deliveries([m]) == [Delivered(m)]
  {
    assert [m][..0] == [];
  }

  lemma {:induction false} DeliveriesAppend(a: seq<Msg>, b: seq<Msg>)
    ensures Deliveries(a + b) == Deliveries(a) + Deliveries(b)
  {
    if b == [] {
      assert a + b == a;
    } else {
      var front, last := b[..|b| - 1], b[|b| - 1];
      DeliveriesAppend(a, front);
      assert (a + b)[..|a + b| - 1] == a + front;
      Assoc(Deliveries(a), Deliveries(front), [Delivered(last)]);
    }
  }

  /** The bytes of completed reads after the handshake word. */
  function Stream(r: Reader): seq<byte> {
    if |r.processed| < 8 then [] else r.processed[8..]
  }

  function Greeting(owner: Owner): seq<Event> {
    if owner.ServerSide? then [Validated] else []
  }

  /** Everything has been reported: on the server first that the client is validated, then one delivery for each
      message of the stream. */
  predicate Reports(r: Reader, owner: Owner) {
    r.log == Greeting(owner) + Deliveries(Deframe([], Stream(r)))
  }

  /** Where in the stream `s` the outstanding read stands. */
  predicate ReadPosition(op: ReadOp, tempIn: Msg, s: seq<byte>) {
    match op
    case NoRead => true
    case ChallengeRead(_) => false
    case HeaderRead(got) => |got| <= 8 && Whole(s) && FinalBody([], s) == tempIn.body
    case BodyRead(got) =>
      && |got| <= |tempIn.body| == tempIn.header.size && 0 < |tempIn.body|
      && |s| >= 8 && Whole(s[..|s| - 8]) && tempIn.header == HeaderValue(s[|s| - 8..])
  }

  /** A reader that goes on after the handshake word only if the word was `right` (always, for a client). */
  predicate ReaderInv(r: Reader, owner: Owner, right: bool) {
    if |r.processed| == 0 then
      r.log == [] && r.tempIn.body == [] && (r.op.NoRead? || (r.op.ChallengeRead? && |r.op.got| <= 8))
    else if right || owner.ClientSide? then
      |r.processed| >= 8 && ReadPosition(r.op, r.tempIn, Stream(r)) && Reports(r, owner)
    else
      |r.processed| == 8 && r.op.NoRead? && r.log == []
  }

  /** Of all reads ever started, only the outstanding one has not ended. */
  predicate OneRead(r: Reader) {
    OneAtMost(r.calls, r.op.NoRead?)
  }

  lemma StreamGrows(r: Reader, bs: seq<byte>)
    requires |r.processed| >= 8
    ensures (r.processed + bs)[8..] == Stream(r) + bs
  {
  }

  lemma EmptyStream()
    ensures Deframe([], []) == [] && Deliveries([]) == [] && Whole([]) && FinalBody([], []) == []
  {
  }

  lemma ChallengeKeepsReader(r: Reader, owner: Owner, before: bool, right: bool)
    requires ReaderInv(r, owner, before) && r.op.ChallengeRead? && |r.op.got| == 8
    ensures ReaderInv(ChallengeTaken(r, owner, right), owner, right)
  {
    var r' := ChallengeTaken(r, owner, right);
    EmptyStream();
    assert r'.processed == r.op.got && Stream(r') == [];
    assert Greeting(owner) + [] == Greeting(owner) && [] + [Validated] == [Validated];
  }

  /** A client starts reading headers once its answer is out. */
  lemma ReadHeaderKeepsReader(r: Reader, right: bool)
    requires ReaderInv(r, ClientSide, right) && |r.processed| == 8 && r.tempIn.body == []
    ensures ReaderInv(ReadHeader(r), ClientSide, right)
  {
    EmptyStream();
    assert Stream(r) == Stream(ReadHeader(r)) == [];
  }

  lemma ReceiveKeepsReader(r: Reader, bs: seq<byte>, owner: Owner, right: bool)
    requires ReaderInv(r, owner, right) && !r.op.NoRead? && |r.op.got| + |bs| <= ReadSize(r)
    ensures ReaderInv(Receive(r, bs), owner, right)
  {
    assert Stream(Receive(r, bs)) == Stream(r);
  }

  lemma ReadFailedKeepsReader(r: Reader, owner: Owner, right: bool)
    requires ReaderInv(r, owner, right)
    ensures ReaderInv(ReadOver(r, []), owner, right)
  {
    assert r.processed + [] == r.processed;
  }

  lemma HeaderPosition(tempIn: Msg, s: seq<byte>, h: seq<byte>)
    requires |h| == 8 && ReadPosition(HeaderRead(h), tempIn, s)
    ensures
      var header := HeaderValue(h);
      if header.size > 0 then
        && ReadPosition(BodyRead([]), Msg(header, Resize(tempIn.body, header.size)), s + h)
        && Deframe([], s + h) == Deframe([], s)
      else
        && ReadPosition(HeaderRead([]), Msg(header, tempIn.body), s + h)
        && Deframe([], s + h) == Deframe([], s) + [Msg(header, tempIn.body)]
  {
    if HeaderValue(h).size > 0 {
      StreamHeader(s, h);
      assert (s + h)[..|s|] == s && (s + h)[|s|..] == h;
    } else {
      StreamEmptyFrame(s, h);
    }
  }

  lemma BodyPosition(tempIn: Msg, s: seq<byte>, b: seq<byte>)
    requires ReadPosition(BodyRead(b), tempIn, s) && |b| == |tempIn.body|
    ensures ReadPosition(HeaderRead([]), Msg(tempIn.header, b), s + b)
    ensures Deframe([], s + b) == Deframe([], s) + [Msg(tempIn.header, b)]
  {
    var s0, h := s[..|s| - 8], s[|s| - 8..];
    assert s == s0 + h;
    StreamHeader(s0, h);
    StreamFrame(s0, h, b);
  }

  /** A completed read of `bs` that reports the messages `ms` and leaves the reader at a stream position. */
  lemma ReadKeepsReader(r: Reader, r': Reader, bs: seq<byte>, ms: seq<Msg>, owner: Owner)
    requires |r.processed| >= 8 && Reports(r, owner)
    requires r'.processed == r.processed + bs && r'.log == r.log + Deliveries(ms)
    requires Deframe([], Stream(r) + bs) == Deframe([], Stream(r)) + ms
    ensures Stream(r') == Stream(r) + bs && Reports(r', owner)
  {
    StreamGrows(r, bs);
    DeliveriesAppend(Deframe([], Stream(r)), ms);
    Assoc(Greeting(owner), Deliveries(Deframe([], Stream(r))), Deliveries(ms));
  }

  lemma HeaderKeepsReader(r: Reader, owner: Owner, right: bool)
    requires ReaderInv(r, owner, right) && r.op.HeaderRead? && |r.op.got| == 8
    ensures ReaderInv(HeaderReceived(r), owner, right)
  {
    var r', h := HeaderReceived(r), r.op.got;
    HeaderPosition(r.tempIn, Stream(r), h);
    if HeaderValue(h).size > 0 {
      EmptyStream();
      assert Deframe([], Stream(r)) + [] == Deframe([], Stream(r)) && r.log + [] == r.log;
      ReadKeepsReader(r, r', h, [], owner);
    } else {
      DeliveriesOne(r'.tempIn);
      ReadKeepsReader(r, r', h, [r'.tempIn], owner);
    }
  }

  lemma BodyKeepsReader(r: Reader, owner: Owner, right: bool)
    requires ReaderInv(r, owner, right) && r.op.BodyRead? && |r.op.got| == |r.tempIn.body|
    ensures ReaderInv(BodyReceived(r), owner, right)
  {
    var r' := BodyReceived(r);
    BodyPosition(r.tempIn, Stream(r), r.op.got);
    DeliveriesOne(r'.tempIn);
    ReadKeepsReader(r, r', r.op.got, [r'.tempIn], owner);
  }
}
