/** The laws of delivery are not empty: from every challenge an honest pair can complete the handshake, and whatever
    either side then posts can be delivered, empty messages with the body of an earlier one. */
module DeliveryWitness {
  import opened Bytes
  import opened NetMessage
  import opened Framing
  import opened ConnectionState
  import opened ConnectionLaws
  import opened ConnectionRuns
  import opened Delivery

  // ----- Moving without posting -----

  /** A step of the pair in which nobody posts. */
  ghost predicate Moves(p: Pair, q: Pair) {
    exists side, a :: PairEnabled(p, side, a) && !a.APost? && q == PairStep(p, side, a)
  }

  ghost predicate MovesAt(ps: seq<Pair>, i: nat)
    requires i + 1 < |ps|
  {
    Moves(ps[i], ps[i + 1])
  }

  ghost predicate Path(ps: seq<Pair>, p: Pair, q: Pair) {
    && |ps| > 0 && ps[0] == p && ps[|ps| - 1] == q
    && forall i :: 0 <= i < |ps| - 1 ==> MovesAt(ps, i)
  }

  /** The pair can get from `p` to `q` without any post. */
  ghost predicate Leads(p: Pair, q: Pair) {
    exists ps :: Path(ps, p, q)
  }

  lemma Stay(p: Pair)
    ensures Leads(p, p)
  {
    assert Path([p], p, p);
  }

  lemma Do(p: Pair, q: Pair, side: Side, a: Action) returns (r: Pair)
    requires Leads(p, q) && PairEnabled(q, side, a) && !a.APost?
    ensures r == PairStep(q, side, a) && Leads(p, r)
  {
    var ps :| Path(ps, p, q);
    r := PairStep(q, side, a);
    var longer := ps + [r];
    forall i | 0 <= i < |longer| - 1
      ensures MovesAt(longer, i)
    {
      if i < |ps| - 1 {
        assert MovesAt(ps, i);
        assert longer[i] == ps[i] && longer[i + 1] == ps[i + 1];
      } else {
        assert longer[i] == q && longer[i + 1] == r && Moves(q, r);
      }
    }
    assert Path(longer, p, r);
  }

  // ----- Handshake -----

  /** A server-side connection that has sent its challenge and so far read `got` of the answer. */
  ghost predicate Challenging(s: Conn, words: Words, x: Word, got: seq<byte>) {
    s == AcceptedConn(words, x).(validation := Sent, reader := FRESH_READER.(op := ChallengeRead(got)))
  }

  /** A client that has taken the challenge `x` and is at this stage of sending its answer. */
  ghost predicate Answering(c: Conn, words: Words, x: Word, validation: Validation) {
    && c.owner.ClientSide? && c.open && c.words == words && c.writer == IDLE_WRITER
    && c.validation == validation && c.handshakeOut == words.scramble(x)
    && |c.reader.processed| == 8 && c.reader.processed == words.image(x)
    && (validation.Sending? ==> c.reader.op.NoRead?)
    && (validation.Sent? ==> c.reader.op == HeaderRead([]))
  }

  lemma NothingSent<T>(b: seq<T>)
    ensures b[..0] == [] && [] + b == b && b + [] == b && b[..|b|] == b
  {
  }

  function Meeting(words: Words, x: Word): Pair {
    Pair(AcceptedConn(words, x), ConnectedConn(words))
  }

  lemma ChallengeIsSent(words: Words, x: Word) returns (q: Pair)
    requires Lawful(words)
    ensures Leads(Meeting(words, x), q) && q.client == ConnectedConn(words) && Challenging(q.server, words, x, [])
  {
    var p := Meeting(words, x);
    Stay(p);
    q := Do(p, p, AtServer, AValidationTransmit(8));
    q := Do(p, q, AtServer, AValidationWritten(true));
  }

  lemma ChallengeArrives(words: Words, x: Word) returns (q: Pair)
    requires Lawful(words)
    ensures Leads(Meeting(words, x), q)
    ensures Challenging(q.server, words, x, []) && Answering(q.client, words, x, Sending(0))
  {
    var word := words.image(x);
    assert |word| == 8 && words.value(word) == x;
    NothingSent(word);
    q := ChallengeIsSent(words, x);
    assert Received(q.client.reader) == [] && Wire(q.server) == word;
    q := Do(Meeting(words, x), q, AtClient, AReceive(word));
    assert q.client.reader.op == ChallengeRead(word);
    q := Do(Meeting(words, x), q, AtClient, AReadDone(true));
  }

  lemma AnswerGoesOut(words: Words, x: Word) returns (q: Pair)
    requires Lawful(words)
    ensures Leads(Meeting(words, x), q)
    ensures Challenging(q.server, words, x, []) && Answering(q.client, words, x, Sent)
  {
    q := ChallengeArrives(words, x);
    q := Do(Meeting(words, x), q, AtClient, AValidationTransmit(8));
    assert Answering(q.client, words, x, Sending(8));
    q := Do(Meeting(words, x), q, AtClient, AValidationWritten(true));
  }

  // ----- Channels at rest -----

  function Sender(p: Pair, side: Side): Conn {
    if side == AtServer then p.server else p.client
  }

  function Receiver(p: Pair, side: Side): Conn {
    if side == AtServer then p.client else p.server
  }

  function Other(side: Side): Side {
    if side == AtServer then AtClient else AtServer
  }

  /** The sender has posted `ms` and is at this write, and everything it has sent has been received. */
  ghost predicate Posting(p: Pair, side: Side, ms: seq<Msg>, op: WriteOp) {
    var s, r := Sender(p, side), Receiver(p, side);
    && Lawful(s.words) && s.open && s.validation.Sent? && s.writer.posted == ms && !s.writer.failed && s.writer.op == op
    && r.open && |r.reader.processed| > 0 && Received(r.reader) == Wire(s)
  }

  /** Nothing is under way on the channel of this sender, which has posted `ms`. */
  ghost predicate Quiet(p: Pair, side: Side, ms: seq<Msg>) {
    && Posting(p, side, ms, NoWrite) && Sender(p, side).writer.qOut == []
    && Receiver(p, side).reader.op == HeaderRead([])
  }

  /** What a transfer leaves alone: the sender's reader, the receiver's writer, and both ends' other state. */
  ghost predicate SameElse(p: Pair, q: Pair, side: Side) {
    var s, r := Sender(p, side), Receiver(p, side);
    && Sender(q, side) == s.(writer := Sender(q, side).writer)
    && Receiver(q, side) == r.(reader := Receiver(q, side).reader)
  }

  /** A transfer in one direction leaves the other channel quiet. */
  lemma OtherStaysQuiet(p: Pair, q: Pair, side: Side, ms: seq<Msg>)
    requires Quiet(p, Other(side), ms) && SameElse(p, q, side)
    ensures Quiet(q, Other(side), ms)
  {
  }

  lemma HandshakeDone(words: Words, x: Word) returns (q: Pair)
    requires Lawful(words)
    ensures Leads(Meeting(words, x), q) && Quiet(q, AtClient, []) && Quiet(q, AtServer, [])
    ensures q.server.handshakeOut == x
  {
    q := AnswerGoesOut(words, x);
    var word := words.image(words.scramble(x));
    assert |word| == 8 && words.value(word) == words.scramble(x);
    NothingSent(word);
    NothingSent(words.image(x));
    assert |words.image(x)| == 8;
    var c := q.client;
    assert Wire(c) == word && Received(q.server.reader) == [];
    q := Do(Meeting(words, x), q, AtServer, AReceive(word));
    assert Challenging(q.server, words, x, word) && q.client == c;
    q := Do(Meeting(words, x), q, AtServer, AReadDone(true));
    assert q.client == c && q.server.reader.processed == word && Wire(q.server) == words.image(x);
  }

  // ----- Messages -----

  /** The sender transmits all of its outstanding write and the receiver gets it. */
  lemma Transfer(p: Pair, q: Pair, side: Side, ms: seq<Msg>, op: WriteOp) returns (t: Pair)
    requires Leads(p, q) && Posting(q, side, ms, op) && Writing(Sender(q, side).writer) && op.sent == 0
    requires
      var r, buffer := Receiver(q, side).reader, WriteBuffer(Sender(q, side).writer);
      (r.op == HeaderRead([]) || r.op == BodyRead([])) && |buffer| == ReadSize(r)
    ensures Leads(p, t) && SameElse(q, t, side) && Received(Receiver(t, side).reader) == Wire(Sender(t, side))
    ensures
      var w := Sender(q, side).writer;
      && Sender(t, side).writer == Transmit(w, |WriteBuffer(w)|)
      && Receiver(t, side).reader == Receive(Receiver(q, side).reader, WriteBuffer(w))
  {
    var s := Sender(q, side);
    var buffer := WriteBuffer(s.writer);
    NothingSent(buffer);
    Assoc(s.words.image(s.handshakeOut)[..8], s.writer.wire, buffer);
    assert buffer[0..] == buffer;
    t := Do(p, q, side, ATransmit(|buffer|));
    assert Wire(Sender(t, side)) == Wire(s) + buffer;
    t := Do(p, t, Other(side), AReceive(buffer));
    ReceiveAppends(Receiver(q, side), buffer);
  }

  /** After the transfer both completion handlers run. */
  lemma Complete(p: Pair, q: Pair, side: Side) returns (t: Pair)
    requires Leads(p, q) && PairEnabled(q, Other(side), AReadDone(true)) && PairEnabled(q, side, AWritten(true))
    ensures Leads(p, t)
    ensures Sender(t, side) == Step(Sender(q, side), AWritten(true))
    ensures Receiver(t, side) == Step(Receiver(q, side), AReadDone(true))
  {
    t := Do(p, q, Other(side), AReadDone(true));
    t := Do(p, t, side, AWritten(true));
  }

  /** The header of a newly posted message has been transferred and both ends have gone on. */
  ghost predicate HeaderDone(p: Pair, side: Side, ms: seq<Msg>, m: Msg) {
    && Posting(p, side, ms + [m], BodyWrite(0)) && Sender(p, side).writer.qOut == [m]
    && Receiver(p, side).reader.op == BodyRead([]) && ReadSize(Receiver(p, side).reader) == |m.body|
  }

  /** The message has just been posted. */
  ghost predicate JustPosted(p: Pair, side: Side, ms: seq<Msg>, m: Msg) {
    && Posting(p, side, ms + [m], HeaderWrite(0)) && Sender(p, side).writer.qOut == [m]
    && Receiver(p, side).reader.op == HeaderRead([]) && SizeMatches(m)
  }

  lemma PostIsPosted(p: Pair, side: Side, ms: seq<Msg>, m: Msg)
    requires Quiet(p, side, ms) && SizeMatches(m)
    ensures PairEnabled(p, side, APost(m)) && JustPosted(PairStep(p, side, APost(m)), side, ms, m)
    ensures SameElse(p, PairStep(p, side, APost(m)), side)
  {
    NothingSent([m]);
    assert Wire(Sender(PairStep(p, side, APost(m)), side)) == Wire(Sender(p, side));
  }

  lemma SendHeader(p: Pair, q: Pair, side: Side, ms: seq<Msg>, m: Msg) returns (t: Pair)
    requires Leads(p, q) && JustPosted(q, side, ms, m)
    ensures Leads(p, t) && SameElse(q, t, side)
    ensures if m.body == [] then Quiet(t, side, ms + [m]) else HeaderDone(t, side, ms, m)
  {
    HeaderRoundTrip(m.header);
    t := Transfer(p, q, side, ms + [m], HeaderWrite(0));
    NothingSent(HeaderBytes(m.header));
    t := FinishHeader(p, t, side, ms, m);
  }

  lemma FinishHeader(p: Pair, q: Pair, side: Side, ms: seq<Msg>, m: Msg) returns (t: Pair)
    requires Leads(p, q) && SizeMatches(m) && HeaderValue(HeaderBytes(m.header)) == m.header
    requires Posting(q, side, ms + [m], HeaderWrite(HEADER_SIZE)) && Sender(q, side).writer.qOut == [m]
    requires Receiver(q, side).reader.op == HeaderRead(HeaderBytes(m.header))
    ensures Leads(p, t) && SameElse(q, t, side)
    ensures if m.body == [] then Quiet(t, side, ms + [m]) else HeaderDone(t, side, ms, m)
  {
    ReadDoneKeepsReceived(Receiver(q, side), true);
    t := Complete(p, q, side);
  }

  lemma SendBody(p: Pair, q: Pair, side: Side, ms: seq<Msg>, m: Msg) returns (t: Pair)
    requires Leads(p, q) && HeaderDone(q, side, ms, m) && m.body != []
    ensures Leads(p, t) && SameElse(q, t, side) && Quiet(t, side, ms + [m])
  {
    t := Transfer(p, q, side, ms + [m], BodyWrite(0));
    NothingSent(m.body);
    t := FinishBody(p, t, side, ms, m);
  }

  lemma FinishBody(p: Pair, q: Pair, side: Side, ms: seq<Msg>, m: Msg) returns (t: Pair)
    requires Leads(p, q) && Posting(q, side, ms + [m], BodyWrite(|m.body|)) && m.body != []
    requires Sender(q, side).writer.qOut == [m]
    requires Receiver(q, side).reader.op == BodyRead(m.body) && ReadSize(Receiver(q, side).reader) == |m.body|
    ensures Leads(p, t) && SameElse(q, t, side) && Quiet(t, side, ms + [m])
  {
    ReadDoneKeepsReceived(Receiver(q, side), true);
    t := Complete(p, q, side);
    assert Step(Sender(q, side), AWritten(true)).writer.wire == Sender(q, side).writer.wire;
  }

  /** Once posted a message can be transferred. */
  lemma PostedArrives(q: Pair, side: Side, ms: seq<Msg>, m: Msg) returns (t: Pair)
    requires JustPosted(q, side, ms, m)
    ensures Leads(q, t) && SameElse(q, t, side) && Quiet(t, side, ms + [m])
  {
    Stay(q);
    t := SendHeader(q, q, side, ms, m);
    if m.body != [] {
      t := SendBody(q, t, side, ms, m);
    }
  }

  /** A message is posted and transferred, and the other channel stays quiet. */
  lemma PostAndTransfer(p: Pair, side: Side, ms: seq<Msg>, rs: seq<Msg>, m: Msg) returns (q: Pair)
    requires Quiet(p, side, ms) && Quiet(p, Other(side), rs) && SizeMatches(m)
    ensures PairEnabled(p, side, APost(m)) && Leads(PairStep(p, side, APost(m)), q)
    ensures Quiet(q, side, ms + [m]) && Quiet(q, Other(side), rs)
  {
    PostIsPosted(p, side, ms, m);
    var posted := PairStep(p, side, APost(m));
    q := PostedArrives(posted, side, ms, m);
    OtherStaysQuiet(p, posted, side, rs);
    OtherStaysQuiet(posted, q, side, rs);
  }

  // ----- Runs -----

  lemma LeadsIsReached(words: Words, p: Pair, q: Pair)
    requires Reached(words, p) && Leads(p, q)
    ensures Reached(words, q)
  {
    var ps :| Path(ps, p, q);
    PathIsReached(words, ps, p, q, |ps| - 1);
  }

  lemma {:induction false} PathIsReached(words: Words, ps: seq<Pair>, p: Pair, q: Pair, n: nat)
    requires Reached(words, p) && Path(ps, p, q) && n < |ps|
    ensures Reached(words, ps[n])
  {
    if n > 0 {
      PathIsReached(words, ps, p, q, n - 1);
      assert MovesAt(ps, n - 1);
      var side, a :| PairEnabled(ps[n - 1], side, a) && ps[n] == PairStep(ps[n - 1], side, a);
      GoOn(words, ps[n - 1], side, a);
    }
  }

  lemma MeetingIsReached(words: Words, x: Word)
    requires Lawful(words)
    ensures Reached(words, Meeting(words, x))
  {
    var tr := [Meeting(words, x)];
    assert PairRun(tr, words) && LastPair(tr) == Meeting(words, x);
  }

  /** Any messages can be posted by the client, one after the other, and transferred. */
  lemma {:induction false} AllArrive(words: Words, x: Word, ms: seq<Msg>) returns (q: Pair)
    requires Lawful(words) && AllSizesMatch(ms)
    ensures Reached(words, q) && Quiet(q, AtClient, ms) && q.server.handshakeOut == x
  {
    if ms == [] {
      q := HandshakeDone(words, x);
      MeetingIsReached(words, x);
      LeadsIsReached(words, Meeting(words, x), q);
    } else {
      var front, m := ms[..|ms| - 1], ms[|ms| - 1];
      q := AllArrive(words, x, front);
      PostIsPosted(q, AtClient, front, m);
      GoOn(words, q, AtClient, APost(m));
      var posted := PairStep(q, AtClient, APost(m));
      q := PostedArrives(posted, AtClient, front, m);
      LeadsIsReached(words, posted, q);
      assert ms == front + [m];
    }
  }

  /** What the receiver at the end of a quiet channel has delivered. */
  lemma QuietHasDelivered(words: Words, p: Pair, side: Side, ms: seq<Msg>)
    requires Reached(words, p) && Quiet(p, side, ms)
    ensures DeliveredMsgs(Receiver(p, side)) == Sticky([], ms)
  {
    var tr :| PairRun(tr, words) && LastPair(tr) == p;
    var i := |tr| - 1;
    assert tr[i] == p;
    PairRunKeeps(tr, words, i);
    HonestAnswerIsRight(p, words);
    StreamIsPrefix(Sender(p, side), Receiver(p, side));
    DeframePrefix([], ms, Stream(Receiver(p, side).reader));
    QuietMeansDelivered(Sender(p, side), Receiver(p, side));
    assert ms[..|ms|] == ms;
  }

  /** For every challenge and every sequence of messages there is a run in which the client is validated, posts them and
      has them all delivered: with their headers, and empty ones with the latest non-empty body before them. */
  lemma EverythingCanBeDelivered(words: Words, x: Word, ms: seq<Msg>) returns (tr: seq<Pair>)
    requires Lawful(words) && AllSizesMatch(ms)
    ensures PairRun(tr, words) && LastPair(tr).server.handshakeOut == x
    ensures LastPair(tr).client.writer.posted == ms
    ensures LastPair(tr).server.reader.log == [Validated] + Deliveries(Sticky([], ms))
  {
    var q := AllArrive(words, x, ms);
    QuietHasDelivered(words, q, AtClient, ms);
    tr :| PairRun(tr, words) && LastPair(tr) == q;
    var i := |tr| - 1;
    assert tr[i] == q;
    DeliveryIsFaithful(tr, words, i);
  }

  /** Delivery of the posted message itself does fail: after any non-empty message any empty one is delivered with the
      body of the first. */
  lemma StaleBodyIsDelivered(words: Words, x: Word, m: Msg, e: Msg) returns (tr: seq<Pair>)
    requires Lawful(words) && SizeMatches(m) && m.body != [] && SizeMatches(e) && e.body == []
    ensures PairRun(tr, words) && LastPair(tr).client.writer.posted == [m, e]
    ensures LastPair(tr).server.reader.log == [Validated, Delivered(m), Delivered(Msg(e.header, m.body))]
    ensures Msg(e.header, m.body) != e
  {
    tr := EverythingCanBeDelivered(words, x, [m, e]);
    var stale := Msg(e.header, m.body);
    assert [m, e][1..] == [e] && [e][1..] == [];
    assert Sticky([], [m, e]) == [m, stale];
    assert [m, stale][..1] == [m];
    DeliveriesOne(m);
  }
}
