/** An honest server and client connected by two byte channels: what is delivered is what was posted. */
module Delivery {
  import opened Bytes
  import opened NetMessage
  import opened Framing
  import opened ConnectionState
  import opened ConnectionLaws
  import opened ConnectionRuns

  /** Reading a handshake word back from its memory image gives the word. */
  ghost predicate Lawful(words: Words) {
    forall x :: |words.image(x)| == 8 && words.value(words.image(x)) == x
  }

  datatype Pair = Pair(server: Conn, client: Conn)

  datatype Side = AtServer | AtClient

  /** Every byte an end has put on its channel. */
  ghost function Wire(c: Conn): seq<byte>
    requires Lawful(c.words) && HelloSent(c) <= 8
  {
    c.words.image(c.handshakeOut)[..HelloSent(c)] + c.writer.wire
  }

  /** The bytes a receiver gets are the next ones its peer has put on the channel. */
  ghost predicate NextOnChannel(sender: Conn, receiver: Conn, bs: seq<byte>) {
    Lawful(sender.words) && HelloSent(sender) <= 8 && Received(receiver.reader) + bs <= Wire(sender)
  }

  ghost predicate PairEnabled(p: Pair, side: Side, a: Action) {
    if side == AtServer then Enabled(p.server, a) && (a.AReceive? ==> NextOnChannel(p.client, p.server, a.bs))
    else Enabled(p.client, a) && (a.AReceive? ==> NextOnChannel(p.server, p.client, a.bs))
  }

  ghost function PairStep(p: Pair, side: Side, a: Action): Pair
    requires PairEnabled(p, side, a)
  {
    if side == AtServer then p.(server := Step(p.server, a)) else p.(client := Step(p.client, a))
  }

  ghost predicate PairInitial(p: Pair, words: Words) {
    p.server == AcceptedConn(words, p.server.handshakeOut) && p.client == ConnectedConn(words)
  }

  ghost predicate PairNext(p: Pair, p': Pair) {
    exists side, a :: PairEnabled(p, side, a) && p' == PairStep(p, side, a)
  }

  ghost predicate PairNextAt(tr: seq<Pair>, i: nat)
    requires i + 1 < |tr|
  {
    PairNext(tr[i], tr[i + 1])
  }

  /** A run of the pair under any interleaving of posts, partial and complete writes and reads, failures and closes. */
  ghost predicate PairRun(tr: seq<Pair>, words: Words) {
    && tr != [] && Lawful(words) && PairInitial(tr[0], words)
    && forall i :: 0 <= i < |tr| - 1 ==> PairNextAt(tr, i)
  }

  function LastPair(tr: seq<Pair>): Pair
    requires |tr| > 0
  {
    tr[|tr| - 1]
  }

  /** A run goes on with any step that can happen. */
  lemma Go(tr: seq<Pair>, words: Words, side: Side, a: Action) returns (longer: seq<Pair>)
    requires PairRun(tr, words) && PairEnabled(LastPair(tr), side, a)
    ensures PairRun(longer, words) && LastPair(longer) == PairStep(LastPair(tr), side, a)
  {
    var p := PairStep(LastPair(tr), side, a);
    longer := tr + [p];
    forall i | 0 <= i < |longer| - 1
      ensures PairNextAt(longer, i)
    {
      if i < |tr| - 1 {
        assert PairNextAt(tr, i);
        assert longer[i] == tr[i] && longer[i + 1] == tr[i + 1];
      } else {
        assert longer[i] == LastPair(tr) && longer[i + 1] == p;
      }
    }
  }

  ghost predicate Reached(words: Words, p: Pair) {
    exists tr :: PairRun(tr, words) && LastPair(tr) == p
  }

  lemma GoOn(words: Words, p: Pair, side: Side, a: Action)
    requires Reached(words, p) && PairEnabled(p, side, a)
    ensures Reached(words, PairStep(p, side, a))
  {
    var tr :| PairRun(tr, words) && LastPair(tr) == p;
    var longer := Go(tr, words, side, a);
  }

  // ----- Channels -----

  /** What arrived at the receiver is a prefix of what its peer has sent. */
  ghost predicate ChannelInv(sender: Conn, receiver: Conn) {
    Lawful(sender.words) && HelloSent(sender) <= 8 && Received(receiver.reader) <= Wire(sender)
  }

  lemma PrefixOfPrefix(h: seq<byte>, n: nat, m: nat)
    requires n <= m <= |h|
    ensures h[..n] <= h[..m] && h[..n] + [] == h[..n]
  {
  }

  lemma WireGrowsWithWriter(c: Conn, w: Writer)
    requires Lawful(c.words) && HelloSent(c) <= 8 && c.writer.wire <= w.wire
    ensures Wire(c) <= Wire(c.(writer := w))
  {
  }

  lemma WireGrowsWithHello(c: Conn, c': Conn)
    requires Lawful(c.words) && c'.words == c.words && c'.handshakeOut == c.handshakeOut
    requires HelloSent(c) <= HelloSent(c') <= 8 && |c.writer.wire| == 0 && |c'.writer.wire| == 0
    ensures Wire(c) <= Wire(c')
  {
    var h := c.words.image(c.handshakeOut);
    PrefixOfPrefix(h, HelloSent(c), HelloSent(c'));
    PrefixOfPrefix(h, HelloSent(c'), HelloSent(c'));
  }

  lemma SameWire(c: Conn, c': Conn)
    requires Lawful(c.words) && HelloSent(c) <= 8
    requires c'.words == c.words && c'.writer == c.writer && HelloSent(c') == HelloSent(c)
    requires c'.handshakeOut == c.handshakeOut || HelloSent(c) == 0
    ensures Wire(c) <= Wire(c')
  {
    assert c.words.image(c.handshakeOut)[..0] == c.words.image(c'.handshakeOut)[..0];
  }

  lemma ReadDoneKeepsWire(c: Conn, ok: bool)
    requires Enabled(c, AReadDone(ok)) && Lawful(c.words) && HelloSent(c) <= 8
    requires c.owner.ClientSide? && c.reader.op.ChallengeRead? ==> c.validation.NotSent?
    ensures ReadDone(c, ok).words == c.words && HelloSent(ReadDone(c, ok)) <= 8 && Wire(c) <= Wire(ReadDone(c, ok))
  {
    if ok {
      match c.reader.op
      case ChallengeRead(_) => SameWire(c, ChallengeReceived(c));
      case HeaderRead(_) => SameWire(c, c.(reader := HeaderReceived(c.reader)));
      case BodyRead(_) => SameWire(c, c.(reader := BodyReceived(c.reader)));
    } else {
      SameWire(c, c.(reader := ReadOver(c.reader, []), open := false));
    }
  }

  lemma WrittenKeepsWire(c: Conn, ok: bool)
    requires Enabled(c, AWritten(ok)) && Lawful(c.words) && HelloSent(c) <= 8
    ensures Wire(c) <= Wire(Step(c, AWritten(ok)))
  {
    var w := c.(writer := Written(c.writer, ok));
    WireGrowsWithWriter(c, Written(c.writer, ok));
    SameWire(w, w.(open := c.open && ok));
  }

  lemma ValidationWrittenKeepsWire(c: Conn, ok: bool)
    requires StageInv(c) && Enabled(c, AValidationWritten(ok)) && Lawful(c.words)
    ensures HelloSent(ValidationWritten(c, ok)) <= 8 && Wire(c) <= Wire(ValidationWritten(c, ok))
  {
    WireGrowsWithHello(c, ValidationWritten(c, ok));
  }

  lemma HelloFits(c: Conn, a: Action)
    requires ConnInv(c) && Enabled(c, a)
    ensures HelloSent(Step(c, a)) <= 8
  {
    StepKeeps(c, a);
  }

  /** What goes out never comes back. */
  lemma WireGrows(c: Conn, a: Action)
    requires ConnInv(c) && Enabled(c, a) && Lawful(c.words)
    ensures Step(c, a).words == c.words && HelloSent(Step(c, a)) <= 8 && Wire(c) <= Wire(Step(c, a))
  {
    StepKeepsOwner(c, a);
    HelloFits(c, a);
    match a
    case APost(m) => WireGrowsWithWriter(c, Post(c.writer, m));
    case ATransmit(k) => WireGrowsWithWriter(c, Transmit(c.writer, k));
    case AWritten(ok) => WrittenKeepsWire(c, ok);
    case AValidationTransmit(k) => WireGrowsWithHello(c, ValidationTransmit(c, k));
    case AValidationWritten(ok) => ValidationWrittenKeepsWire(c, ok);
    case AReceive(bs) => SameWire(c, c.(reader := Receive(c.reader, bs)));
    case AReadDone(ok) => ReadDoneKeepsWire(c, ok);
    case AClose => SameWire(c, c.(open := false));
  }

  lemma NothingMore(p: seq<byte>, got: seq<byte>)
    ensures p + [] <= p + got && p + got + [] == p + got
  {
  }

  lemma ReadDoneKeepsReceived(c: Conn, ok: bool)
    requires Enabled(c, AReadDone(ok))
    ensures Received(ReadDone(c, ok).reader) <= Received(c.reader)
    ensures ok ==> Received(ReadDone(c, ok).reader) == Received(c.reader)
  {
    var p, got := c.reader.processed, c.reader.op.got;
    NothingMore(p, got);
    if ok {
      match c.reader.op
      case ChallengeRead(_) => assert Received(ChallengeReceived(c).reader) == p + got + [];
      case HeaderRead(_) => assert Received(HeaderReceived(c.reader)) == p + got + [];
      case BodyRead(_) => assert Received(BodyReceived(c.reader)) == p + got + [];
    } else {
      assert Received(ReadDone(c, false).reader) == p + [];
    }
  }

  /** No step but a reception changes what has been received, except that a failed read drops what it had. */
  lemma ReceivedShrinks(c: Conn, a: Action)
    requires ConnInv(c) && Enabled(c, a) && !a.AReceive?
    ensures Received(Step(c, a).reader) <= Received(c.reader)
  {
    if a.AReadDone? {
      ReadDoneKeepsReceived(c, a.ok);
    }
  }

  lemma ReceiveAppends(c: Conn, bs: seq<byte>)
    requires Enabled(c, AReceive(bs))
    ensures Received(Step(c, AReceive(bs)).reader) == Received(c.reader) + bs
  {
    assert Got(Receive(c.reader, bs)) == Got(c.reader) + bs;
    Assoc(c.reader.processed, Got(c.reader), bs);
  }

  // ----- The pair -----

  ghost predicate Sound(c: Conn, owner: Owner, words: Words) {
    ConnInv(c) && WordsInv(c) && c.owner == owner && c.words == words
  }

  ghost predicate PairInv(p: Pair, words: Words) {
    && Lawful(words) && Sound(p.server, ServerSide, words) && Sound(p.client, ClientSide, words)
    && ChannelInv(p.client, p.server) && ChannelInv(p.server, p.client)
  }

  lemma StepKeepsSound(c: Conn, a: Action, owner: Owner, words: Words)
    requires Sound(c, owner, words) && Enabled(c, a)
    ensures Sound(Step(c, a), owner, words)
  {
    StepKeeps(c, a);
    StepKeepsWords(c, a);
    StepKeepsOwner(c, a);
  }

  /** A step of one end keeps both channels between it and its peer. */
  lemma StepKeepsChannels(me: Conn, peer: Conn, a: Action)
    requires ConnInv(me) && Enabled(me, a) && (a.AReceive? ==> NextOnChannel(peer, me, a.bs))
    requires ChannelInv(me, peer) && ChannelInv(peer, me)
    ensures ChannelInv(Step(me, a), peer) && ChannelInv(peer, Step(me, a))
  {
    WireGrows(me, a);
    if a.AReceive? {
      ReceiveAppends(me, a.bs);
    } else {
      ReceivedShrinks(me, a);
    }
  }

  lemma PairStepKeeps(p: Pair, p': Pair, words: Words)
    requires PairInv(p, words) && PairNext(p, p')
    ensures PairInv(p', words)
  {
    var side, a :| PairEnabled(p, side, a) && p' == PairStep(p, side, a);
    if side == AtServer {
      StepKeepsSound(p.server, a, ServerSide, words);
      StepKeepsChannels(p.server, p.client, a);
    } else {
      StepKeepsSound(p.client, a, ClientSide, words);
      StepKeepsChannels(p.client, p.server, a);
    }
  }

  lemma PairInitialInv(p: Pair, words: Words)
    requires Lawful(words) && PairInitial(p, words)
    ensures PairInv(p, words)
  {
    InitialInv(p.server);
    InitialInv(p.client);
    assert words.image(p.server.handshakeOut)[..0] == words.image(NO_WORD)[..0] == [];
  }

  lemma PairRunStarts(tr: seq<Pair>, words: Words)
    requires PairRun(tr, words)
    ensures PairInv(tr[0], words)
  {
    PairInitialInv(tr[0], words);
  }

  lemma PairRunNext(tr: seq<Pair>, words: Words, j: nat, i: nat)
    requires PairRun(tr, words) && j + 1 == i < |tr|
    ensures PairNext(tr[j], tr[i])
  {
    assert tr[i] == tr[j + 1];
    assert PairNextAt(tr, j);
  }

  lemma {:induction false} PairRunKeeps(tr: seq<Pair>, words: Words, i: nat)
    requires PairRun(tr, words) && i < |tr|
    ensures PairInv(tr[i], words)
  {
    if i == 0 {
      PairRunStarts(tr, words);
    } else {
      var j := i - 1;
      PairRunKeeps(tr, words, j);
      PairRunNext(tr, words, j, i);
      PairStepKeeps(tr[j], tr[i], words);
    }
  }

  /** The messages a connection has delivered. */
  function DeliveredMsgs(c: Conn): seq<Msg> {
    if Accepted(c) then Deframe([], Stream(c.reader)) else []
  }

  predicate Accepted(c: Conn) {
    |c.reader.processed| > 0 && (Right(c) || c.owner.ClientSide?)
  }

  /** The log is the greeting and the delivered messages. */
  lemma LogIsDelivered(c: Conn)
    requires ConnInv(c)
    ensures c.reader.log == if Accepted(c) then Greeting(c.owner) + Deliveries(DeliveredMsgs(c)) else []
  {
  }

  /** The first eight bytes on a channel are the sender's handshake word; the rest are its messages' frames. */
  lemma ChannelParts(sender: Conn, receiver: Conn)
    requires ChannelInv(sender, receiver) && ConnInv(sender) && ConnInv(receiver)
    ensures
      var hello := sender.words.image(sender.handshakeOut);
      |receiver.reader.processed| >= 8 ==>
        receiver.reader.processed[..8] == hello && Received(receiver.reader)[8..] <= sender.writer.wire
  {
    var hello, got := sender.words.image(sender.handshakeOut), Received(receiver.reader);
    if |receiver.reader.processed| >= 8 {
      assert HelloSent(sender) == 8;
      assert hello[..8] == hello;
      assert Wire(sender)[..8] == hello && Wire(sender)[8..] == sender.writer.wire;
      assert got[..8] == receiver.reader.processed[..8];
    }
  }

  /** The server's challenge reaches the client and the client's answer the server: it is always the right one. */
  lemma HonestAnswerIsRight(p: Pair, words: Words)
    requires PairInv(p, words)
    ensures p.server.reader.processed != [] ==> Right(p.server)
    ensures p.client.reader.processed != [] ==> p.client.handshakeIn == p.server.handshakeOut
  {
    ChannelParts(p.client, p.server);
    ChannelParts(p.server, p.client);
    assert words.value(words.image(p.server.handshakeOut)) == p.server.handshakeOut;
    assert words.value(words.image(p.client.handshakeOut)) == p.client.handshakeOut;
  }

  lemma PrefixOfSum(a: seq<byte>, g: seq<byte>, w: seq<byte>, f: seq<byte>)
    requires a + g <= w <= f
    ensures a <= w && a <= f
  {
    assert w[..|a|] == (a + g)[..|a|] == a;
    assert f[..|a|] == w[..|a|];
  }

  lemma StreamIsPrefix(sender: Conn, receiver: Conn)
    requires ChannelInv(sender, receiver) && ConnInv(sender) && ConnInv(receiver)
    requires |receiver.reader.processed| >= 8
    ensures Stream(receiver.reader) + Got(receiver.reader) <= sender.writer.wire
    ensures Stream(receiver.reader) <= Frames(sender.writer.posted)
  {
    ChannelParts(sender, receiver);
    PrefixStays(receiver.reader.processed, Got(receiver.reader));
    WireIsPrefix(sender.writer);
    PrefixOfSum(Stream(receiver.reader), Got(receiver.reader), sender.writer.wire, Frames(sender.writer.posted));
  }

  lemma {:induction false} LatestBodyOfPrefix(last: seq<byte>, ms: seq<Msg>, d: nat, n: nat)
    requires n <= d <= |ms|
    ensures LatestBody(last, ms[..d], n) == LatestBody(last, ms, n)
  {
    if n > 0 && ms[n - 1].body == [] {
      LatestBodyOfPrefix(last, ms, d, n - 1);
    }
  }

  /** The delivered messages are the first posted ones, in order, with the same id and size; each carries the body of
      the latest non-empty message up to it. It is therefore the posted message itself exactly if that was not empty
      or nothing non-empty was posted before it. */
  predicate DeliveredInOrder(sender: Conn, receiver: Conn) {
    InOrder(DeliveredMsgs(receiver), sender.writer.posted)
  }

  predicate InOrder(d: seq<Msg>, posted: seq<Msg>) {
    && |d| <= |posted|
    && forall j :: 0 <= j < |d| ==>
         && d[j].header == posted[j].header && d[j].body == LatestBody([], posted, j + 1)
         && (d[j] == posted[j] <==> posted[j].body != [] || LatestNonEmpty(posted, j) == -1)
  }

  lemma DeframedInOrder(posted: seq<Msg>, s: seq<byte>)
    requires AllSizesMatch(posted) && s <= Frames(posted)
    ensures InOrder(Deframe([], s), posted)
  {
    DeframePrefix([], posted, s);
    StickyInOrder(posted, |Deframe([], s)|);
  }

  lemma StickyInOrder(posted: seq<Msg>, n: nat)
    requires n <= |posted|
    ensures InOrder(Sticky([], posted[..n]), posted)
  {
    var d := Sticky([], posted[..n]);
    forall j | 0 <= j < n
      ensures d[j] == Msg(posted[j].header, LatestBody([], posted, j + 1))
      ensures d[j] == posted[j] <==> posted[j].body != [] || LatestNonEmpty(posted, j) == -1
    {
      StickyAt([], posted[..n], j);
      LatestBodyOfPrefix([], posted, n, j + 1);
      OwnBodyExactly(posted, j);
    }
  }

  lemma OwnBodyExactly(posted: seq<Msg>, j: nat)
    requires j < |posted|
    ensures LatestBody([], posted, j + 1) == posted[j].body <==> posted[j].body != [] || LatestNonEmpty(posted, j) == -1
  {
  }

  lemma DeliveredArePosted(sender: Conn, receiver: Conn)
    requires ChannelInv(sender, receiver) && ConnInv(sender) && ConnInv(receiver)
    ensures DeliveredInOrder(sender, receiver)
  {
    if Accepted(receiver) {
      StreamIsPrefix(sender, receiver);
      DeframedInOrder(sender.writer.posted, Stream(receiver.reader));
    }
  }

  /** In every state of every run, with failures at any point, both ends have delivered a prefix of what the other
      posted, and an honest client is never turned away. */
  lemma DeliveryIsFaithful(tr: seq<Pair>, words: Words, i: nat)
    requires PairRun(tr, words) && i < |tr|
    ensures DeliveredInOrder(tr[i].client, tr[i].server) && DeliveredInOrder(tr[i].server, tr[i].client)
    ensures tr[i].server.reader.log ==
      if tr[i].server.reader.processed == [] then [] else [Validated] + Deliveries(DeliveredMsgs(tr[i].server))
    ensures tr[i].client.reader.log == Deliveries(DeliveredMsgs(tr[i].client))
  {
    PairRunKeeps(tr, words, i);
    var p := tr[i];
    DeliveredArePosted(p.client, p.server);
    DeliveredArePosted(p.server, p.client);
    HonestAnswerIsRight(p, words);
    LogIsDelivered(p.server);
    LogIsDelivered(p.client);
    assert Greeting(ServerSide) == [Validated] &&
      [] + Deliveries(DeliveredMsgs(p.client)) == Deliveries(DeliveredMsgs(p.client));
  }

  // ----- Nothing is lost on the way -----

  /** What the receiver holds of the message it is assembling. */
  function PartlyRead(r: Reader): seq<byte>
    requires r.op.HeaderRead? || r.op.BodyRead?
  {
    var s := Stream(r);
    (if r.op.BodyRead? && |s| >= 8 then s[|s| - 8..] else []) + r.op.got
  }

  ghost function InFlight(sender: Conn, receiver: Conn): seq<byte>
    requires ChannelInv(sender, receiver)
  {
    Wire(sender)[|Received(receiver.reader)|..]
  }

  lemma LastEight(s: seq<byte>, whole: seq<byte>)
    requires |s| >= 8 && s <= whole
    ensures s[..|s| - 8] + s[|s| - 8..] == s && s[..|s| - 8] <= whole
  {
  }

  /** A stream position splits into the frames already delivered and a pending header. */
  lemma StreamSplits(posted: seq<Msg>, op: ReadOp, tempIn: Msg, s: seq<byte>)
    requires AllSizesMatch(posted) && s <= Frames(posted) && ReadPosition(op, tempIn, s)
    requires op.HeaderRead? || op.BodyRead?
    ensures
      var d := |Deframe([], s)|;
      d <= |posted| && s == Frames(posted[..d]) + if op.BodyRead? then s[|s| - 8..] else []
  {
    if op.BodyRead? {
      LastEight(s, Frames(posted));
      HeaderPending(posted, s[..|s| - 8], s[|s| - 8..]);
    } else {
      DeframePrefix([], posted, s);
      assert Frames(posted[..|Deframe([], s)|]) + [] == s;
    }
  }

  lemma HeaderPending(posted: seq<Msg>, s: seq<byte>, h: seq<byte>)
    requires AllSizesMatch(posted) && s <= Frames(posted) && Whole(s)
    requires |h| == 8 && HeaderValue(h).size > 0
    ensures |Deframe([], s + h)| <= |posted| && Frames(posted[..|Deframe([], s + h)|]) == s
  {
    StreamHeader(s, h);
    DeframePrefix([], posted, s);
  }

  lemma Cancel(f: seq<byte>, h: seq<byte>, g: seq<byte>, flight: seq<byte>, rest: seq<byte>, wire: seq<byte>,
      tail: seq<byte>)
    requires wire == f + h + g + flight && f + tail == wire + rest
    ensures tail == h + g + flight + rest
  {
    assert wire + rest == f + (h + g + flight + rest);
    assert (f + tail)[|f|..] == tail && (f + (h + g + flight + rest))[|f|..] == h + g + flight + rest;
  }

  lemma Remaining(posted: seq<Msg>, s: seq<byte>, h: seq<byte>, g: seq<byte>, flight: seq<byte>, rest: seq<byte>,
      wire: seq<byte>)
    requires |Deframe([], s)| <= |posted| && s == Frames(posted[..|Deframe([], s)|]) + h
    requires wire == s + g + flight && Frames(posted) == wire + rest
    ensures Frames(posted[|Deframe([], s)|..]) == h + g + flight + rest
  {
    var d := |Deframe([], s)|;
    assert posted == posted[..d] + posted[d..];
    FramesAppend(posted[..d], posted[d..]);
    Cancel(Frames(posted[..d]), h, g, flight, rest, wire, Frames(posted[d..]));
  }

  lemma ChannelSplits(hello: seq<byte>, wire: seq<byte>, p: seq<byte>, g: seq<byte>)
    requires |hello| == 8 && |p| >= 8 && p + g <= hello + wire
    ensures wire == p[8..] + g + (hello + wire)[|p + g|..]
  {
    var all := hello + wire;
    assert all == (p + g) + all[|p + g|..];
    assert all[8..] == wire && ((p + g) + all[|p + g|..])[8..] == (p + g)[8..] + all[|p + g|..];
    assert (p + g)[8..] == p[8..] + g;
  }

  lemma WireSplits(sender: Conn, receiver: Conn)
    requires ChannelInv(sender, receiver) && |receiver.reader.processed| >= 8 &&
      (sender.writer.wire != [] ==> HelloSent(sender) == 8)
    ensures sender.writer.wire == Stream(receiver.reader) + Got(receiver.reader) + InFlight(sender, receiver)
  {
    var hello := sender.words.image(sender.handshakeOut)[..HelloSent(sender)];
    assert |hello| == 8;
    ChannelSplits(hello, sender.writer.wire, receiver.reader.processed, Got(receiver.reader));
  }

  /** While no write has failed and the receiver still reads, the bytes of the posted messages that are not yet
      delivered are exactly what is partly read, in flight, and still to be written. */
  lemma NothingIsLost(sender: Conn, receiver: Conn)
    requires ChannelInv(sender, receiver) && ConnInv(sender) && ConnInv(receiver)
    requires !sender.writer.failed && (receiver.reader.op.HeaderRead? || receiver.reader.op.BodyRead?)
    ensures
      var d := |DeliveredMsgs(receiver)|;
      && d <= |sender.writer.posted|
      && Frames(sender.writer.posted[d..])
      == PartlyRead(receiver.reader) + InFlight(sender, receiver) + Rest(sender.writer)
  {
    var r, w := receiver.reader, sender.writer;
    StreamIsPrefix(sender, receiver);
    StreamSplits(w.posted, r.op, r.tempIn, Stream(r));
    WireSplits(sender, receiver);
    var s := Stream(r);
    Remaining(w.posted, s, if r.op.BodyRead? then s[|s| - 8..] else [], r.op.got, InFlight(sender, receiver), Rest(w),
        w.wire);
  }

  lemma FramesOfNothing(ms: seq<Msg>)
    ensures Frames(ms) == [] <==> ms == []
  {
    if ms != [] {
      assert |Frames(ms)| >= |Frame(ms[0])| > 0;
    }
  }

  /** When nothing is queued or in flight and the receiver waits for a header, every posted message has been
      delivered. */
  lemma QuietMeansDelivered(sender: Conn, receiver: Conn)
    requires ChannelInv(sender, receiver) && ConnInv(sender) && ConnInv(receiver)
    requires !sender.writer.failed && sender.writer.qOut == []
    requires receiver.reader.op == HeaderRead([]) && InFlight(sender, receiver) == []
    ensures |DeliveredMsgs(receiver)| == |sender.writer.posted|
  {
    NothingIsLost(sender, receiver);
    FramesOfNothing(sender.writer.posted[|DeliveredMsgs(receiver)|..]);
  }

  /** The bytes of a sender's messages that its receiver has not taken in as part of a delivered message. */
  ghost function Undelivered(sender: Conn, receiver: Conn): seq<byte>
    requires ChannelInv(sender, receiver) && ConnInv(sender)
  {
    if receiver.reader.op.HeaderRead? || receiver.reader.op.BodyRead? then
      PartlyRead(receiver.reader) + InFlight(sender, receiver) + Rest(sender.writer)
    else sender.writer.wire + Rest(sender.writer)
  }

  /** An open connection that is not reading messages has delivered none. */
  lemma NotYetReading(c: Conn)
    requires ConnInv(c) && c.open && !c.reader.op.HeaderRead? && !c.reader.op.BodyRead?
    ensures DeliveredMsgs(c) == []
  {
    if |c.reader.processed| > 0 {
      assert Stream(c.reader) == [];
    }
  }

  lemma NothingIsLostWhileOpen(sender: Conn, receiver: Conn)
    requires ChannelInv(sender, receiver) && ConnInv(sender) && ConnInv(receiver)
    requires !sender.writer.failed && receiver.open
    ensures
      var d := |DeliveredMsgs(receiver)|;
      d <= |sender.writer.posted| && Frames(sender.writer.posted[d..]) == Undelivered(sender, receiver)
  {
    if receiver.reader.op.HeaderRead? || receiver.reader.op.BodyRead? {
      NothingIsLost(sender, receiver);
    } else {
      NotYetReading(receiver);
      assert sender.writer.posted[0..] == sender.writer.posted;
    }
  }

  /** Conservation, in every state of every run: as long as both sockets are open, each side's posted messages are,
      in order, those the other side has delivered and then, byte for byte, what it has partly read, what is in
      flight and what is still to be written. */
  lemma PostedIsConserved(tr: seq<Pair>, words: Words, i: nat)
    requires PairRun(tr, words) && i < |tr| && tr[i].server.open && tr[i].client.open
    ensures PairInv(tr[i], words)
    ensures
      var s, c := tr[i].server, tr[i].client;
      var toClient, toServer := |DeliveredMsgs(c)|, |DeliveredMsgs(s)|;
      && toClient <= |s.writer.posted| && Frames(s.writer.posted[toClient..]) == Undelivered(s, c)
      && toServer <= |c.writer.posted| && Frames(c.writer.posted[toServer..]) == Undelivered(c, s)
      && DeliveredInOrder(s, c) && DeliveredInOrder(c, s)
  {
    PairRunKeeps(tr, words, i);
    DeliveryIsFaithful(tr, words, i);
    NothingIsLostWhileOpen(tr[i].server, tr[i].client);
    NothingIsLostWhileOpen(tr[i].client, tr[i].server);
  }
}
