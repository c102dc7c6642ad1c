/** The connection model with the source's own handshake words. */
module ChallengeWords {
  import opened Bytes
  import NetMessage
  import opened Framing
  import opened Handshake
  import opened ConnectionState
  import opened ConnectionLaws
  import opened ConnectionRuns
  import opened Delivery

  function WordOf(s: seq<byte>): Word {
    if |s| == 8 then Word(ChallengeValue(s)) else NO_WORD
  }

  function Image(w: Word): seq<byte> {
    ChallengeBytes(w.bits)
  }

  function Scrambled(w: Word): Word {
    Word(Scramble(w.bits))
  }

  const WORDS := Words(WordOf, Image, Scrambled)

  /** The real words satisfy what delivery asks of them. */
  lemma RealWordsAreLawful()
    ensures Lawful(WORDS)
  {
    forall x
      ensures |WORDS.image(x)| == 8 && WORDS.value(WORDS.image(x)) == x
    {
      ChallengeRoundTrip(x.bits);
    }
  }

  /** Whether two challenges have the same answer: their low 56 bits are those of one another. */
  predicate SameAnswer(x: Word, y: Word) {
    SameLow56Bits(x.bits, y.bits)
  }

  /** Of all 8-byte answers exactly one is right. */
  lemma RightAnswer(challenge: Word, s: seq<byte>)
    requires |s| == 8
    ensures WORDS.value(s) == WORDS.scramble(challenge) <==> s == ChallengeBytes(Scramble(challenge.bits))
  {
    ImageRoundTrip(s);
    AnswerIsRead(challenge);
  }

  /** An answer computed from `answered` passes the test for `challenge` exactly when the two share their low 56
      bits. */
  lemma AnswerAccepted(challenge: Word, answered: Word)
    ensures WORDS.value(Image(Scrambled(answered))) == WORDS.scramble(challenge) <==> SameAnswer(answered, challenge)
  {
    AnswerIsRead(answered);
    SameAnswerExactly(answered, challenge);
  }

  lemma AnswerIsRead(w: Word)
    ensures WORDS.value(Image(Scrambled(w))) == Scrambled(w)
  {
    ChallengeRoundTrip(Scrambled(w).bits);
  }

  lemma SameAnswerExactly(x: Word, y: Word)
    ensures Scrambled(x) == Scrambled(y) <==> SameAnswer(x, y)
  {
    ScrambleCollides(x.bits, y.bits);
  }

  lemma {:induction false} DeliveriesOnly(ms: seq<NetMessage.Msg>)
    ensures forall k :: 0 <= k < |Deliveries(ms)| ==> Deliveries(ms)[k].Delivered?
  {
    if ms != [] {
      DeliveriesOnly(ms[..|ms| - 1]);
    }
  }

  /** In every state of every run of a server-side connection, whatever its peer sends: nothing has been reported
      unless the first eight bytes are the scrambled challenge; then there is one validation and after it the
      messages of the remaining stream. */
  lemma GateOnBytes(tr: seq<Conn>, i: nat)
    requires Run(tr) && i < |tr| && tr[0].owner.ServerSide? && tr[0].words == WORDS
    ensures
      var r, right := tr[i].reader, ChallengeBytes(Scramble(tr[0].handshakeOut.bits));
      && (r.log != [] <==> right <= r.processed)
      && (r.log != [] ==> r.log[0] == Validated && forall k :: 1 <= k < |r.log| ==> r.log[k].Delivered?)
  {
    HandshakeGate(tr, i);
    var r, right := tr[i].reader, Image(Scrambled(tr[0].handshakeOut));
    if r.log != [] {
      DeliveriesOnly(Deframe([], r.processed[8..]));
    }
    if |r.processed| >= 8 {
      RightAnswer(tr[0].handshakeOut, r.processed[..8]);
      assert right <= r.processed <==> right == r.processed[..8];
    }
  }

  /** A peer that answers with the scrambled word `answered` is let in exactly when that word shares the low 56 bits
      of the challenge; if not, nothing is ever reported. */
  lemma AnswerDecides(tr: seq<Conn>, i: nat, j: nat, answered: Word)
    requires Run(tr) && i <= j < |tr| && tr[0].owner.ServerSide? && tr[0].words == WORDS
    requires ChallengeBytes(Scramble(answered.bits)) <= tr[i].reader.processed
    ensures tr[j].reader.log != [] <==> SameAnswer(answered, tr[0].handshakeOut)
  {
    var challenge, sent := tr[0].handshakeOut, Image(Scrambled(answered));
    assert tr[i].reader.processed[..8] == sent;
    AnswerAccepted(challenge, answered);
    if SameAnswer(answered, challenge) {
      ProcessedGrows(tr, i, j);
      assert tr[j].reader.processed[..8] == sent;
      HandshakeGate(tr, j);
    } else {
      WrongAnswerSilences(tr, i, j);
    }
  }

  lemma ReadDoneProcesses(c: Conn)
    requires Enabled(c, AReadDone(true))
    ensures ReadDone(c, true).reader.processed == c.reader.processed + c.reader.op.got
  {
    match c.reader.op
    case ChallengeRead(got) => assert ChallengeReceived(c).reader.processed == c.reader.processed + got;
    case HeaderRead(got) => assert HeaderReceived(c.reader).processed == c.reader.processed + got;
    case BodyRead(got) => assert BodyReceived(c.reader).processed == c.reader.processed + got;
  }

  lemma ProcessedNext(c: Conn, c': Conn)
    requires Next(c, c')
    ensures c'.reader.processed == c.reader.processed || c'.reader.processed == c.reader.processed + Got(c.reader)
  {
    var a :| Enabled(c, a) && c' == Step(c, a);
    if a == AReadDone(true) {
      ReadDoneProcesses(c);
    } else {
      OthersProcessNothing(c, a);
    }
  }

  lemma {:induction false} ProcessedGrows(tr: seq<Conn>, i: nat, j: nat)
    requires Run(tr) && i <= j < |tr|
    ensures tr[i].reader.processed <= tr[j].reader.processed
  {
    if i < j {
      ProcessedGrows(tr, i, j - 1);
      assert NextAt(tr, j - 1);
      ProcessedNext(tr[j - 1], tr[j]);
    }
  }
}
