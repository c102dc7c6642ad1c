/** Requests and replies across the whole stack: encoded, stacked into a message, framed, transferred in any
    chunks, reassembled, unstacked and decoded. */
module Reply {
  import opened Bytes
  import opened Wire
  import opened Messages
  import Q = RequestCodec
  import P = RespondCodec
  import opened Framing
  import opened ConnectionState
  import opened ConnectionRuns
  import opened Delivery
  import N = NetMessage
  import K = KeyRegistry
  import S = Server

  /** What a handler unstacks from a message. */
  function StringOf(m: N.Msg): seq<byte> {
    Reverse(m.body)
  }

  /** A string posted as the `j`-th message is unstacked again from the `j`-th delivered one; an empty string is only
      if no non-empty message was posted before it, for otherwise the body of that one is delivered with it. */
  lemma StringArrives(sender: Conn, receiver: Conn, j: nat, id: uint32, s: seq<byte>)
    requires DeliveredInOrder(sender, receiver) && j < |DeliveredMsgs(receiver)|
    requires sender.writer.posted[j] == S.StringMsg(id, s)
    ensures DeliveredMsgs(receiver)[j].header.id == id
    ensures StringOf(DeliveredMsgs(receiver)[j]) == s <==> s != [] || LatestNonEmpty(sender.writer.posted, j) == -1
  {
    var m, posted := DeliveredMsgs(receiver)[j], sender.writer.posted;
    if s == [] {
      assert m.body == LatestBody([], posted, j + 1) == LatestBody([], posted, j);
      assert |StringOf(m)| == |m.body|;
    } else {
      assert m == posted[j];
      S.ReverseTwice(s);
    }
  }

  /** A refusal on the wire is a header with the id 3 alone. */
  lemma RefusalOnTheWire()
    ensures Frame(S.ReplyMsg(K.Refused)) == [3, 0, 0, 0, 0, 0, 0, 0]
  {
    ReplyFits(K.Refused);
    SmallHeader(S.ReplyMsg(K.Refused));
  }

  /** An agreement on the wire has the id 0 and its encoding, last octet first. */
  lemma AgreementOnTheWire(info: RespondInfo)
    ensures Frame(S.ReplyMsg(K.Agreed(info)))[..4] == [0, 0, 0, 0]
    ensures Frame(S.ReplyMsg(K.Agreed(info)))[8..] == Reverse(EncodeRespond(info))
  {
    ReplyFits(K.Agreed(info));
    SmallHeader(S.ReplyMsg(K.Agreed(info)));
  }

  lemma ReplyFits(r: K.Reply)
    ensures N.SizeMatches(S.ReplyMsg(r))
  {
  }

  predicate Encodable(info: RespondInfo) {
    IsInt32(info.seckeyId) && |P.Serialize(RespondProto(info))| <= INT_MAX
  }

  /** In every state of every run of a server and a client, with any chunking, interleaving and failures: a reply the
      server posted as its `j`-th message, if delivered, is decoded by the client as the very same structure. */
  lemma ReplyArrives(tr: seq<Pair>, words: Words, i: nat, j: nat, info: RespondInfo)
    requires PairRun(tr, words) && i < |tr|
    requires Encodable(info) && info.seckeyId > 0
    requires j < |DeliveredMsgs(tr[i].client)| && j < |tr[i].server.writer.posted|
    requires tr[i].server.writer.posted[j] == S.AgreedMsg(info)
    ensures DeliveredMsgs(tr[i].client)[j] == S.AgreedMsg(info)
    ensures DecodeRespond(StringOf(DeliveredMsgs(tr[i].client)[j])) == Ok(info)
  {
    DeliveryIsFaithful(tr, words, i);
    RespondNotEmpty(info);
    RespondRoundTrip(info);
    StringArrives(tr[i].server, tr[i].client, j, S.SECKEY_AGREE, EncodeRespond(info));
    assert EncodeRespond(info) != [] && |S.AgreedMsg(info).body| > 0;
  }

  /** The agreement reply for a request always qualifies: its key id is positive, and its size is the only limit. */
  lemma AgreementReplyArrives(
      tr: seq<Pair>, words: Words, i: nat, j: nat,
      c: K.Crypto, serverId: seq<byte>, files: map<K.Path, seq<byte>>, r: RequestInfo, aesKey: seq<byte>)
    requires PairRun(tr, words) && i < |tr|
    requires j < |DeliveredMsgs(tr[i].client)| && j < |tr[i].server.writer.posted|
    requires tr[i].server.writer.posted[j] == S.ReplyMsg(S.Agreement(c, serverId, files, r, aesKey).reply)
    ensures
      var o, m := S.Agreement(c, serverId, files, r, aesKey), DeliveredMsgs(tr[i].client)[j];
      match o.reply
      case Refused => m.header.id == S.FAILED
      case Agreed(info) =>
        && m.header.id == S.SECKEY_AGREE
        && (Encodable(info) ==> DecodeRespond(StringOf(m)) == Ok(info))
        && info == RespondInfo(r.clientId, serverId, c.encrypt(r.data, aesKey), K.SECKEY_ID)
  {
    DeliveryIsFaithful(tr, words, i);
    var o := S.Agreement(c, serverId, files, r, aesKey);
    match o.reply
    case Refused => StringArrives(tr[i].server, tr[i].client, j, S.FAILED, []);
    case Agreed(info) =>
      StringArrives(tr[i].server, tr[i].client, j, S.SECKEY_AGREE, EncodeRespond(info));
      if Encodable(info) {
        ReplyArrives(tr, words, i, j, info);
      }
  }

  /** A request the client posted as its `j`-th message is what the server decodes, with one exception: a request with
      every field empty has an empty body, and is read as the latest non-empty message before it, if there is one
      that is not itself empty as a request. */
  lemma RequestArrives(tr: seq<Pair>, words: Words, i: nat, j: nat, id: uint32, info: RequestInfo)
    requires PairRun(tr, words) && i < |tr|
    requires |Q.Serialize(RequestProto(info))| <= INT_MAX
    requires j < |DeliveredMsgs(tr[i].server)| && j < |tr[i].client.writer.posted|
    requires tr[i].client.writer.posted[j] == S.StringMsg(id, EncodeRequest(info))
    ensures DeliveredMsgs(tr[i].server)[j].header.id == id
    ensures
      var posted := tr[i].client.writer.posted;
      StringOf(DeliveredMsgs(tr[i].server)[j]) == EncodeRequest(info) <==>
        info != RequestInfo([], [], [], []) || LatestNonEmpty(posted, j) == -1
    ensures info != RequestInfo([], [], [], []) ==> DecodeRequest(StringOf(DeliveredMsgs(tr[i].server)[j])) == Ok(info)
  {
    DeliveryIsFaithful(tr, words, i);
    RequestRoundTrip(info);
    EmptyRequest(info);
    StringArrives(tr[i].client, tr[i].server, j, id, EncodeRequest(info));
  }

  lemma EmptyRequest(info: RequestInfo)
    requires |Q.Serialize(RequestProto(info))| <= INT_MAX
    ensures EncodeRequest(info) == [] <==> info == RequestInfo([], [], [], [])
  {
    Q.DefaultIsEmpty();
    Q.FieldsFit(RequestProto(info));
    assert RequestProto(RequestInfo([], [], [], [])) == Q.DEFAULT;
  }

  /** One exchange, with an agreement that nothing interrupts. The client posts a request as its `j`-th message; the
      server answers what it decodes from the `j`-th message delivered to it; its reply is the `q`-th message delivered
      to the client. Then the client reads a refusal, or the secret for the key and client id that it sent itself. */
  lemma ExchangeIsFaithful(
      tr: seq<Pair>, words: Words, i: nat, j: nat, q: nat,
      c: K.Crypto, serverId: seq<byte>, files: map<K.Path, seq<byte>>, r: RequestInfo, aesKey: seq<byte>)
    requires PairRun(tr, words) && i < |tr|
    requires r != RequestInfo([], [], [], []) && |Q.Serialize(RequestProto(r))| <= INT_MAX
    requires j < |DeliveredMsgs(tr[i].server)| && j < |tr[i].client.writer.posted|
    requires tr[i].client.writer.posted[j] == S.StringMsg(S.SECKEY_AGREE, EncodeRequest(r))
    requires q < |DeliveredMsgs(tr[i].client)| && q < |tr[i].server.writer.posted|
    requires
      var got := DecodeRequest(StringOf(DeliveredMsgs(tr[i].server)[j]));
      got.Ok? ==> tr[i].server.writer.posted[q] == S.ReplyMsg(S.Agreement(c, serverId, files, got.value, aesKey).reply)
    ensures DeliveredMsgs(tr[i].server)[j].header.id == S.SECKEY_AGREE
    ensures
      var m, secret := DeliveredMsgs(tr[i].client)[q], c.encrypt(r.data, aesKey);
      var info := RespondInfo(r.clientId, serverId, secret, K.SECKEY_ID);
      if K.KeyPath(r.clientId) in files || !K.Verifies(c, r) then m.header.id == S.FAILED
      else m.header.id == S.SECKEY_AGREE && (Encodable(info) ==> DecodeRespond(StringOf(m)) == Ok(info))
  {
    RequestArrives(tr, words, i, j, S.SECKEY_AGREE, r);
    AgreementReplyArrives(tr, words, i, q, c, serverId, files, r, aesKey);
  }
}
