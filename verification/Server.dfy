/** The server's request handling: what it makes of a message, and the replies it builds. */
module Server {
  import opened Bytes
  import opened Messages
  import NetMessage
  import opened Wire
  import opened KeyRegistry

  // The application's message ids.
  const SECKEY_AGREE: uint32 := 0
  const SECKEY_VERIFY: uint32 := 1
  const SECKEY_LOGOUT: uint32 := 2
  const FAILED: uint32 := 3

  type Msg = NetMessage.Msg

  // ----- Strings in a message body, which is a stack -----

  lemma ReverseTwice<T>(s: seq<T>)
    ensures Reverse(Reverse(s)) == s
  {
  }

  /** Pops a message's body byte by byte. */
  method PopString(msg: NetMessage.Message) returns (netStr: seq<byte>)
    modifies msg
    ensures netStr == Reverse(old(msg.body)) && msg.body == []
  {
    var netMsgLen := |msg.body|;
    ghost var body := msg.body;
    netStr := [];
    var i := 0;
    while i != netMsgLen
      invariant 0 <= i <= netMsgLen == |body|
      invariant msg.body == body[..netMsgLen - i]
      invariant netStr == Reverse(body[netMsgLen - i..])
    {
      ghost var k := netMsgLen - i - 1;
      var c := msg.Pop(1);
      assert body[..k + 1] == body[..k] + [body[k]];
      assert c == [body[k]];
      assert body[k..][1..] == body[k + 1..];
      netStr := netStr + c;
      i := i + 1;
    }
    assert body[0..] == body;
  }

  /** Pushes a string's bytes, last one first. */
  method PushString(msg: NetMessage.Message, s: seq<byte>)
    requires msg.body == []
    modifies msg
    ensures msg.View() == if s == [] then old(msg.View()) else StringMsg(old(msg.id), s)
  {
    var i := |s| - 1;
    while i != -1
      invariant -1 <= i < |s|
      invariant msg.id == old(msg.id) && msg.body == Reverse(s[i + 1..])
      invariant msg.size == if i == |s| - 1 then old(msg.size) else NetMessage.SizeField(|msg.body|)
      decreases i
    {
      assert s[i..][1..] == s[i + 1..];
      msg.Push([s[i]]);
      i := i - 1;
    }
    assert s[0..] == s;
  }

  /** A message holding a string, its first byte on top. */
  function StringMsg(id: uint32, s: seq<byte>): Msg {
    NetMessage.Msg(NetMessage.Header(id, NetMessage.SizeField(|s|)), Reverse(s))
  }

  function AgreedMsg(info: RespondInfo): Msg {
    StringMsg(SECKEY_AGREE, EncodeRespond(info))
  }

  const FAILED_MSG: Msg := StringMsg(FAILED, [])

  /** The message that carries a reply. */
  function ReplyMsg(r: Reply): Msg {
    match r
    case Agreed(info) => AgreedMsg(info)
    case Refused => FAILED_MSG
  }

  // ----- One request alone -----

  datatype Outcome = Outcome(files: map<Path, seq<byte>>, reply: Reply)

  /** What a key agreement does when no other handler runs meanwhile. */
  function Agreement(c: Crypto, serverId: seq<byte>, files: map<Path, seq<byte>>, r: RequestInfo,
      aesKey: seq<byte>): Outcome {
    var p := KeyPath(r.clientId);
    if p in files then Outcome(files, Refused)
    else if !Verifies(c, r) then Outcome(files, Refused)
    else Outcome(files[p := r.data], Agreed(RespondInfo(r.clientId, serverId, c.encrypt(r.data, aesKey), SECKEY_ID)))
  }

  lemma CreatedAndRemoved<K, V>(m: map<K, V>, k: K, v: V, w: V)
    requires k !in m
    ensures m[k := v][k := w] - {k} == m
  {
  }

  function Alone(files: map<Path, seq<byte>>, r: RequestInfo, aesKey: seq<byte>, phase: Phase): Registry {
    Registry(Holding(files), [Handler(r, aesKey, phase)], [])
  }

  predicate Handled(c: Crypto, serverId: seq<byte>, start: Registry, o: Outcome) {
    |start.handlers| == 1 &&
    var end := Steps(c, serverId, start, [0, 0, 0, 0, 0, 0]);
    && end.dir.files == o.files && end.replies == [Addressed(0, o.reply)]
    && |end.handlers| == 1 && end.handlers[0].phase == Done(o.reply.Agreed?)
  }

  lemma FoundIsRefused(c: Crypto, serverId: seq<byte>, files: map<Path, seq<byte>>, r: RequestInfo, aesKey: seq<byte>)
    requires KeyPath(r.clientId) in files
    ensures Handled(c, serverId, Alone(files, r, aesKey, Arrived), Outcome(files, Refused))
  {
  }

  lemma NewIsAccepted(c: Crypto, serverId: seq<byte>, files: map<Path, seq<byte>>, r: RequestInfo, aesKey: seq<byte>)
    requires KeyPath(r.clientId) !in files && Verifies(c, r)
    ensures Handled(c, serverId, Alone(files, r, aesKey, Arrived), Agreement(c, serverId, files, r, aesKey))
  {
    var p := KeyPath(r.clientId);
    assert files[p := []][p := r.data] == files[p := r.data];
  }

  lemma NewIsRefused(c: Crypto, serverId: seq<byte>, files: map<Path, seq<byte>>, r: RequestInfo, aesKey: seq<byte>)
    requires KeyPath(r.clientId) !in files && !Verifies(c, r)
    ensures Handled(c, serverId, Alone(files, r, aesKey, Arrived), Outcome(files, Refused))
  {
    CreatedAndRemoved(files, KeyPath(r.clientId), [], r.data);
  }

  /** The handler steps of the registry, taken without interruption, are the sequential agreement. */
  lemma AgreementIsHandled(c: Crypto, serverId: seq<byte>, files: map<Path, seq<byte>>, r: RequestInfo,
      aesKey: seq<byte>)
    ensures Handled(c, serverId, Alone(files, r, aesKey, Arrived), Agreement(c, serverId, files, r, aesKey))
  {
    if KeyPath(r.clientId) in files {
      FoundIsRefused(c, serverId, files, r, aesKey);
    } else if Verifies(c, r) {
      NewIsAccepted(c, serverId, files, r, aesKey);
    } else {
      NewIsRefused(c, serverId, files, r, aesKey);
    }
  }

  // ----- The server object -----

  /** The peer of a request, as far as handlers use it: what was handed to `Send`. */
  class Client {
    var sent: seq<Msg>

    constructor ()
      ensures sent == []
    {
      sent := [];
    }

    method Send(msg: Msg)
      modifies this
      ensures sent == old(sent) + [msg]
    {
      sent := sent + [msg];
    }
  }

  class Server {
    const crypto: Crypto
    const serverId: seq<byte>
    var files: map<Path, seq<byte>>

    /** Lengths the generated code can count. */
    ghost predicate Bounded() {
      |serverId| < TWO_TO_THE_32 && forall key, text :: |crypto.encrypt(key, text)| < TWO_TO_THE_32
    }

    constructor (crypto: Crypto, serverId: seq<byte>, files: map<Path, seq<byte>>)
      ensures this.crypto == crypto && this.serverId == serverId && this.files == files
    {
      this.crypto, this.serverId, this.files := crypto, serverId, files;
    }

    /** The request in a message and the key file it is about. */
    method ParseMsgImpl(msg: NetMessage.Message) returns (info: RequestInfo, fileName: Path)
      modifies msg
      ensures DecodeRequest(Reverse(old(msg.body))).Ok? ==> DecodeRequest(Reverse(old(msg.body))) == Ok(info)
      ensures fileName == KeyPath(info.clientId) && |info.clientId| < TWO_TO_THE_31
      ensures msg.body == []
    {
      var netStr := PopString(msg);
      var requestMsg := new RequestMsg();
      requestMsg.InitForDecoding(netStr);
      info := requestMsg.DecodeMsg();
      fileName := DIRECTORY + info.clientId + SUFFIX;
    }

    /** Handles an agreement request; `request` is what the message was read as. */
    method SeckeyAgree(client: Client, msg: NetMessage.Message, aesKey: seq<byte>)
        returns (agreed: bool, ghost request: RequestInfo)
      requires Bounded()
      modifies this, client, msg
      ensures DecodeRequest(Reverse(old(msg.body))).Ok? ==> DecodeRequest(Reverse(old(msg.body))) == Ok(request)
      ensures
        var o := Agreement(crypto, serverId, old(files), request, aesKey);
        && files == o.files && agreed == o.reply.Agreed?
        && client.sent == old(client.sent) + if agreed then [ReplyMsg(o.reply)] else []
    {
      var info, fileName := ParseMsgImpl(msg);
      request := info;
      if fileName in files {
        return false, request;
      }
      files := files[fileName := []];
      files := files[fileName := Overlay(files[fileName], info.data)];
      var digest := crypto.hash(info.data);
      if !crypto.verify(files[fileName], digest, info.sign) {
        CreatedAndRemoved(old(files), fileName, [], info.data);
        files := files - {fileName};
        return false, request;
      }
      var aesSeckey := crypto.encrypt(files[fileName], aesKey);
      assert files == old(files)[fileName := info.data];
      SendRespond(client, RespondInfo(info.clientId, serverId, aesSeckey, SECKEY_ID));
      return true, request;
    }

    method EncodeInfo(info: RespondInfo) returns (respondStr: seq<byte>)
      requires |info.clientId| < TWO_TO_THE_32 && |info.serverId| < TWO_TO_THE_32 && |info.data| < TWO_TO_THE_32
      ensures respondStr == EncodeRespond(info)
    {
      var respondMsg := new RespondMsg();
      respondMsg.InitForEncoding(info);
      assert respondMsg.msg.View() == RespondProto(info);
      respondStr := respondMsg.EncodeMsg();
    }

    /** Encodes a reply, stacks its bytes into a message and sends it. */
    method SendRespond(client: Client, info: RespondInfo)
      requires |info.clientId| < TWO_TO_THE_32 && |info.serverId| < TWO_TO_THE_32 && |info.data| < TWO_TO_THE_32
      modifies client
      ensures client.sent == old(client.sent) + [AgreedMsg(info)]
    {
      var msgOut := new NetMessage.Message();
      msgOut.id := SECKEY_AGREE;
      var respondStr := EncodeInfo(info);
      PushString(msgOut, respondStr);
      var image := NetMessage.Msg(NetMessage.Header(msgOut.id, msgOut.size), msgOut.body);
      assert image == StringMsg(SECKEY_AGREE, respondStr) == AgreedMsg(info);
      client.Send(image);
    }

    method SeckeyVerify(msg: NetMessage.Message) returns (ok: bool)
      modifies msg
      ensures ok && msg.body == []
    {
      var _, _ := ParseMsgImpl(msg);
      return true;
    }

    method SeckeyLogout(msg: NetMessage.Message) returns (ok: bool)
      modifies msg
      ensures ok && msg.body == []
    {
      var _, _ := ParseMsgImpl(msg);
      return true;
    }

    /** Dispatches a message. An agreement request has exactly one reply; no other has any, nor touches a key. */
    method Work(client: Client, msg: NetMessage.Message, aesKey: seq<byte>) returns (ghost request: RequestInfo)
      requires Bounded()
      modifies this, client, msg
      ensures old(msg.id) == SECKEY_AGREE && DecodeRequest(Reverse(old(msg.body))).Ok? ==>
        DecodeRequest(Reverse(old(msg.body))) == Ok(request)
      ensures
        var o := Agreement(crypto, serverId, old(files), request, aesKey);
        if old(msg.id) == SECKEY_AGREE then files == o.files && client.sent == old(client.sent) + [ReplyMsg(o.reply)]
        else files == old(files) && client.sent == old(client.sent)
      ensures old(msg.id) >= FAILED ==> msg.body == old(msg.body)
    {
      request := RequestInfo([], [], [], []);
      if msg.id == SECKEY_AGREE {
        var agreed;
        agreed, request := SeckeyAgree(client, msg, aesKey);
        if !agreed {
          SendFailed(client);
        }
      } else if msg.id == SECKEY_VERIFY {
        // Never fails, so its failure reply is never sent; likewise for a logout.
        var _ := SeckeyVerify(msg);
      } else if msg.id == SECKEY_LOGOUT {
        var _ := SeckeyLogout(msg);
      }
    }

    method SendFailed(client: Client)
      modifies client
      ensures client.sent == old(client.sent) + [FAILED_MSG]
    {
      var failedMsg := new NetMessage.Message();
      failedMsg.id := FAILED;
      client.Send(NetMessage.Msg(NetMessage.Header(failedMsg.id, failedMsg.size), failedMsg.body));
    }
  }
}
