/** The application-level request and respond structures and their encoding as protobuf strings. */
module Messages {
  import opened Bytes
  import opened Wire
  import Codec
  import Q = RequestCodec
  import P = RespondCodec

  /** The largest serialisation the protobuf library produces; anything longer becomes the empty string. */
  const INT_MAX: int := TWO_TO_THE_31 - 1

  datatype RequestInfo = RequestInfo(clientId: seq<byte>, serverId: seq<byte>, data: seq<byte>, sign: seq<byte>)

  datatype RespondInfo = RespondInfo(clientId: seq<byte>, serverId: seq<byte>, data: seq<byte>, seckeyId: int)

  predicate IsInt32(x: int) {
    -TWO_TO_THE_31 <= x < TWO_TO_THE_31
  }

  function ToUint32(x: int): uint32 {
    x % TWO_TO_THE_32
  }

  function ToInt32(x: uint32): (r: int)
    ensures IsInt32(r)
  {
    if x < TWO_TO_THE_31 then x else x - TWO_TO_THE_32
  }

  lemma Int32Survives(x: int)
    requires IsInt32(x)
    ensures ToInt32(ToUint32(x)) == x
  {
  }

  function RequestProto(info: RequestInfo): Q.Request {
    Q.Request(info.clientId, info.serverId, info.sign, info.data, [])
  }

  function RequestOf(m: Q.Request): RequestInfo {
    RequestInfo(m.clientId, m.serverId, m.data, m.sign)
  }

  function RespondProto(info: RespondInfo): P.Respond {
    P.Respond(ToUint32(info.seckeyId), info.clientId, info.serverId, info.data, [])
  }

  function RespondOf(m: P.Respond): RespondInfo {
    RespondInfo(m.clientId, m.serverId, m.data, ToInt32(m.seckeyId))
  }

  function EncodeRequest(info: RequestInfo): seq<byte> {
    var s := Q.Serialize(RequestProto(info));
    if |s| > INT_MAX then [] else s
  }

  function DecodeRequest(s: seq<byte>): Parsed<RequestInfo> {
    match Q.ParseOnto(Q.DEFAULT, s)
    case Ok(m) => Ok(RequestOf(m))
    case Failed => Failed
    case NotModelled => NotModelled
  }

  function EncodeRespond(info: RespondInfo): seq<byte> {
    var s := P.Serialize(RespondProto(info));
    if |s| > INT_MAX then [] else s
  }

  function DecodeRespond(s: seq<byte>): Parsed<RespondInfo> {
    match P.ParseOnto(P.DEFAULT, s)
    case Ok(m) => Ok(RespondOf(m))
    case Failed => Failed
    case NotModelled => NotModelled
  }

  /** Decoding undoes encoding exactly when the serialisation fits; otherwise the empty string was sent. */
  lemma RequestRoundTrip(info: RequestInfo)
    ensures DecodeRequest(EncodeRequest(info)) == Ok(info) <==> |Q.Serialize(RequestProto(info))| <= INT_MAX
  {
    var m := RequestProto(info);
    Q.FieldsFit(m);
    if |Q.Serialize(m)| <= INT_MAX {
      Q.SerializeIsFields(m);
      Q.IsLawful();
      Codec.RoundTrip(Q.FORMAT, m);
    } else {
      Q.DefaultIsEmpty();
      assert info != RequestOf(Q.DEFAULT);
      assert DecodeRequest([]) == Ok(RequestOf(Q.DEFAULT));
    }
  }

  lemma RespondRoundTrip(info: RespondInfo)
    requires IsInt32(info.seckeyId)
    ensures DecodeRespond(EncodeRespond(info)) == Ok(info) <==> |P.Serialize(RespondProto(info))| <= INT_MAX
  {
    var m := RespondProto(info);
    P.FieldsFit(m);
    Int32Survives(info.seckeyId);
    if |P.Serialize(m)| <= INT_MAX {
      P.SerializeIsFields(m);
      P.IsLawful();
      Codec.RoundTrip(P.FORMAT, m);
    } else {
      P.DefaultIsEmpty();
      assert info != RespondOf(P.DEFAULT);
      assert DecodeRespond([]) == Ok(RespondOf(P.DEFAULT));
    }
  }

  /** Field by field: what is decoded are the last contents of fields 1 to 4, the signature being the third and the data
      the fourth. */
  predicate ReadsRequest(rs: seq<Record>, info: RequestInfo) {
    && info.clientId == Codec.LastContent(rs, 1, []) && info.serverId == Codec.LastContent(rs, 2, [])
    && info.sign == Codec.LastContent(rs, 3, []) && info.data == Codec.LastContent(rs, 4, [])
  }

  lemma RequestFields(s: seq<byte>)
    requires Records(s).Ok?
    ensures DecodeRequest(s).Ok? && ReadsRequest(Records(s).value, DecodeRequest(s).value)
  {
    Q.LastOneWins(Q.DEFAULT, Records(s).value);
  }

  /** And so it is written. */
  lemma RequestIsWritten(info: RequestInfo)
    requires |Q.Serialize(RequestProto(info))| <= INT_MAX
    ensures Records(EncodeRequest(info)).Ok? && ReadsRequest(Records(EncodeRequest(info)).value, info)
  {
    RequestRoundTrip(info);
    RequestFields(EncodeRequest(info));
  }

  /** Two integers with the same 32 bits. */
  predicate SameBits(a: int, b: int) {
    (a - b) % 0x1_0000_0000 == 0
  }

  predicate ReadsRespond(rs: seq<Record>, info: RespondInfo) {
    && SameBits(info.seckeyId, P.LastId(rs, 0)) && -0x8000_0000 <= info.seckeyId < 0x8000_0000
    && info.clientId == Codec.LastContent(rs, 2, []) && info.serverId == Codec.LastContent(rs, 3, [])
    && info.data == Codec.LastContent(rs, 4, [])
  }

  lemma RespondFields(s: seq<byte>)
    requires Records(s).Ok?
    ensures DecodeRespond(s).Ok? && ReadsRespond(Records(s).value, DecodeRespond(s).value)
  {
    P.LastOneWins(P.DEFAULT, Records(s).value);
  }

  lemma RespondIsWritten(info: RespondInfo)
    requires IsInt32(info.seckeyId) && |P.Serialize(RespondProto(info))| <= INT_MAX
    ensures Records(EncodeRespond(info)).Ok? && ReadsRespond(Records(EncodeRespond(info)).value, info)
  {
    RespondRoundTrip(info);
    RespondFields(EncodeRespond(info));
  }

  /** A reply with a non-zero key id never encodes to nothing, unless it is too long to encode. */
  lemma RespondNotEmpty(info: RespondInfo)
    requires 0 < info.seckeyId < TWO_TO_THE_31
    ensures P.Serialize(RespondProto(info)) != []
  {
    P.IdIsWritten(RespondProto(info));
  }

  /** The wrapper around a generated request message: initialise it for encoding or for decoding. */
  class RequestMsg {
    var encStr: seq<byte>
    const msg: Q.RequestMsg

    constructor ()
      ensures fresh(msg) && msg.View() == Q.DEFAULT && encStr == []
    {
      encStr := [];
      msg := new Q.RequestMsg();
    }

    method InitForDecoding(enc: seq<byte>)
      modifies this
      ensures encStr == enc
    {
      encStr := enc;
    }

    method InitForEncoding(info: RequestInfo)
      modifies msg
      ensures msg.View() == RequestProto(info).(unknown := old(msg.unknownFields))
      ensures msg.clientId == info.clientId && msg.serverId == info.serverId
      ensures msg.sign == info.sign && msg.data == info.data
    {
      msg.clientId := info.clientId;
      msg.serverId := info.serverId;
      msg.sign := info.sign;
      msg.data := info.data;
    }

    method EncodeMsg() returns (output: seq<byte>)
      requires Q.Sized(msg.View())
      ensures output == if |Q.Serialize(msg.View())| > INT_MAX then [] else Q.Serialize(msg.View())
    {
      var size := msg.ByteSizeLong();
      if size > INT_MAX {
        return [];
      }
      output := msg.InternalSerialize();
    }

    /** A parse failure is ignored by the source: the result then holds whatever was set before it. */
    method DecodeMsg() returns (info: RequestInfo)
      modifies msg
      ensures DecodeRequest(encStr).Ok? ==> DecodeRequest(encStr) == Ok(info)
      ensures RequestOf(msg.View()) == info && Q.Valid(msg.View())
      ensures Records(encStr).Ok? ==> ReadsRequest(Records(encStr).value, info)
    {
      if Records(encStr).Ok? {
        RequestFields(encStr);
      }
      msg.Clear();
      var _ := msg.InternalParse(encStr);
      info := RequestInfo(msg.clientId, msg.serverId, msg.data, msg.sign);
    }
  }

  /** The wrapper around a generated respond message. */
  class RespondMsg {
    var encStr: seq<byte>
    const msg: P.RespondMsg

    constructor ()
      ensures fresh(msg) && msg.View() == P.DEFAULT && encStr == []
    {
      encStr := [];
      msg := new P.RespondMsg();
    }

    method InitForDecoding(enc: seq<byte>)
      modifies this
      ensures encStr == enc
    {
      encStr := enc;
    }

    method InitForEncoding(info: RespondInfo)
      modifies msg
      ensures msg.View() == RespondProto(info).(unknown := old(msg.unknownFields))
      ensures SameBits(msg.seckeyId, info.seckeyId) && msg.clientId == info.clientId
      ensures msg.serverId == info.serverId && msg.data == info.data
    {
      msg.seckeyId := ToUint32(info.seckeyId);
      msg.clientId := info.clientId;
      msg.serverId := info.serverId;
      msg.data := info.data;
    }

    method EncodeMsg() returns (output: seq<byte>)
      requires P.Sized(msg.View())
      ensures output == if |P.Serialize(msg.View())| > INT_MAX then [] else P.Serialize(msg.View())
    {
      var size := msg.ByteSizeLong();
      if size > INT_MAX {
        return [];
      }
      output := msg.InternalSerialize();
    }

    method DecodeMsg() returns (info: RespondInfo)
      modifies msg
      ensures DecodeRespond(encStr).Ok? ==> DecodeRespond(encStr) == Ok(info)
      ensures RespondOf(msg.View()) == info
      ensures Records(encStr).Ok? ==> ReadsRespond(Records(encStr).value, info)
    {
      if Records(encStr).Ok? {
        RespondFields(encStr);
      }
      msg.Clear();
      var _ := msg.InternalParse(encStr);
      info := RespondInfo(msg.clientId, msg.serverId, msg.data, ToInt32(msg.seckeyId));
    }
  }
}
