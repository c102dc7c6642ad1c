/** A network message: a header holding an id and the body's size, and a body used as a stack of plain values. */
module NetMessage {
  import opened Bytes

  /** The id is the 32-bit underlying value of the application's message enumeration. */
  datatype Header = Header(id: uint32, size: uint32)

  datatype Msg = Msg(header: Header, body: seq<byte>)

  const EMPTY := Msg(Header(0, 0), [])

  const HEADER_SIZE := 8

  predicate SizeMatches(m: Msg) {
    m.header.size == |m.body|
  }

  /** The header as it lies in memory and on the wire. */
  function HeaderBytes(h: Header): (s: seq<byte>)
    ensures |s| == HEADER_SIZE
  {
    WordBytes(h.id) + WordBytes(h.size)
  }

  function HeaderValue(s: seq<byte>): Header
    requires |s| == HEADER_SIZE
  {
    Header(WordValue(s[..4]), WordValue(s[4..]))
  }

  lemma HeaderRoundTrip(h: Header)
    ensures HeaderValue(HeaderBytes(h)) == h
  {
    assert HeaderBytes(h)[..4] == WordBytes(h.id);
    assert HeaderBytes(h)[4..] == WordBytes(h.size);
    WordRoundTrip(h.id);
    WordRoundTrip(h.size);
  }

  /** The header's layout: four octets of the id, then four of the size, low octets first. */
  lemma HeaderByteAt(h: Header, k: nat)
    requires k < 4
    ensures Power(256, k) > 0
    ensures HeaderBytes(h)[k] == h.id / Power(256, k) % 256
    ensures HeaderBytes(h)[4 + k] == h.size / Power(256, k) % 256
  {
    WordByteAt(h.id, k);
    WordByteAt(h.size, k);
  }

  /** Any eight bytes read as a header are that header's image. */
  lemma HeaderImageRoundTrip(s: seq<byte>)
    requires |s| == HEADER_SIZE
    ensures HeaderBytes(HeaderValue(s)) == s
  {
    WordImageRoundTrip(s[..4]);
    WordImageRoundTrip(s[4..]);
  }

  /** The size field after the body got this long: a 64-bit length cut to 32 bits. */
  function SizeField(length: nat): uint32 {
    length % TWO_TO_THE_32
  }

  /** The message with a value's memory image put on top of its body. */
  function Pushed(m: Msg, image: seq<byte>): Msg {
    Msg(Header(m.header.id, SizeField(|m.body| + |image|)), m.body + image)
  }

  /** The message without the top `width` bytes of its body. */
  function Popped(m: Msg, width: nat): Msg
    requires width <= |m.body|
  {
    Msg(Header(m.header.id, SizeField(|m.body| - width)), m.body[..|m.body| - width])
  }

  class Message {
    var id: uint32
    var size: uint32
    var body: seq<byte>

    ghost function View(): Msg
      reads this
    {
      Msg(Header(id, size), body)
    }

    constructor ()
      ensures View() == EMPTY
    {
      id, size, body := 0, 0, [];
    }

    /** `msg << data` for a value with this memory image. */
    method Push(image: seq<byte>)
      modifies this
      ensures View() == Pushed(old(View()), image)
      ensures body == old(body) + image && id == old(id) && size == |body| % 0x1_0000_0000
    {
      body := body + image;
      size := SizeField(|body|);
    }

    /** `msg >> data` for a value of this width; the source checks nothing, its callers must not underflow. */
    method Pop(width: nat) returns (image: seq<byte>)
      requires width <= |body|
      modifies this
      ensures View() == Popped(old(View()), width)
      ensures old(body) == body + image && |image| == width && id == old(id) && size == |body| % 0x1_0000_0000
    {
      var sizeLater := |body| - width;
      image := body[sizeLater..];
      body := body[..sizeLater];
      size := SizeField(|body|);
    }
  }

  // ----- Programs of pushes and pops -----

  datatype Op = PushOp(image: seq<byte>) | PopOp(width: nat)

  datatype Outcome<S> = Outcome(state: S, outputs: seq<seq<byte>>)

  /** Runs a program on a message; undefined when a pop underflows. */
  function Run(m: Msg, ops: seq<Op>): Option<Outcome<Msg>>
    decreases ops
  {
    if ops == [] then Some(Outcome(m, []))
    else
      match ops[0]
      case PushOp(image) => Run(Pushed(m, image), ops[1..])
      case PopOp(width) =>
        if width > |m.body| then None
        else
          match Run(Popped(m, width), ops[1..])
          case None => None
          case Some(o) => Some(Outcome(o.state, [m.body[|m.body| - width..]] + o.outputs))
  }

  /** The same program on a stack of whole values; undefined when a pop's type is not that of the value on top. */
  function TypedRun(stack: seq<seq<byte>>, ops: seq<Op>): Option<Outcome<seq<seq<byte>>>>
    decreases ops
  {
    if ops == [] then Some(Outcome(stack, []))
    else
      match ops[0]
      case PushOp(image) => TypedRun(stack + [image], ops[1..])
      case PopOp(width) =>
        if stack == [] || |stack[|stack| - 1]| != width then None
        else
          match TypedRun(stack[..|stack| - 1], ops[1..])
          case None => None
          case Some(o) => Some(Outcome(o.state, [stack[|stack| - 1]] + o.outputs))
  }

  function Flatten(stack: seq<seq<byte>>): seq<byte> {
    if stack == [] then [] else Flatten(stack[..|stack| - 1]) + stack[|stack| - 1]
  }

  lemma FlattenPush(stack: seq<seq<byte>>, top: seq<byte>)
    ensures Flatten(stack + [top]) == Flatten(stack) + top
  {
    assert (stack + [top])[..|stack|] == stack;
  }

  /** What ties a message to the stack of values pushed on top of an initial body. */
  predicate Represents(m: Msg, base: seq<byte>, stack: seq<seq<byte>>) {
    m.body == base + Flatten(stack) && m.header.size == SizeField(|m.body|)
  }

  lemma PushRepresents(m: Msg, base: seq<byte>, stack: seq<seq<byte>>, image: seq<byte>)
    requires Represents(m, base, stack)
    ensures Represents(Pushed(m, image), base, stack + [image])
  {
    FlattenPush(stack, image);
    Assoc(base, Flatten(stack), image);
  }

  lemma PopRepresents(m: Msg, base: seq<byte>, stack: seq<seq<byte>>)
    requires Represents(m, base, stack) && stack != []
    ensures
      var rest, top := stack[..|stack| - 1], stack[|stack| - 1];
      && |top| <= |m.body| && m.body[|m.body| - |top|..] == top && Represents(Popped(m, |top|), base, rest)
  {
    var rest, top := stack[..|stack| - 1], stack[|stack| - 1];
    Assoc(base, Flatten(rest), top);
    assert m.body == (base + Flatten(rest)) + top;
    assert m.body[..|m.body| - |top|] == base + Flatten(rest);
  }

  /** A well-typed program does on the byte body what it does on a stack of values, and keeps the size field right. */
  lemma {:induction false} TypedProgramsRefine(m: Msg, base: seq<byte>, stack: seq<seq<byte>>, ops: seq<Op>)
    requires Represents(m, base, stack) && TypedRun(stack, ops).Some?
    ensures
      var typed := TypedRun(stack, ops).value;
      match Run(m, ops)
      case None => false
      case Some(o) =>
        o.outputs == typed.outputs && o.state.header.id == m.header.id && Represents(o.state, base, typed.state)
    decreases ops
  {
    if ops != [] {
      match ops[0]
      case PushOp(image) =>
        PushRepresents(m, base, stack, image);
        TypedProgramsRefine(Pushed(m, image), base, stack + [image], ops[1..]);
      case PopOp(width) =>
        PopRepresents(m, base, stack);
        TypedProgramsRefine(Popped(m, width), base, stack[..|stack| - 1], ops[1..]);
    }
  }

  /** Below 2^32 bytes the size field is the body's length; from there on it is not. */
  lemma SizeFieldIsLength(m: Msg, base: seq<byte>, stack: seq<seq<byte>>)
    requires Represents(m, base, stack)
    ensures SizeMatches(m) <==> |m.body| < TWO_TO_THE_32
  {
  }

  // ----- Messages and where they came from -----

  /** A received message together with the connection it came from; a client's messages carry no connection. */
  datatype OwnedMessage = OwnedMessage(remote: Option<uint32>, msg: Msg)

  /** Messages that came from `remote`, in order. */
  function From(ms: seq<OwnedMessage>, remote: Option<uint32>): seq<Msg> {
    if ms == [] then []
    else From(ms[..|ms| - 1], remote) + if ms[|ms| - 1].remote == remote then [ms[|ms| - 1].msg] else []
  }

  lemma FromPush(ms: seq<OwnedMessage>, m: OwnedMessage, remote: Option<uint32>)
    ensures From(ms + [m], remote) == From(ms, remote) + if m.remote == remote then [m.msg] else []
  {
    assert (ms + [m])[..|ms|] == ms;
  }

  lemma {:induction false} FromAppend(a: seq<OwnedMessage>, b: seq<OwnedMessage>, remote: Option<uint32>)
    ensures From(a + b, remote) == From(a, remote) + From(b, remote)
  {
    if b == [] {
      assert a + b == a;
    } else {
      var front, last := b[..|b| - 1], b[|b| - 1];
      assert (a + b)[..|a + b| - 1] == a + front;
      FromAppend(a, front, remote);
      Assoc(From(a, remote), From(front, remote), if last.remote == remote then [last.msg] else []);
    }
  }
}
