/** What a byte stream of framed messages means, independently of how a connection reads it. */
module Framing {
  import opened Bytes
  import opened NetMessage

  function Frame(m: Msg): (s: seq<byte>)
    ensures |s| == HEADER_SIZE + |m.body|
  {
    HeaderBytes(m.header) + m.body
  }

  function Frames(ms: seq<Msg>): seq<byte> {
    if ms == [] then [] else Frame(ms[0]) + Frames(ms[1..])
  }

  /** A frame on the wire: four octets of the id and four of the body's length, low octets first, and the body. */
  lemma FrameAt(m: Msg, k: nat)
    requires SizeMatches(m) && k < 4
    ensures Power(256, k) > 0 && Frame(m)[k] == m.header.id / Power(256, k) % 256
    ensures Frame(m)[4 + k] == |m.body| / Power(256, k) % 256 && Frame(m)[8..] == m.body
  {
    HeaderByteAt(m.header, k);
  }

  lemma SmallHeader(m: Msg)
    requires SizeMatches(m) && m.header.id < 256
    ensures Frame(m)[..4] == [m.header.id as byte, 0, 0, 0] && Frame(m)[8..] == m.body
    ensures m.body == [] ==> Frame(m) == [m.header.id as byte, 0, 0, 0, 0, 0, 0, 0]
  {
  }

  predicate AllSizesMatch(ms: seq<Msg>) {
    forall i :: 0 <= i < |ms| ==> SizeMatches(ms[i])
  }

  /** Length of the frame at the head of the stream, when its header is there. */
  function FrameLength(s: seq<byte>): (n: nat)
    requires |s| >= HEADER_SIZE
    ensures n >= HEADER_SIZE
  {
    HEADER_SIZE + HeaderValue(s[..HEADER_SIZE]).size
  }

  predicate HasFrame(s: seq<byte>) {
    |s| >= HEADER_SIZE && |s| >= FrameLength(s)
  }

  /** The body delivered with the first frame: an empty frame repeats the body before it. */
  function FirstBody(last: seq<byte>, s: seq<byte>): seq<byte>
    requires HasFrame(s)
  {
    if FrameLength(s) == HEADER_SIZE then last else s[HEADER_SIZE..FrameLength(s)]
  }

  function FirstMsg(last: seq<byte>, s: seq<byte>): Msg
    requires HasFrame(s)
  {
    Msg(HeaderValue(s[..HEADER_SIZE]), FirstBody(last, s))
  }

  /** The messages of a stream, given the body of the message before it. */
  function Deframe(last: seq<byte>, s: seq<byte>): seq<Msg>
    decreases |s|
  {
    if !HasFrame(s) then []
    else [FirstMsg(last, s)] + Deframe(FirstBody(last, s), s[FrameLength(s)..])
  }

  /** The stream ends where a frame ends. */
  predicate Whole(s: seq<byte>)
    decreases |s|
  {
    s == [] || (HasFrame(s) && Whole(s[FrameLength(s)..]))
  }

  function FinalBody(last: seq<byte>, s: seq<byte>): seq<byte>
    decreases |s|
  {
    if !HasFrame(s) then last else FinalBody(FirstBody(last, s), s[FrameLength(s)..])
  }

  lemma HasFrameExtends(last: seq<byte>, s: seq<byte>, t: seq<byte>)
    requires HasFrame(s)
    ensures HasFrame(s + t) && FrameLength(s + t) == FrameLength(s)
    ensures FirstMsg(last, s + t) == FirstMsg(last, s)
    ensures (s + t)[FrameLength(s)..] == s[FrameLength(s)..] + t
  {
    assert (s + t)[..HEADER_SIZE] == s[..HEADER_SIZE];
    assert (s + t)[HEADER_SIZE..FrameLength(s)] == s[HEADER_SIZE..FrameLength(s)];
  }

  lemma {:induction false} DeframeAppend(last: seq<byte>, s: seq<byte>, t: seq<byte>)
    requires Whole(s)
    ensures Deframe(last, s + t) == Deframe(last, s) + Deframe(FinalBody(last, s), t)
    ensures FinalBody(last, s + t) == FinalBody(FinalBody(last, s), t)
    ensures Whole(s + t) == Whole(t)
    decreases |s|
  {
    if s == [] {
      assert s + t == t;
    } else {
      HasFrameExtends(last, s, t);
      var rest := s[FrameLength(s)..];
      DeframeAppend(FirstBody(last, s), rest, t);
      Assoc([FirstMsg(last, s)], Deframe(FirstBody(last, s), rest), Deframe(FinalBody(last, s), t));
    }
  }

  lemma {:induction false} DeframeMonotone(last: seq<byte>, s: seq<byte>, t: seq<byte>)
    ensures Deframe(last, s) <= Deframe(last, s + t)
    decreases |s|
  {
    if HasFrame(s) {
      HasFrameExtends(last, s, t);
      DeframeMonotone(FirstBody(last, s), s[FrameLength(s)..], t);
    }
  }

  /** One whole frame is one message. */
  lemma DeframeOne(last: seq<byte>, s: seq<byte>)
    requires HasFrame(s) && |s| == FrameLength(s)
    ensures Deframe(last, s) == [FirstMsg(last, s)] && FinalBody(last, s) == FirstBody(last, s) && Whole(s)
  {
    assert s[FrameLength(s)..] == [];
    assert Deframe(FirstBody(last, s), []) == [];
  }

  lemma HeaderAlone(h: seq<byte>, b: seq<byte>)
    requires |h| == HEADER_SIZE
    ensures |h + b| >= HEADER_SIZE && FrameLength(h + b) == HEADER_SIZE + HeaderValue(h).size
    ensures (h + b)[..HEADER_SIZE] == h && (h + b)[HEADER_SIZE..] == b
  {
  }

  /** A header announcing no body completes a message that repeats the last body. */
  lemma StreamEmptyFrame(s: seq<byte>, h: seq<byte>)
    requires Whole(s) && |h| == HEADER_SIZE && HeaderValue(h).size == 0
    ensures Deframe([], s + h) == Deframe([], s) + [Msg(HeaderValue(h), FinalBody([], s))]
    ensures Whole(s + h) && FinalBody([], s + h) == FinalBody([], s)
  {
    DeframeAppend([], s, h);
    assert h[..HEADER_SIZE] == h;
    DeframeOne(FinalBody([], s), h);
  }

  /** A header announcing a body completes no message. */
  lemma StreamHeader(s: seq<byte>, h: seq<byte>)
    requires Whole(s) && |h| == HEADER_SIZE && HeaderValue(h).size > 0
    ensures Deframe([], s + h) == Deframe([], s)
  {
    DeframeAppend([], s, h);
    assert h[..HEADER_SIZE] == h;
    assert Deframe([], s) + [] == Deframe([], s);
  }

  lemma StreamFrame(s: seq<byte>, h: seq<byte>, b: seq<byte>)
    requires Whole(s) && |h| == HEADER_SIZE && HeaderValue(h).size == |b| > 0
    ensures Deframe([], s + h + b) == Deframe([], s) + [Msg(HeaderValue(h), b)]
    ensures Whole(s + h + b) && FinalBody([], s + h + b) == b
  {
    Assoc(s, h, b);
    DeframeAppend([], s, h + b);
    HeaderAlone(h, b);
    assert (h + b)[HEADER_SIZE..HEADER_SIZE + |b|] == b;
    DeframeOne(FinalBody([], s), h + b);
  }

  // ----- What a receiver makes of messages that were sent -----

  function StickyBody(last: seq<byte>, m: Msg): seq<byte> {
    if m.body == [] then last else m.body
  }

  /** Headers as sent; a message sent with an empty body carries the latest non-empty body before it. */
  function Sticky(last: seq<byte>, ms: seq<Msg>): (r: seq<Msg>)
    ensures |r| == |ms|
    decreases ms
  {
    if ms == [] then []
    else [Msg(ms[0].header, StickyBody(last, ms[0]))] + Sticky(StickyBody(last, ms[0]), ms[1..])
  }

  /** Index of the latest non-empty message among the first `n`, or -1. */
  function LatestNonEmpty(ms: seq<Msg>, n: nat): (j: int)
    requires n <= |ms|
    ensures -1 <= j < n
    ensures j >= 0 ==> ms[j].body != []
    ensures forall k :: j < k < n ==> ms[k].body == []
  {
    if n == 0 then -1 else if ms[n - 1].body != [] then n - 1 else LatestNonEmpty(ms, n - 1)
  }

  function LatestBody(last: seq<byte>, ms: seq<Msg>, n: nat): seq<byte>
    requires n <= |ms|
  {
    var j := LatestNonEmpty(ms, n);
    if j == -1 then last else ms[j].body
  }

  lemma {:induction false} LatestBodyShift(last: seq<byte>, ms: seq<Msg>, n: nat)
    requires 1 <= n <= |ms|
    ensures LatestBody(last, ms, n) == LatestBody(StickyBody(last, ms[0]), ms[1..], n - 1)
  {
    if n > 1 && ms[n - 1].body == [] {
      LatestBodyShift(last, ms, n - 1);
    }
  }

  lemma {:induction false} StickyAt(last: seq<byte>, ms: seq<Msg>, i: nat)
    requires i < |ms|
    ensures Sticky(last, ms)[i] == Msg(ms[i].header, LatestBody(last, ms, i + 1))
    decreases ms
  {
    LatestBodyShift(last, ms, i + 1);
    if i > 0 {
      StickyAt(StickyBody(last, ms[0]), ms[1..], i - 1);
    }
  }

  lemma FrameAtHead(last: seq<byte>, m: Msg, t: seq<byte>)
    requires SizeMatches(m)
    ensures
      var s := Frame(m) + t;
      && HasFrame(s) && FrameLength(s) == |Frame(m)|
      && FirstMsg(last, s) == Msg(m.header, StickyBody(last, m)) && s[|Frame(m)|..] == t
  {
    var s := Frame(m) + t;
    assert s[..HEADER_SIZE] == HeaderBytes(m.header);
    HeaderRoundTrip(m.header);
    assert s[HEADER_SIZE..|Frame(m)|] == m.body;
  }

  /** A prefix that is too short to hold the first frame holds no message. */
  lemma NoFrameYet(m: Msg, s: seq<byte>)
    requires SizeMatches(m) && s <= Frame(m) && s != Frame(m)
    ensures !HasFrame(s)
  {
    if |s| >= HEADER_SIZE {
      assert s[..HEADER_SIZE] == Frame(m)[..HEADER_SIZE] == HeaderBytes(m.header);
      HeaderRoundTrip(m.header);
    }
  }

  predicate ReadsBackAs(last: seq<byte>, ms: seq<Msg>, s: seq<byte>) {
    var k := |Deframe(last, s)|;
    && k <= |ms| && Deframe(last, s) == Sticky(last, ms[..k])
    && Frames(ms[..k]) <= s && (Whole(s) ==> s == Frames(ms[..k]))
  }

  /** What is read from a frame and what follows it. */
  lemma DeframeHead(last: seq<byte>, m: Msg, t: seq<byte>)
    requires SizeMatches(m)
    ensures
      var next := StickyBody(last, m);
      Deframe(last, Frame(m) + t) == [Msg(m.header, next)] + Deframe(next, t) && Whole(Frame(m) + t) == Whole(t)
  {
    FrameAtHead(last, m, t);
  }

  lemma FirstMessages(last: seq<byte>, ms: seq<Msg>, k: nat)
    requires k < |ms|
    ensures Frames(ms[..k + 1]) == Frame(ms[0]) + Frames(ms[1..][..k])
    ensures
      var next := StickyBody(last, ms[0]);
      Sticky(last, ms[..k + 1]) == [Msg(ms[0].header, next)] + Sticky(next, ms[1..][..k])
  {
    assert ms[..k + 1][1..] == ms[1..][..k];
  }

  lemma DeframePrefixStep(last: seq<byte>, ms: seq<Msg>, t: seq<byte>)
    requires ms != [] && SizeMatches(ms[0]) && ReadsBackAs(StickyBody(last, ms[0]), ms[1..], t)
    ensures ReadsBackAs(last, ms, Frame(ms[0]) + t)
  {
    DeframeHead(last, ms[0], t);
    FirstMessages(last, ms, |Deframe(StickyBody(last, ms[0]), t)|);
  }

  /** Any prefix of a stream of sent messages reads back as a prefix of those messages. */
  lemma {:induction false} DeframePrefix(last: seq<byte>, ms: seq<Msg>, s: seq<byte>)
    requires AllSizesMatch(ms) && s <= Frames(ms)
    ensures ReadsBackAs(last, ms, s)
    decreases ms
  {
    if ms != [] {
      var head := Frame(ms[0]);
      PrefixSplit(s, head, Frames(ms[1..]));
      if |s| < |head| {
        NoFrameYet(ms[0], s);
      } else {
        DeframePrefix(StickyBody(last, ms[0]), ms[1..], s[|head|..]);
        DeframePrefixStep(last, ms, s[|head|..]);
      }
    }
  }

  lemma {:induction false} FramesAppend(a: seq<Msg>, b: seq<Msg>)
    ensures Frames(a + b) == Frames(a) + Frames(b)
  {
    if a == [] {
      assert a + b == b;
    } else {
      FramesAppend(a[1..], b);
      assert (a + b)[1..] == a[1..] + b;
      Assoc(Frame(a[0]), Frames(a[1..]), Frames(b));
    }
  }
}
