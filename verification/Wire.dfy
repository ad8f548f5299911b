/** Framing and the peer session: a four-byte length before every body, one write at a time
    (src/net/message.cpp, src/net/peer_session.cpp). */
module Wire {
  import opened Common
  import opened Text
  import opened Nodes
  import opened Codec

  const LENGTH_LIMIT: int := 0x1_0000_0000
  const MAX_BODY: int := 16 * 1024 * 1024

  /** A message body whose size fits the length prefix. */
  type Body = b: seq<Byte> | |b| < LENGTH_LIMIT witness []

  // ---------------------------------------------------------------- length prefix

  /** Least significant byte first. */
  function LengthBytes(n: nat): (r: seq<Byte>)
    requires n < LENGTH_LIMIT
    ensures |r| == 4
  {
    [n % 256, n / 256 % 256, n / 65536 % 256, n / 16777216]
  }

  function LengthValue(bytes: seq<Byte>): (r: nat)
    requires |bytes| == 4
    ensures r < LENGTH_LIMIT
  {
    bytes[0] as int + 256 * bytes[1] as int + 65536 * bytes[2] as int + 16777216 * bytes[3] as int
  }

  method EncodeLength(length: nat, buf: array<Byte>)
    requires length < LENGTH_LIMIT && buf.Length >= 4
    modifies buf
    ensures buf[..4] == LengthBytes(length)
    ensures buf[4..] == old(buf[4..])
  {
    buf[0] := length % 256;
    buf[1] := length / 256 % 256;
    buf[2] := length / 65536 % 256;
    buf[3] := length / 16777216;
  }

  method DecodeLength(buf: array<Byte>) returns (length: nat)
    requires buf.Length >= 4
    ensures length == LengthValue(buf[..4])
  {
    length := buf[0] as int + 256 * buf[1] as int + 65536 * buf[2] as int + 16777216 * buf[3] as int;
  }

  /** The prefix is a bijection between lengths and four bytes. */
  lemma {:induction false} LengthRoundTrip(n: nat, bytes: seq<Byte>)
    requires n < LENGTH_LIMIT && |bytes| == 4
    ensures LengthValue(LengthBytes(n)) == n
    ensures LengthBytes(LengthValue(bytes)) == bytes
  {
    var v := LengthValue(bytes);
    assert v / 256 == bytes[1] as int + 256 * bytes[2] as int + 65536 * bytes[3] as int;
    assert v / 65536 == bytes[2] as int + 256 * bytes[3] as int;
    assert v / 16777216 == bytes[3];
    assert n / 65536 == n / 256 / 256 && n / 16777216 == n / 65536 / 256;
  }

  // ---------------------------------------------------------------- frames

  function Frame(body: Body): (r: seq<Byte>)
    ensures |r| == 4 + |body|
  {
    LengthBytes(|body|) + body
  }

  method SerializeMessage(body: Body) returns (data: array<Byte>)
    ensures fresh(data) && data[..] == Frame(body)
  {
    data := new Byte[4 + |body|];
    EncodeLength(|body|, data);
    for i := 0 to |body|
      invariant data[..4] == LengthBytes(|body|)
      invariant data[4..4 + i] == body[..i]
    {
      data[4 + i] := body[i];
    }
    assert data[..] == data[..4] + data[4..4 + |body|];
  }

  /** The bytes of so many frames, one after the other. */
  function Stream(bodies: seq<Body>): seq<Byte>
  {
    if bodies == [] then [] else Frame(bodies[0]) + Stream(bodies[1..])
  }

  /** The bodies a reader gets out of a byte stream: it stops where the stream ends inside a frame and
      at the first length over the limit. */
  function Bodies(stream: seq<Byte>): seq<Body>
  {
    if |stream| < 4 then []
    else
      var n := LengthValue(stream[..4]);
      if n > MAX_BODY || |stream| < 4 + n then []
      else [stream[4..4 + n]] + Bodies(stream[4 + n..])
  }

  predicate WithinLimit(bodies: seq<Body>)
  {
    forall i :: 0 <= i < |bodies| ==> |bodies[i]| <= MAX_BODY
  }

  /** The bodies before the first one over the limit. */
  function BeforeOversized(bodies: seq<Body>): (r: seq<Body>)
    ensures r <= bodies && WithinLimit(r)
    ensures r == bodies || |bodies[|r|]| > MAX_BODY
  {
    if bodies == [] || |bodies[0]| > MAX_BODY then [] else [bodies[0]] + BeforeOversized(bodies[1..])
  }

  /** Whatever part of the stream has arrived, its bodies are the first of those sent, unchanged and in
      order; when all has arrived they are all that precede an oversized one. */
  lemma {:induction false} FramesArriveInOrder(sent: seq<Body>, stream: seq<Byte>)
    requires stream <= Stream(sent)
    ensures Bodies(stream) <= BeforeOversized(sent)
    ensures stream == Stream(sent) ==> Bodies(stream) == BeforeOversized(sent)
  {
    if sent != [] && |stream| >= 4 {
      var n := |sent[0]|;
      FrameHead(sent[0], Stream(sent[1..]), stream);
      if n <= MAX_BODY && |stream| >= 4 + n {
        FramesArriveInOrder(sent[1..], stream[4 + n..]);
      }
    }
  }

  lemma {:induction false} FrameHead(body: Body, rest: seq<Byte>, stream: seq<Byte>)
    requires stream <= Frame(body) + rest && |stream| >= 4
    ensures LengthValue(stream[..4]) == |body|
    ensures |stream| >= 4 + |body| ==> stream[4..4 + |body|] == body
    ensures |stream| >= 4 + |body| ==> stream[4 + |body|..] <= rest
    ensures stream == Frame(body) + rest ==> |stream| >= 4 + |body| && stream[4 + |body|..] == rest
  {
    LengthRoundTrip(|body|, stream[..4]);
    assert stream[..4] == LengthBytes(|body|);
  }

  lemma {:induction false} BodiesOfFrame(body: Body, rest: seq<Byte>)
    requires |body| <= MAX_BODY
    ensures Bodies(Frame(body) + rest) == [body] + Bodies(rest)
  {
    FrameHead(body, rest, Frame(body) + rest);
  }

  /** A reader that has got `done` and then sees `rest`. */
  lemma {:induction false} BodiesAfter(done: seq<Body>, rest: seq<Byte>)
    requires WithinLimit(done)
    ensures Bodies(Stream(done) + rest) == done + Bodies(rest)
  {
    hide Frame, Bodies;
    if done == [] {
      assert Stream(done) + rest == rest && done + Bodies(rest) == Bodies(rest);
    } else {
      BodiesAfter(done[1..], rest);
      BodiesOfFrame(done[0], Stream(done[1..]) + rest);
      assert Stream(done) + rest == Frame(done[0]) + (Stream(done[1..]) + rest);
      assert done + Bodies(rest) == [done[0]] + (done[1..] + Bodies(rest));
    }
  }

  lemma {:induction false} StreamAppend(bodies: seq<Body>, more: seq<Body>)
    ensures Stream(bodies + more) == Stream(bodies) + Stream(more)
  {
    if bodies == [] {
      assert bodies + more == more;
    } else {
      assert (bodies + more)[1..] == bodies[1..] + more;
      StreamAppend(bodies[1..], more);
    }
  }

  lemma {:induction false} BodiesOfStream(done: seq<Body>)
    requires WithinLimit(done)
    ensures Bodies(Stream(done)) == done
  {
    BodiesAfter(done, []);
    assert Stream(done) + [] == Stream(done) && done + [] == done;
  }

  lemma {:induction false} BodyCompletes(done: seq<Body>, header: seq<Byte>, body: Body)
    requires WithinLimit(done) && |body| <= MAX_BODY
    requires |header| == 4 && LengthValue(header) == |body|
    ensures Stream(done + [body]) == Stream(done) + header + body
    ensures Bodies(Stream(done) + header + body) == done + [body]
  {
    hide Bodies, LengthValue, LengthBytes, Stream;
    LengthRoundTrip(|body|, header);
    StreamAppend(done, [body]);
    StreamOne(body);
    assert Stream(done) + header + body == Stream(done) + Frame(body);
    BodiesOfStream(done + [body]);
  }

  lemma StreamOne(body: Body)
    ensures Stream([body]) == Frame(body)
  {
    assert [body][1..] == [];
  }

  // ---------------------------------------------------------------- the session

  predicate Framed(queue: seq<seq<Byte>>, bodies: seq<Body>)
  {
    |queue| == |bodies| && forall i :: 0 <= i < |queue| ==> queue[i] == Frame(bodies[i])
  }

  datatype Reading = Header | Content(length: nat) | Stopped

  /** One end of a connection. The asynchronous operations are split into the call that starts them and
      the callback that ends them; all run on one thread. */
  class PeerSession {
    var writeQueue: seq<seq<Byte>>
    var isWriting: bool
    var closed: bool
    var reading: Reading

    /** Bodies passed to send, those of them that were queued, and how many of these were written. */
    ghost var sent: seq<Body>
    ghost var queued: seq<Body>
    ghost var written: nat
    ghost var outstanding: nat
    ghost var disconnects: nat

    /** Bytes taken by completed reads, and the bodies handed on. */
    ghost var consumed: seq<Byte>
    ghost var received: seq<Body>

    ghost predicate WriteOk()
      reads this
    {
      && outstanding <= 1
      && (outstanding == 1 ==> writeQueue != [])
      && (!closed ==> (isWriting <==> outstanding == 1) && (writeQueue != [] <==> outstanding == 1))
      && queued <= sent
      && written <= |queued|
      && (!closed ==> queued == sent)
      && Framed(writeQueue, queued[written..])
      && disconnects == (if closed then 1 else 0)
    }

    ghost predicate ReadOk()
      reads this
    {
      && WithinLimit(received)
      && received <= Bodies(consumed)
      && (reading.Header? ==> consumed == Stream(received))
      && (reading.Content? ==>
            |consumed| == |Stream(received)| + 4 && Stream(received) <= consumed
            && LengthValue(consumed[|Stream(received)|..]) == reading.length <= MAX_BODY)
    }

    ghost predicate Valid()
      reads this
    {
      WriteOk() && ReadOk()
    }

    constructor ()
      ensures Valid() && !closed && reading == Header
      ensures sent == [] && received == [] && consumed == []
    {
      writeQueue, isWriting, closed, reading := [], false, false, Header;
      sent, queued, written, outstanding, disconnects := [], [], 0, 0, 0;
      consumed, received := [], [];
    }

    /** The posted part of send. */
    method Send(body: Body)
      requires Valid()
      modifies this`writeQueue, this`isWriting, this`sent, this`queued, this`outstanding
      ensures Valid() && sent == old(sent) + [body]
      ensures queued == if closed then old(queued) else old(queued) + [body]
    {
      var data := SerializeMessage(body);
      sent := sent + [body];
      if closed {
        return;
      }
      writeQueue := writeQueue + [data[..]];
      queued := queued + [body];
      if !isWriting {
        DoWrite();
      }
    }

    method DoWrite()
      requires outstanding == 0
      modifies this`isWriting, this`outstanding
      ensures outstanding == if writeQueue == [] || closed then 0 else 1
      ensures isWriting <==> outstanding == 1
    {
      if writeQueue == [] || closed {
        isWriting := false;
        return;
      }
      isWriting := true;
      outstanding := 1;
    }

    /** The callback of async_write. */
    method OnWritten(ok: bool)
      requires Valid() && outstanding == 1
      modifies this`writeQueue, this`isWriting, this`written, this`outstanding, this`closed, this`disconnects
      ensures Valid()
      ensures ok ==> written == old(written) + 1 && closed == old(closed)
      ensures !ok ==> written == old(written) && closed
    {
      outstanding := 0;
      if !ok {
        Disconnect();
        return;
      }
      writeQueue := writeQueue[1..];
      written := written + 1;
      DoWrite();
    }

    method Disconnect()
      requires disconnects == if closed then 1 else 0
      modifies this`closed, this`disconnects
      ensures closed && disconnects == 1
    {
      if closed {
        return;
      }
      closed := true;
      disconnects := disconnects + 1;
    }

    /** The callback that ends the four-byte read. */
    method OnHeader(ok: bool, header: array<Byte>)
      requires Valid() && reading == Header && header.Length == 4
      modifies this`reading, this`consumed, this`closed, this`disconnects
      ensures Valid() && sent == old(sent) && received == old(received)
      ensures consumed == if ok then old(consumed) + header[..] else old(consumed)
      ensures !ok || LengthValue(header[..]) > MAX_BODY ==> closed && reading == Stopped
      ensures ok && LengthValue(header[..]) <= MAX_BODY ==> closed == old(closed) && reading.Content?
    {
      hide Bodies, Framed;
      if !ok {
        reading := Stopped;
        Disconnect();
        return;
      }
      assert consumed + header[..] == Stream(received) + header[..];
      BodiesAfter(received, header[..]);
      assert header[..4] == header[..];
      var bodyLen := DecodeLength(header);
      consumed := consumed + header[..];
      if bodyLen > MAX_BODY {
        reading := Stopped;
        Disconnect();
        return;
      }
      reading := Content(bodyLen);
    }

    /** The callback that ends the read of a body; a body that does not parse is dropped, and reading
        goes on. */
    method OnBody(ok: bool, body: Body)
      requires Valid() && reading.Content? && |body| == reading.length
      modifies this`reading, this`consumed, this`received, this`closed, this`disconnects
      ensures Valid() && sent == old(sent)
      ensures received == if ok then old(received) + [body] else old(received)
      ensures consumed == if ok then old(consumed) + body else old(consumed)
      ensures if ok then reading == Header && closed == old(closed) else reading == Stopped && closed
    {
      hide Bodies, Framed;
      if !ok {
        reading := Stopped;
        Disconnect();
        return;
      }
      assert consumed == Stream(received) + consumed[|Stream(received)|..];
      BodyCompletes(received, consumed[|Stream(received)|..], body);
      assert consumed + body == Stream(received) + consumed[|Stream(received)|..] + body;
      consumed := consumed + body;
      received := received + [body];
      reading := Header;
    }

    /** What can have arrived at the other end: all frames written and some part of the one in flight. */
    ghost predicate MayHaveArrived(stream: seq<Byte>)
      reads this
    {
      written <= |queued|
      && stream <= Stream(queued[..written]) + (if writeQueue == [] then [] else writeQueue[0])
    }
  }

  lemma ArrivedIsSent(s: PeerSession, stream: seq<Byte>)
    requires s.Valid() && s.MayHaveArrived(stream)
    ensures stream <= Stream(s.queued)
  {
    var first, rest := s.queued[..s.written], s.queued[s.written..];
    assert s.queued == first + rest;
    StreamAppend(first, rest);
    if s.writeQueue != [] {
      assert s.writeQueue[0] == Frame(rest[0]);
      assert Stream(first) + s.writeQueue[0] <= Stream(first) + Stream(rest);
    }
  }

  /** Safety of a connection: whatever was sent, written, lost by a disconnect or is still on its way,
      the other end has got a prefix of the bodies sent, in order. */
  lemma ChannelSafety(sender: PeerSession, receiver: PeerSession, arrived: seq<Byte>)
    requires sender.Valid() && receiver.Valid()
    requires sender.MayHaveArrived(arrived) && receiver.consumed <= arrived
    ensures receiver.received <= BeforeOversized(sender.sent)
  {
    ArrivedIsSent(sender, arrived);
    FramesArriveInOrder(sender.queued, receiver.consumed);
    BeforeOversizedPrefix(sender.queued, sender.sent);
  }

  lemma {:induction false} BeforeOversizedPrefix(xs: seq<Body>, ys: seq<Body>)
    requires xs <= ys
    ensures BeforeOversized(xs) <= BeforeOversized(ys)
  {
    if xs != [] {
      BeforeOversizedPrefix(xs[1..], ys[1..]);
    }
  }

  /** ... and has got all of them once nothing is left to write and all is read. */
  lemma ChannelDrained(sender: PeerSession, receiver: PeerSession)
    requires sender.Valid() && receiver.Valid()
    requires !sender.closed && sender.writeQueue == []
    requires receiver.reading == Header && receiver.consumed == Stream(sender.queued[..sender.written])
    ensures receiver.received == sender.sent
  {
    assert sender.queued[..sender.written] == sender.sent;
    AllRead(sender.sent, receiver.received);
  }

  lemma AllRead(sent: seq<Body>, received: seq<Body>)
    requires WithinLimit(received) && Stream(received) == Stream(sent)
    ensures received == sent
  {
    FramesArriveInOrder(sent, Stream(received));
    BodiesOfStream(received);
    assert received == sent[..|received|];
    if |received| < |sent| {
      StreamsDiffer(sent, |received|);
    }
  }

  lemma StreamsDiffer(bodies: seq<Body>, k: nat)
    requires k < |bodies|
    ensures |Stream(bodies[..k])| < |Stream(bodies)|
  {
    assert bodies == bodies[..k] + bodies[k..];
    StreamAppend(bodies[..k], bodies[k..]);
  }

  // ---------------------------------------------------------------- messages over the wire

  /** The JSON library: text of a value as bytes, and back. */
  datatype JsonText = JsonText(text: Json -> seq<Byte>, parse: seq<Byte> -> Option<Json>)

  /** Parsing undoes printing, and each message's text fits the length prefix. */
  ghost predicate ReadsBack(p: JsonText, ms: seq<Message>)
  {
    forall i :: 0 <= i < |ms| ==>
      && p.parse(p.text(MessageJson(ms[i]))) == Some(MessageJson(ms[i]))
      && |p.text(MessageJson(ms[i]))| < LENGTH_LIMIT
  }

  function Encode(p: JsonText, ms: seq<Message>): (r: seq<Body>)
    requires forall i :: 0 <= i < |ms| ==> |p.text(MessageJson(ms[i]))| < LENGTH_LIMIT
    ensures |r| == |ms|
    ensures forall i :: 0 <= i < |ms| ==> r[i] == p.text(MessageJson(ms[i]))
  {
    if ms == [] then [] else Encode(p, ms[..|ms| - 1]) + [p.text(MessageJson(ms[|ms| - 1]))]
  }

  /** The messages that get handled: bodies that do not parse or decode are dropped. */
  function Handled(p: JsonText, bodies: seq<Body>): seq<Message>
  {
    if bodies == [] then []
    else
      var n := |bodies| - 1;
      var j := p.parse(bodies[n]);
      if j.Some? && MessageFromJson(j.value).Ok? then Handled(p, bodies[..n]) + [MessageFromJson(j.value).value]
      else Handled(p, bodies[..n])
  }

  lemma {:induction false} HandledOfSent(p: JsonText, ms: seq<Message>, k: nat)
    requires ReadsBack(p, ms) && k <= |ms|
    ensures Handled(p, Encode(p, ms)[..k]) == ms[..k]
  {
    hide MessageFromJson, MessageJson;
    if k > 0 {
      assert Encode(p, ms)[..k][..k - 1] == Encode(p, ms)[..k - 1];
      HandledOfSent(p, ms, k - 1);
      MessageRoundTrip(ms[k - 1]);
      assert ms[..k] == ms[..k - 1] + [ms[k - 1]];
    }
  }

  /** End to end: the node behind the receiver handles a prefix of the messages given to the sender. */
  lemma MessagesInOrder(p: JsonText, sender: PeerSession, receiver: PeerSession, arrived: seq<Byte>,
                        ms: seq<Message>)
    requires ReadsBack(p, ms) && sender.Valid() && receiver.Valid() && sender.sent == Encode(p, ms)
    requires sender.MayHaveArrived(arrived) && receiver.consumed <= arrived
    ensures Handled(p, receiver.received) <= ms
    ensures |receiver.received| == |Handled(p, receiver.received)|
  {
    ChannelSafety(sender, receiver, arrived);
    var k := |receiver.received|;
    assert receiver.received == Encode(p, ms)[..k];
    HandledOfSent(p, ms, k);
  }
}
