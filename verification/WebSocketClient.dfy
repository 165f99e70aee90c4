/** The client object: a socket that delivers the server's bytes in arbitrary pieces, a buffer of
    bytes received early, and the methods that read and write frames. Every contract speaks about
    positions in the server's stream, never about the pieces it arrives in. */
module WebSocketClient {
  import opened Wrappers
  import opened WebSocketFrames
  import opened WebSocketStream

  datatype Result<+T> = Ok(value: T) | Failed

  /** The stream `s` from position `at` on, cut into the pieces the network will deliver. */
  ghost predicate IsCutInto(s: Bytes, at: nat, chunks: seq<Bytes>)
    decreases |chunks|
  {
    if chunks == [] then at == |s|
    else chunks[0] != [] && StandsAt(s, at, chunks[0]) && IsCutInto(s, at + |chunks[0]|, chunks[1..])
  }

  /** One end of a connection. `stream` is all the server sends before it closes, `delivered` how
      much of it has been handed out, `chunks` the arbitrary pieces in which the rest arrives. */
  class Socket {
    ghost const stream: Bytes
    ghost var delivered: nat
    var chunks: seq<Bytes>
    var sent: Bytes

    ghost predicate Valid()
      reads this`delivered, this`chunks
    {
      delivered <= |stream| && IsCutInto(stream, delivered, chunks)
    }

    constructor (ghost stream: Bytes, chunks: seq<Bytes>)
      requires IsCutInto(stream, 0, chunks)
      ensures Valid() && this.stream == stream && delivered == 0 && sent == []
    {
      this.stream, this.delivered := stream, 0;
      this.chunks, this.sent := chunks, [];
    }

    /** Some of the next bytes, at most `limit`; none exactly when the server has closed. */
    method Receive(limit: nat) returns (chunk: Bytes)
      requires Valid() && limit > 0
      modifies this`delivered, this`chunks
      ensures Valid() && |chunk| <= limit
      ensures delivered == old(delivered) + |chunk| <= |stream|
      ensures chunk == stream[old(delivered)..delivered]
      ensures chunk == [] <==> old(delivered) == |stream|
    {
      if chunks == [] {
        return [];
      }
      chunk := chunks[0];
      if |chunk| <= limit {
        chunks := chunks[1..];
      } else {
        StandsInTwoParts(stream, delivered, chunk[..limit], chunk[limit..]);
        assert chunk == chunk[..limit] + chunk[limit..];
        chunks := [chunk[limit..]] + chunks[1..];
        chunk := chunk[..limit];
        assert chunks[1..] == old(chunks)[1..];
      }
      delivered := delivered + |chunk|;
    }

    method SendAll(data: Bytes)
      modifies this`sent
      ensures sent == old(sent) + data
    {
      sent := sent + data;
    }
  }

  /** `after` is `before` followed by one pong for each of `pings`, masked with `keys`. */
  ghost predicate Answers(pings: seq<Bytes>, keys: seq<MaskKey>, before: Bytes, after: Bytes) {
    && |keys| == |pings|
    && (forall i :: 0 <= i < |pings| ==> |pings[i]| < TWO_TO_64)
    && after == before + Transmitted(Pongs(pings), keys)
  }

  lemma NoAnswers(sent: Bytes)
    ensures Answers([], [], sent, sent)
  {}

  lemma AnswersJoin(pings: seq<Bytes>, keys: seq<MaskKey>, more: seq<Bytes>, moreKeys: seq<MaskKey>,
                    before: Bytes, between: Bytes, after: Bytes)
    requires Answers(pings, keys, before, between) && Answers(more, moreKeys, between, after)
    ensures Answers(pings + more, keys + moreKeys, before, after)
  {
    hide Transmitted;
    var first, second := Transmitted(Pongs(pings), keys), Transmitted(Pongs(more), moreKeys);
    TransmittedJoins(Pongs(pings), keys, Pongs(more), moreKeys);
    assert Pongs(pings + more) == Pongs(pings) + Pongs(more);
    assert (before + first) + second == before + (first + second);
  }

  lemma OneAnswer(ping: Bytes, key: MaskKey, before: Bytes)
    requires |ping| < TWO_TO_64
    ensures Answers([ping], [key], before, before + Outgoing(PONG, ping).OnTheWire(key))
  {
    hide Serialise, ClientWire;
    assert Pongs([ping]) == [Outgoing(PONG, ping)];
    assert Transmitted([], []) == [];
    assert Transmitted(Pongs([ping]), [key]) == Outgoing(PONG, ping).OnTheWire(key) + [];
  }

  class Client {
    const sock: Socket
    var recvBuffer: Bytes
    var msgId: nat

    /** The buffer holds the last bytes delivered. */
    ghost predicate Valid()
      reads this`recvBuffer, sock`delivered, sock`chunks
    {
      && sock.Valid()
      && |recvBuffer| <= sock.delivered
      && recvBuffer == sock.stream[sock.delivered - |recvBuffer|..sock.delivered]
    }

    /** How far into the server's stream the frames read so far reach. */
    ghost function Position(): (at: nat)
      requires Valid()
      reads this`recvBuffer, sock`delivered, sock`chunks
      ensures at <= |sock.stream|
    {
      sock.delivered - |recvBuffer|
    }

    constructor (sock: Socket)
      requires sock.Valid()
      ensures Valid() && this.sock == sock && recvBuffer == [] && msgId == 1
    {
      this.sock := sock;
      this.recvBuffer := [];
      this.msgId := 1;
    }

    /** Sends the upgrade request and drains the response headers. What the server sent behind
        them, in the same segment or later, is what frames are read from; failure means that the
        headers never ended. */
    method Handshake(request: Bytes) returns (ok: bool)
      requires Valid() && sock.delivered == 0
      modifies this`recvBuffer, sock
      ensures sock.sent == old(sock.sent) + request
      ensures ok <==> EndOfHeaders(sock.stream).Some?
      ensures ok ==> Valid() && Some(Position()) == EndOfHeaders(sock.stream)
    {
      hide IsCutInto, FindTerminator;
      sock.SendAll(request);
      var buf: Bytes := [];
      var headerEnd: Option<nat> := None;
      while headerEnd.None?
        invariant sock.Valid() && sock.sent == old(sock.sent) + request
        invariant buf == sock.stream[..sock.delivered]
        invariant headerEnd == FindTerminator(buf, 0)
        decreases |sock.stream| - sock.delivered, headerEnd.None?
      {
        var chunk := sock.Receive(4096);
        if chunk == [] {
          assert buf == sock.stream;
          return false;
        }
        buf := buf + chunk;
        headerEnd := FindTerminator(buf, 0);
      }
      FoundTerminatorIsFirst(sock.stream, sock.delivered);
      recvBuffer := buf[headerEnd.value + 4..];
      return true;
    }

    /** The next `n` bytes, in order, or failure exactly when the server closes before them. */
    method RecvExactly(n: nat) returns (r: Result<Bytes>)
      requires Valid()
      modifies this`recvBuffer, sock`delivered, sock`chunks
      ensures Valid()
      ensures r.Ok? <==> old(Position()) + n <= |sock.stream|
      ensures r.Ok? ==> Position() == old(Position()) + n && r.value == sock.stream[old(Position())..Position()]
      ensures r.Failed? ==> Position() == |sock.stream|
    {
      ghost var start := Position();
      var buf: Bytes := [];
      if recvBuffer != [] {
        var take := if n <= |recvBuffer| then n else |recvBuffer|;
        buf := recvBuffer[..take];
        recvBuffer := recvBuffer[take..];
      }
      while |buf| < n
        invariant Valid() && |buf| <= n
        invariant |buf| < n ==> recvBuffer == []
        invariant Position() == start + |buf| && buf == sock.stream[start..Position()]
        decreases n - |buf|
      {
        var chunk := sock.Receive(n - |buf|);
        if chunk == [] {
          return Failed;
        }
        buf := buf + chunk;
      }
      return Ok(buf);
    }

    /** Sends one masked frame, or nothing when its length does not fit in 64 bits. */
    method SendFrame(opcode: Byte, payload: Bytes) returns (ok: bool, ghost key: MaskKey)
      modifies sock`sent
      ensures ok <==> Outgoing(opcode, payload).Sendable()
      ensures ok ==> sock.sent == old(sock.sent) + Outgoing(opcode, payload).OnTheWire(key)
      ensures !ok ==> sock.sent == old(sock.sent)
    {
      var length := |payload|;
      var maskKey: MaskKey := *;
      key := maskKey;
      var masked := Masked(payload, maskKey);

      var header: Bytes := [WithHighBit(true, LowFour(opcode))];
      if length < 126 {
        header := header + [WithHighBit(true, length)];
      } else if length < TWO_TO_16 {
        header := header + [0xFE] + BigEndian(length, 2);
      } else if length < TWO_TO_64 {
        header := header + [0xFF] + BigEndian(length, 8);
      } else {
        return false, key;
      }
      ghost var w := ClientWire(opcode, payload, key);
      assert header == [FirstByte(w), SecondByte(w)] + ExtendedLength(w.form, length);
      sock.SendAll(header + maskKey + masked);
      ok := true;
    }

    /** The payload length that the second header byte and its extension announce. */
    method RecvLength(second: Byte) returns (r: Result<nat>)
      requires Valid()
      modifies this`recvBuffer, sock`delivered, sock`chunks
      ensures Valid()
      ensures var start, end := old(Position()), old(Position()) + ExtensionWidth(FormOf(second));
              if end <= |sock.stream| then r == Ok(PayloadLength(second, sock.stream[start..end])) && Position() == end
              else r == Failed && Position() == |sock.stream|
    {
      hide FromBigEndian, Valid, Position;
      var length := LowSeven(second);
      if length == 126 {
        var extension := RecvExactly(2);
        if extension.Failed? { return Failed; }
        return Ok(FromBigEndian(extension.value));
      } else if length == 127 {
        var extension := RecvExactly(8);
        if extension.Failed? { return Failed; }
        return Ok(FromBigEndian(extension.value));
      }
      return Ok(length);
    }

    /** The masking key, if there is one, and the payload with the mask taken off. */
    method RecvPayload(masked: bool, length: nat) returns (r: Result<Bytes>)
      requires Valid()
      modifies this`recvBuffer, sock`delivered, sock`chunks
      ensures Valid()
      ensures var start, s := old(Position()), sock.stream;
              var afterKey := if masked then start + 4 else start;
              if afterKey + length <= |s| then
                && r == Ok(if masked then Masked(s[afterKey..afterKey + length], s[start..afterKey]) else s[afterKey..afterKey + length])
                && Position() == afterKey + length
              else r == Failed && Position() == |s|
    {
      hide Masked, Valid, Position;
      var maskKey := Ok([]);
      if masked {
        maskKey := RecvExactly(4);
        if maskKey.Failed? { return Failed; }
      }
      var payload := RecvExactly(length);
      if payload.Failed? { return Failed; }
      return Ok(if masked then Masked(payload.value, maskKey.value) else payload.value);
    }

    /** Reads one frame: the result, and the position left, are those of the parser. */
    method RecvMessage() returns (r: Result<Frame>)
      requires Valid()
      modifies this`recvBuffer, sock`delivered, sock`chunks
      ensures Valid()
      ensures var parsed := ParseFrame(sock.stream, old(Position()));
              if parsed.Some? then r == Ok(parsed.value.frame) && Position() == parsed.value.end
              else r == Failed && Position() == |sock.stream|
    {
      hide PayloadLength, Masked, Valid, Position, HighBit, LowFour, FormOf;
      ghost var s, at := sock.stream, Position();
      var header := RecvExactly(2);
      if header.Failed? { return Failed; }
      assert header.value == [s[at], s[at + 1]];
      var fin, opcode := HighBit(header.value[0]), LowFour(header.value[0]);
      var masked := HighBit(header.value[1]);
      var length := RecvLength(header.value[1]);
      if length.Failed? { return Failed; }
      var payload := RecvPayload(masked, length.value);
      if payload.Failed? { return Failed; }
      return Ok(Frame(fin, opcode, payload.value));
    }

    /** Reads one message, reassembling fragments and answering pings on the way. */
    method Recv() returns (outcome: Outcome, ghost keys: seq<MaskKey>)
      requires Valid()
      modifies this`recvBuffer, sock
      ensures Valid()
      ensures var r := Receive(sock.stream, old(Position()), None);
              && outcome == r.outcome
              && Position() == r.end
              && Answers(r.pings, keys, old(sock.sent), sock.sent)
    {
      hide ParseFrame, Serialise, Receive, Answers;
      ghost var answered: seq<Bytes> := [];
      keys := [];
      var fragmentedPayload: Option<Bytes> := None;
      NoAnswers(sock.sent);
      while true
        invariant Valid()
        invariant Receive(sock.stream, old(Position()), None)
               == Receive(sock.stream, Position(), fragmentedPayload).After(answered)
        invariant Answers(answered, keys, old(sock.sent), sock.sent)
        decreases |sock.stream| - Position()
      {
        ghost var at := Position();
        ReceiveUnfolds(sock.stream, at, fragmentedPayload);
        assert answered + [] == answered;
        var message := RecvMessage();
        if message.Failed? {
          return ConnectionLost, keys;
        }
        ParsedPayloadFits(sock.stream, at);
        var Frame(fin, opcode, payload) := message.value;
        if opcode == CLOSE {
          return ClosedByServer, keys;
        }
        if opcode == PING {
          ghost var sentSoFar := sock.sent;
          var ok, key := SendFrame(PONG, payload);
          OneAnswer(payload, key, sentSoFar);
          AnswersJoin(answered, keys, [payload], [key], old(sock.sent), sentSoFar, sock.sent);
          AfterTwice(Receive(sock.stream, Position(), fragmentedPayload), answered, [payload]);
          answered, keys := answered + [payload], keys + [key];
          continue;
        }
        ghost var reaction := React(message.value, fragmentedPayload);
        if reaction.GoOn? {
          AfterTwice(Receive(sock.stream, Position(), reaction.partial), answered, []);
        }
        if opcode == PONG {
          continue;
        }
        if opcode == TEXT {
          if fin {
            return Message(payload), keys;
          }
          fragmentedPayload := Some(payload);
          continue;
        }
        if opcode == CONTINUATION && fragmentedPayload.Some? {
          fragmentedPayload := Some(fragmentedPayload.value + payload);
          if fin {
            return Message(fragmentedPayload.value), keys;
          }
        }
      }
    }

    /** Sends a request under a fresh id and waits for the reply to it. */
    method Call(encode: nat -> Bytes,
                decode: Bytes -> Reply) returns (answer: Answer, ghost key: MaskKey, ghost keys: seq<MaskKey>)
      requires Valid() && |encode(msgId)| < TWO_TO_64
      modifies this, sock
      ensures Valid() && msgId == old(msgId) + 1
      ensures var w := AwaitReply(sock.stream, old(Position()), old(msgId), decode);
              && answer == w.answer && Position() == w.end
              && Answers(w.pings, keys, old(sock.sent) + Outgoing(0x1, encode(old(msgId))).OnTheWire(key), sock.sent)
    {
      hide Answers, Receive, Serialise, ClientWire;
      var id := msgId;
      msgId := msgId + 1;
      var ok;
      ok, key := SendFrame(TEXT, encode(id));
      ghost var requested := sock.sent;
      ghost var waited := AwaitReply(sock.stream, Position(), id, decode);
      ghost var answered: seq<Bytes> := [];
      keys := [];
      NoAnswers(requested);
      while true
        invariant Valid() && msgId == old(msgId) + 1
        invariant var rest := AwaitReply(sock.stream, Position(), id, decode);
                  waited == Waited(rest.answer, rest.end, answered + rest.pings)
        invariant Answers(answered, keys, requested, sock.sent)
        decreases |sock.stream| - Position()
      {
        ghost var sentSoFar, at := sock.sent, Position();
        var outcome, more := Recv();
        ghost var pings := Receive(sock.stream, at, None).pings;
        AnswersJoin(answered, keys, pings, more, requested, sentSoFar, sock.sent);
        answered, keys := answered + pings, keys + more;
        if !outcome.Message? {
          return NoAnswer, key, keys;
        }
        var reply := decode(outcome.payload);
        if reply.id == Some(id) {
          if !reply.success {
            return Rejected(reply), key, keys;
          }
          return Returned(reply.result), key, keys;
        }
      }
    }
  }
}
