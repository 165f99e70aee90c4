/** What a stream of frames means to the client: runs of frames, text messages reassembled from
    fragments (RFC 6455, sections 5.4 and 5.5), the end of the HTTP upgrade response, and the
    reply that a call waits for. Everything is said about positions in the server's stream. */
module WebSocketStream {
  import opened Wrappers
  import opened WebSocketFrames

  const CONTINUATION: Byte := 0x0
  const TEXT: Byte := 0x1
  const CLOSE: Byte := 0x8
  const PING: Byte := 0x9
  const PONG: Byte := 0xA

  // ----- runs of frames sent by the client

  datatype Outgoing = Outgoing(opcode: Byte, payload: Bytes)
  {
    predicate Sendable() {
      |payload| < TWO_TO_64
    }

    function OnTheWire(key: MaskKey): Bytes
      requires Sendable()
    {
      Serialise(ClientWire(opcode, payload, key))
    }

    function Received(): Frame {
      Frame(true, LowFour(opcode), payload)
    }
  }

  /** What goes on the wire when `run` is sent and `keys` are the masking keys drawn. */
  function Transmitted(run: seq<Outgoing>, keys: seq<MaskKey>): Bytes
    requires |run| == |keys|
    requires forall i :: 0 <= i < |run| ==> run[i].Sendable()
  {
    if run == [] then [] else run[0].OnTheWire(keys[0]) + Transmitted(run[1..], keys[1..])
  }

  lemma {:induction false} TransmittedJoins(run: seq<Outgoing>, keys: seq<MaskKey>, more: seq<Outgoing>, moreKeys: seq<MaskKey>)
    requires |run| == |keys| && |more| == |moreKeys|
    requires forall i :: 0 <= i < |run| ==> run[i].Sendable()
    requires forall i :: 0 <= i < |more| ==> more[i].Sendable()
    ensures Transmitted(run + more, keys + moreKeys) == Transmitted(run, keys) + Transmitted(more, moreKeys)
  {
    hide Serialise, ClientWire;
    if run == [] {
      assert run + more == more && keys + moreKeys == moreKeys;
    } else {
      TransmittedJoins(run[1..], keys[1..], more, moreKeys);
      assert (run + more)[1..] == run[1..] + more;
      assert (keys + moreKeys)[1..] == keys[1..] + moreKeys;
    }
  }

  /** The pongs that answer `pings`, in order. */
  function Pongs(pings: seq<Bytes>): (run: seq<Outgoing>)
    ensures |run| == |pings|
    ensures forall i :: 0 <= i < |pings| ==> run[i] == Outgoing(0xA, pings[i])
  {
    seq(|pings|, i requires 0 <= i < |pings| => Outgoing(PONG, pings[i]))
  }

  /** Reading `count` frames from position `at`, one after the other, and where that ends. */
  function ParseFrames(s: Bytes, at: nat, count: nat): Option<(seq<Frame>, nat)>
    decreases count
  {
    if count == 0 then Some(([], at))
    else match ParseFrame(s, at)
      case None => None
      case Some(p) =>
        match ParseFrames(s, p.end, count - 1)
        case None => None
        case Some((frames, end)) => Some(([p.frame] + frames, end))
  }

  function ReceivedAll(run: seq<Outgoing>): (frames: seq<Frame>)
    ensures |frames| == |run|
    ensures forall i :: 0 <= i < |run| ==> frames[i] == run[i].Received()
  {
    seq(|run|, i requires 0 <= i < |run| => run[i].Received())
  }

  /** Every run of frames the client sends is read back exactly, whatever masking keys were drawn. */
  lemma {:induction false} RunRoundTrip(s: Bytes, at: nat, run: seq<Outgoing>, keys: seq<MaskKey>)
    requires |run| == |keys|
    requires forall i :: 0 <= i < |run| ==> run[i].Sendable()
    requires StandsAt(s, at, Transmitted(run, keys))
    ensures ParseFrames(s, at, |run|) == Some((ReceivedAll(run), at + |Transmitted(run, keys)|))
    decreases |run|
  {
    hide ParseFrame, Serialise, StandsAt;
    if run != [] {
      var first := run[0].OnTheWire(keys[0]);
      StandsInTwoParts(s, at, first, Transmitted(run[1..], keys[1..]));
      ParseReadsWhatWasWritten(s, at, ClientWire(run[0].opcode, run[0].payload, keys[0]));
      RunRoundTrip(s, at + |first|, run[1..], keys[1..]);
      assert [run[0].Received()] + ReceivedAll(run[1..]) == ReceivedAll(run);
    }
  }

  // ----- one call of the message reader

  datatype Outcome = Message(payload: Bytes) | ClosedByServer | ConnectionLost

  /** How one call of the reader ends, the position it leaves, and the pings it answers. */
  datatype Received = Received(outcome: Outcome, end: nat, pings: seq<Bytes>)
  {
    function After(answered: seq<Bytes>): Received {
      Received(outcome, end, answered + pings)
    }
  }

  /** What the reader does with one frame: finish, or go on with these fragments and this answer. */
  datatype Reaction = Finish(outcome: Outcome) | GoOn(partial: Option<Bytes>, answered: seq<Bytes>)

  function React(f: Frame, partial: Option<Bytes>): Reaction {
    if f.opcode == CLOSE then Finish(ClosedByServer)
    else if f.opcode == PING then GoOn(partial, [f.payload])
    else if f.opcode == PONG then GoOn(partial, [])
    else if f.opcode == TEXT then
      if f.fin then Finish(Message(f.payload)) else GoOn(Some(f.payload), [])
    else if f.opcode == CONTINUATION && partial.Some? then
      var data := partial.value + f.payload;
      if f.fin then Finish(Message(data)) else GoOn(Some(data), [])
    else GoOn(partial, [])
  }

  /** One call of the reader at position `at`, with `partial` the fragments collected so far. */
  function Receive(s: Bytes, at: nat, partial: Option<Bytes>): (r: Received)
    requires at <= |s|
    ensures at <= r.end <= |s|
    ensures r.outcome.Message? ==> at < r.end
    decreases |s| - at
  {
    match ParseFrame(s, at)
    case None => Received(ConnectionLost, |s|, [])
    case Some(Parsed(frame, end)) =>
      match React(frame, partial)
      case Finish(outcome) => Received(outcome, end, [])
      case GoOn(collected, answered) => Receive(s, end, collected).After(answered)
  }

  lemma ReceiveUnfolds(s: Bytes, at: nat, partial: Option<Bytes>)
    requires at <= |s|
    ensures ParseFrame(s, at).None? ==> Receive(s, at, partial) == Received(ConnectionLost, |s|, [])
    ensures ParseFrame(s, at).Some? ==>
              var Parsed(frame, end) := ParseFrame(s, at).value;
              var reaction := React(frame, partial);
              && at < end <= |s|
              && Receive(s, at, partial) ==
                   if reaction.Finish? then Received(reaction.outcome, end, [])
                   else Receive(s, end, reaction.partial).After(reaction.answered)
  {}

  /** The reader's step over a frame known to stand at `at`. */
  lemma ReceiveTakesOneFrame(s: Bytes, at: nat, w: Wire, partial: Option<Bytes>)
    requires w.Legal() && StandsAt(s, at, Serialise(w))
    ensures var reaction, end := React(w.Meaning(), partial), at + |Serialise(w)|;
            Receive(s, at, partial) ==
              if reaction.Finish? then Received(reaction.outcome, end, [])
              else Receive(s, end, reaction.partial).After(reaction.answered)
  {
    hide ParseFrame, Serialise, Receive;
    ParseReadsWhatWasWritten(s, at, w);
    ReceiveUnfolds(s, at, partial);
  }

  // ----- fragmented messages with interleaved control frames

  /** One fragment of a message, and the pings and pongs the server put in front of it. */
  datatype Piece = Piece(controls: seq<Wire>, fragment: Wire)

  predicate IsControl(w: Wire) {
    w.Legal() && (w.opcode == PING || w.opcode == PONG)
  }

  predicate AreControls(controls: seq<Wire>) {
    forall i :: 0 <= i < |controls| ==> IsControl(controls[i])
  }

  predicate AreLegal(pieces: seq<Piece>) {
    forall i :: 0 <= i < |pieces| ==> AreControls(pieces[i].controls) && pieces[i].fragment.Legal()
  }

  /** Fragments that start with opcode `first`, go on as continuations, and end at the final one. */
  predicate IsFragmented(pieces: seq<Piece>, first: Byte) {
    && pieces != []
    && AreLegal(pieces)
    && pieces[0].fragment.opcode == first
    && (forall i :: 0 < i < |pieces| ==> pieces[i].fragment.opcode == CONTINUATION)
    && (forall i :: 0 <= i < |pieces| ==> pieces[i].fragment.fin == (i == |pieces| - 1))
  }

  predicate IsTextMessage(pieces: seq<Piece>) {
    IsFragmented(pieces, TEXT)
  }

  function ControlBytes(controls: seq<Wire>): Bytes
    requires AreControls(controls)
  {
    if controls == [] then [] else Serialise(controls[0]) + ControlBytes(controls[1..])
  }

  function MessageBytes(pieces: seq<Piece>): Bytes
    requires AreLegal(pieces)
  {
    if pieces == [] then []
    else ControlBytes(pieces[0].controls) + (Serialise(pieces[0].fragment) + MessageBytes(pieces[1..]))
  }

  function PingsIn(controls: seq<Wire>): seq<Bytes> {
    if controls == [] then []
    else (if controls[0].opcode == PING then [controls[0].payload] else []) + PingsIn(controls[1..])
  }

  function Pings(pieces: seq<Piece>): seq<Bytes> {
    if pieces == [] then [] else PingsIn(pieces[0].controls) + Pings(pieces[1..])
  }

  function Joined(pieces: seq<Piece>): Bytes {
    if pieces == [] then [] else pieces[0].fragment.payload + Joined(pieces[1..])
  }

  lemma AfterTwice(r: Received, first: seq<Bytes>, second: seq<Bytes>)
    ensures r.After(second).After(first) == r.After(first + second)
  {
    assert first + (second + r.pings) == (first + second) + r.pings;
  }

  /** Control frames never disturb the fragments collected so far. */
  lemma {:induction false} ControlsAreTransparent(s: Bytes, at: nat, controls: seq<Wire>, partial: Option<Bytes>)
    requires AreControls(controls) && StandsAt(s, at, ControlBytes(controls))
    ensures Receive(s, at, partial)
         == Receive(s, at + |ControlBytes(controls)|, partial).After(PingsIn(controls))
    decreases |controls|
  {
    hide Serialise, Receive, StandsAt;
    if controls == [] {
      StandsInTwoParts(s, at, [], []);
      assert Receive(s, at, partial).After([]) == Receive(s, at, partial);
    } else {
      var first, others := controls[0], controls[1..];
      StandsInTwoParts(s, at, Serialise(first), ControlBytes(others));
      ReceiveTakesOneFrame(s, at, first, partial);
      ControlsAreTransparent(s, at + |Serialise(first)|, others, partial);
      AfterTwice(Receive(s, at + |ControlBytes(controls)|, partial),
        if first.opcode == PING then [first.payload] else [], PingsIn(others));
    }
  }

  /** What a call has collected once one more fragment has come in. */
  function Extended(partial: Option<Bytes>, payload: Bytes): Bytes {
    if partial.Some? then partial.value + payload else payload
  }

  lemma PieceIsTaken(s: Bytes, at: nat, p: Piece, partial: Option<Bytes>)
    requires AreControls(p.controls) && p.fragment.Legal()
    requires StandsAt(s, at, ControlBytes(p.controls) + Serialise(p.fragment))
    requires p.fragment.opcode == if partial.Some? then CONTINUATION else TEXT
    ensures var data, end := Extended(partial, p.fragment.payload), at + |ControlBytes(p.controls)| + |Serialise(p.fragment)|;
            Receive(s, at, partial) ==
              if p.fragment.fin then Received(Message(data), end, PingsIn(p.controls))
              else Receive(s, end, Some(data)).After(PingsIn(p.controls))
  {
    hide Serialise, Receive, StandsAt, ControlBytes, PingsIn;
    StandsInTwoParts(s, at, ControlBytes(p.controls), Serialise(p.fragment));
    ControlsAreTransparent(s, at, p.controls, partial);
    ReceiveTakesOneFrame(s, at + |ControlBytes(p.controls)|, p.fragment, partial);
    assert PingsIn(p.controls) + [] == PingsIn(p.controls);
  }

  /** The fragments from some point of a message on: the last one, and only it, is final. */
  lemma {:induction false} FragmentsAreCollected(s: Bytes, at: nat, pieces: seq<Piece>, partial: Option<Bytes>)
    requires IsFragmented(pieces, if partial.Some? then CONTINUATION else TEXT)
    requires StandsAt(s, at, MessageBytes(pieces))
    ensures Receive(s, at, partial)
         == Received(Message(Extended(partial, Joined(pieces))), at + |MessageBytes(pieces)|, Pings(pieces))
    decreases |pieces|
  {
    hide Serialise, Receive, ControlBytes, PingsIn, StandsAt;
    var p, others := pieces[0], pieces[1..];
    var piece := ControlBytes(p.controls) + Serialise(p.fragment);
    assert MessageBytes(pieces) == piece + MessageBytes(others);
    StandsInTwoParts(s, at, piece, MessageBytes(others));
    PieceIsTaken(s, at, p, partial);
    var data := Extended(partial, p.fragment.payload);
    assert Extended(partial, Joined(pieces)) == data + Joined(others);
    if others == [] {
      assert data + [] == data && PingsIn(p.controls) + [] == PingsIn(p.controls);
    } else {
      FragmentsAreCollected(s, at + |piece|, others, Some(data));
    }
  }

  /** However a text message is fragmented and whatever control frames come in between, one call
      of the reader returns its whole payload, answers its pings in order and reads no further. */
  lemma MessageIsReassembled(s: Bytes, at: nat, pieces: seq<Piece>)
    requires IsTextMessage(pieces) && StandsAt(s, at, MessageBytes(pieces))
    ensures Receive(s, at, None) == Received(Message(Joined(pieces)), at + |MessageBytes(pieces)|, Pings(pieces))
  {
    hide Receive, MessageBytes;
    FragmentsAreCollected(s, at, pieces, None);
  }

  // ----- frames that are not fragments

  /** The reader over controls and one more frame, for every number of fragments collected so far. */
  lemma FrameBehindControls(s: Bytes, at: nat, controls: seq<Wire>, w: Wire, partial: Option<Bytes>)
    requires AreControls(controls) && w.Legal() && StandsAt(s, at, ControlBytes(controls) + Serialise(w))
    ensures var reaction, end := React(w.Meaning(), partial), at + |ControlBytes(controls)| + |Serialise(w)|;
            Receive(s, at, partial) ==
              if reaction.Finish? then Received(reaction.outcome, end, PingsIn(controls))
              else Receive(s, end, reaction.partial).After(PingsIn(controls) + reaction.answered)
  {
    hide Serialise, Receive, StandsAt, ControlBytes, PingsIn;
    StandsInTwoParts(s, at, ControlBytes(controls), Serialise(w));
    ControlsAreTransparent(s, at, controls, partial);
    ReceiveTakesOneFrame(s, at + |ControlBytes(controls)|, w, partial);
    var reaction, end := React(w.Meaning(), partial), at + |ControlBytes(controls)| + |Serialise(w)|;
    assert PingsIn(controls) + [] == PingsIn(controls);
    if reaction.GoOn? {
      AfterTwice(Receive(s, end, reaction.partial), PingsIn(controls), reaction.answered);
    }
  }

  /** A close frame ends the call, whatever has been collected, and its payload is not a message. */
  lemma CloseEndsTheCall(s: Bytes, at: nat, controls: seq<Wire>, w: Wire, partial: Option<Bytes>)
    requires AreControls(controls) && w.Legal() && w.opcode == 0x8
    requires StandsAt(s, at, ControlBytes(controls) + Serialise(w))
    ensures Receive(s, at, partial)
         == Received(ClosedByServer, at + |ControlBytes(controls)| + |Serialise(w)|, PingsIn(controls))
  {
    hide Serialise, Receive, StandsAt, ControlBytes, PingsIn;
    FrameBehindControls(s, at, controls, w, partial);
  }

  /** A frame of an unknown kind, and a continuation of nothing, are skipped: nothing is collected,
      nothing dropped and nothing answered. */
  lemma StrayFramesAreSkipped(s: Bytes, at: nat, w: Wire, partial: Option<Bytes>)
    requires w.Legal() && StandsAt(s, at, Serialise(w))
    requires w.opcode !in {0x0, 0x1, 0x8, 0x9, 0xA} || (w.opcode == 0x0 && partial.None?)
    ensures Receive(s, at, partial) == Receive(s, at + |Serialise(w)|, partial)
  {
    hide Serialise, Receive, StandsAt;
    ReceiveTakesOneFrame(s, at, w, partial);
    NothingAnswered(Receive(s, at + |Serialise(w)|, partial));
  }

  lemma NothingAnswered(r: Received)
    ensures r.After([]) == r
  {}

  /** A ping is answered with its own payload, a pong with nothing; neither touches the fragments. */
  lemma ControlIsAnswered(s: Bytes, at: nat, w: Wire, partial: Option<Bytes>)
    requires w.Legal() && StandsAt(s, at, Serialise(w)) && w.opcode in {0x9, 0xA}
    ensures Receive(s, at, partial)
         == Receive(s, at + |Serialise(w)|, partial).After(if w.opcode == 0x9 then [w.payload] else [])
  {
    hide Serialise, Receive, StandsAt;
    ReceiveTakesOneFrame(s, at, w, partial);
  }

  /** A text frame starts a message anew: fragments collected before it are dropped. */
  lemma TextStartsAnew(s: Bytes, at: nat, w: Wire, partial: Option<Bytes>)
    requires w.Legal() && StandsAt(s, at, Serialise(w)) && w.opcode == 0x1
    ensures Receive(s, at, partial)
         == if w.fin then Received(Message(w.payload), at + |Serialise(w)|, [])
            else Receive(s, at + |Serialise(w)|, Some(w.payload))
  {
    hide Serialise, Receive, StandsAt;
    ReceiveTakesOneFrame(s, at, w, partial);
    NothingAnswered(Receive(s, at + |Serialise(w)|, Some(w.payload)));
  }

  lemma ParsedFramesStand(s: Bytes, at: nat)
    requires ParseFrame(s, at).Some?
    ensures exists w: Wire :: w.Legal() && StandsAt(s, at, Serialise(w))
  {
    hide Serialise, ParseFrame, WireAt;
    ParseReadsOnlyFrames(s, at);
    var w, end := WireAt(s, at), ParseFrame(s, at).value.end;
    assert |Serialise(w)| == end - at;
  }

  /** Where no whole frame is left, the call ends with the connection. */
  lemma LostConnectionEndsTheCall(s: Bytes, at: nat, partial: Option<Bytes>)
    requires at <= |s|
    requires forall w: Wire :: w.Legal() ==> !StandsAt(s, at, Serialise(w))
    ensures Receive(s, at, partial) == Received(ConnectionLost, |s|, [])
  {
    hide Receive, Serialise, ParseFrame, StandsAt;
    if ParseFrame(s, at).Some? {
      ParsedFramesStand(s, at);
    }
    ReceiveUnfolds(s, at, partial);
  }

  // ----- a session: call after call

  predicate AreTextMessages(messages: seq<seq<Piece>>) {
    forall i :: 0 <= i < |messages| ==> IsTextMessage(messages[i])
  }

  function SessionBytes(messages: seq<seq<Piece>>): Bytes
    requires AreTextMessages(messages)
  {
    if messages == [] then [] else MessageBytes(messages[0]) + SessionBytes(messages[1..])
  }

  function SessionPings(messages: seq<seq<Piece>>): seq<Bytes> {
    if messages == [] then [] else Pings(messages[0]) + SessionPings(messages[1..])
  }

  function Delivered(messages: seq<seq<Piece>>): (outcomes: seq<Outcome>)
    ensures |outcomes| == |messages|
    ensures forall i :: 0 <= i < |messages| ==> outcomes[i] == Message(Joined(messages[i]))
  {
    seq(|messages|, i requires 0 <= i < |messages| => Message(Joined(messages[i])))
  }

  /** Outcomes of `calls` successive calls of the reader, the pings answered, and the position left. */
  function Session(s: Bytes, at: nat, calls: nat): (seq<Outcome>, seq<Bytes>, nat)
    requires at <= |s|
    decreases calls
  {
    if calls == 0 then ([], [], at)
    else
      var r := Receive(s, at, None);
      var (outcomes, pings, end) := Session(s, r.end, calls - 1);
      ([r.outcome] + outcomes, r.pings + pings, end)
  }

  /** Successive calls return the messages in order, each once, and answer every ping in order. */
  lemma {:induction false} SessionDeliversEveryMessage(s: Bytes, at: nat, messages: seq<seq<Piece>>)
    requires AreTextMessages(messages) && StandsAt(s, at, SessionBytes(messages))
    ensures Session(s, at, |messages|)
         == (Delivered(messages), SessionPings(messages), at + |SessionBytes(messages)|)
    decreases |messages|
  {
    hide Receive, MessageBytes, Joined, Pings, StandsAt;
    if messages != [] {
      var first, others := MessageBytes(messages[0]), messages[1..];
      StandsInTwoParts(s, at, first, SessionBytes(others));
      MessageIsReassembled(s, at, messages[0]);
      SessionDeliversEveryMessage(s, at + |first|, others);
      assert [Message(Joined(messages[0]))] + Delivered(others) == Delivered(messages);
    }
  }

  // ----- the end of the upgrade response

  const TERMINATOR: Bytes := [13, 10, 13, 10]

  predicate TerminatorAt(s: Bytes, i: int) {
    0 <= i <= |s| - 4 && s[i..i + 4] == TERMINATOR
  }

  /** `bytes.find`: the first place at or after `from` where the header terminator stands. */
  function FindTerminator(s: Bytes, from: nat): (r: Option<nat>)
    ensures r.Some? ==> r.value >= from && TerminatorAt(s, r.value)
    ensures r.Some? ==> forall j :: from <= j < r.value ==> !TerminatorAt(s, j)
    ensures r.None? ==> forall j :: from <= j ==> !TerminatorAt(s, j)
    decreases |s| - from
  {
    if from + 4 > |s| then None
    else if TerminatorAt(s, from) then Some(from)
    else FindTerminator(s, from + 1)
  }

  /** A terminator found in the bytes received so far is the first one of the whole stream. */
  lemma FoundTerminatorIsFirst(s: Bytes, received: nat)
    requires received <= |s| && FindTerminator(s[..received], 0).Some?
    ensures FindTerminator(s, 0) == FindTerminator(s[..received], 0)
  {
    var i := FindTerminator(s[..received], 0).value;
    forall j | 0 <= j <= i ensures TerminatorAt(s, j) <==> TerminatorAt(s[..received], j) {
      assert s[..received][j..j + 4] == s[j..j + 4];
    }
    var found := FindTerminator(s, 0);
    assert TerminatorAt(s, i);
    assert found.Some?;
    assert !(found.value < i) && !(found.value > i);
  }

  /** The position behind the upgrade response, or None when the response never ends. */
  function EndOfHeaders(s: Bytes): (end: Option<nat>)
    ensures end.Some? ==> end.value <= |s|
  {
    match FindTerminator(s, 0)
    case None => None
    case Some(i) => Some(i + 4)
  }

  lemma HeadersEndAtTheFirstTerminator(s: Bytes, headers: Bytes)
    requires StandsAt(s, |headers|, [13, 10, 13, 10])
    requires forall j :: 0 <= j < |headers| ==> !TerminatorAt(s, j)
    ensures EndOfHeaders(s) == Some(|headers| + 4)
  {
    assert TerminatorAt(s, |headers|);
    var found := FindTerminator(s, 0);
    assert found.Some? && !(found.value < |headers|) && !(found.value > |headers|);
  }

  /** Handshake and session together: when the first terminator of the stream closes the response
      headers and messages follow, not a byte of them is lost, however early they arrive. */
  lemma SessionAfterHandshake(s: Bytes, headers: Bytes, messages: seq<seq<Piece>>)
    requires AreTextMessages(messages)
    requires StandsAt(s, 0, headers + [13, 10, 13, 10] + SessionBytes(messages))
    requires forall j :: 0 <= j < |headers| ==> !TerminatorAt(s, j)
    ensures EndOfHeaders(s) == Some(|headers| + 4)
    ensures Session(s, |headers| + 4, |messages|)
         == (Delivered(messages), SessionPings(messages), |headers| + 4 + |SessionBytes(messages)|)
  {
    hide Session, SessionBytes, StandsAt, TerminatorAt, FindTerminator, EndOfHeaders, AreTextMessages;
    StandsInTwoParts(s, 0, headers + TERMINATOR, SessionBytes(messages));
    StandsInTwoParts(s, 0, headers, TERMINATOR);
    HeadersEndAtTheFirstTerminator(s, headers);
    SessionDeliversEveryMessage(s, |headers| + 4, messages);
  }

  // ----- waiting for the reply to a request

  /** The fields of a decoded message that a call looks at. */
  datatype Reply = Reply(id: Option<nat>, success: bool, result: Bytes)

  /** A call returns the result of a successful reply, and raises on any other end. */
  datatype Answer = Returned(result: Bytes) | Rejected(reply: Reply) | NoAnswer

  function AnswerOf(reply: Reply): Answer {
    if reply.success then Returned(reply.result) else Rejected(reply)
  }

  /** How a call that waits for a reply ends: its answer, the position left, the pings answered. */
  datatype Waited = Waited(answer: Answer, end: nat, pings: seq<Bytes>)

  function AwaitReply(s: Bytes, at: nat, id: nat, decode: Bytes -> Reply): (r: Waited)
    requires at <= |s|
    ensures at <= r.end <= |s|
    decreases |s| - at
  {
    var received := Receive(s, at, None);
    if !received.outcome.Message? then
      Waited(NoAnswer, received.end, received.pings)
    else
      var reply := decode(received.outcome.payload);
      if reply.id == Some(id) then
        Waited(AnswerOf(reply), received.end, received.pings)
      else
        var later := AwaitReply(s, received.end, id, decode);
        Waited(later.answer, later.end, received.pings + later.pings)
  }

  /** Replies and events meant for others are skipped whole: the call takes the messages up to and
      including the first one that carries its id, and not a byte more. */
  lemma {:induction false} CallFindsItsReply(s: Bytes, at: nat, before: seq<seq<Piece>>, reply: seq<Piece>,
                                             id: nat, decode: Bytes -> Reply)
    requires AreTextMessages(before) && IsTextMessage(reply)
    requires StandsAt(s, at, SessionBytes(before) + MessageBytes(reply))
    requires forall i :: 0 <= i < |before| ==> decode(Joined(before[i])).id != Some(id)
    requires decode(Joined(reply)).id == Some(id)
    ensures AwaitReply(s, at, id, decode)
         == Waited(if decode(Joined(reply)).success then Returned(decode(Joined(reply)).result) else Rejected(decode(Joined(reply))),
                   at + |SessionBytes(before)| + |MessageBytes(reply)|,
                   SessionPings(before) + Pings(reply))
    decreases |before|
  {
    hide Receive, MessageBytes, Joined, Pings, StandsAt;
    var answer := MessageBytes(reply);
    if before == [] {
      assert SessionBytes(before) + answer == answer;
      MessageIsReassembled(s, at, reply);
      assert SessionPings(before) + Pings(reply) == Pings(reply);
    } else {
      var first, others := MessageBytes(before[0]), before[1..];
      assert SessionBytes(before) + answer == first + (SessionBytes(others) + answer);
      StandsInTwoParts(s, at, first, SessionBytes(others) + answer);
      MessageIsReassembled(s, at, before[0]);
      CallFindsItsReply(s, at + |first|, others, reply, id, decode);
      assert Pings(before[0]) + (SessionPings(others) + Pings(reply)) == SessionPings(before) + Pings(reply);
    }
  }

  /** When the server closes before the reply, the call is left without an answer: the messages for
      others are gone, and nothing behind the close frame is read. */
  lemma {:induction false} CloseLeavesTheCallUnanswered(s: Bytes, at: nat, before: seq<seq<Piece>>, controls: seq<Wire>, w: Wire,
                                                        id: nat, decode: Bytes -> Reply)
    requires AreTextMessages(before) && AreControls(controls) && w.Legal() && w.opcode == 0x8
    requires StandsAt(s, at, SessionBytes(before) + (ControlBytes(controls) + Serialise(w)))
    requires forall i :: 0 <= i < |before| ==> decode(Joined(before[i])).id != Some(id)
    ensures AwaitReply(s, at, id, decode)
         == Waited(NoAnswer, at + |SessionBytes(before)| + |ControlBytes(controls)| + |Serialise(w)|,
                   SessionPings(before) + PingsIn(controls))
    decreases |before|
  {
    hide Receive, MessageBytes, Joined, Pings, StandsAt, Serialise, ControlBytes, PingsIn;
    var closing := ControlBytes(controls) + Serialise(w);
    if before == [] {
      assert SessionBytes(before) + closing == closing;
      CloseEndsTheCall(s, at, controls, w, None);
      assert SessionPings(before) + PingsIn(controls) == PingsIn(controls);
      StandsInside(s, at, closing);
    } else {
      var first, others := MessageBytes(before[0]), before[1..];
      assert SessionBytes(before) + closing == first + (SessionBytes(others) + closing);
      StandsInTwoParts(s, at, first, SessionBytes(others) + closing);
      MessageIsReassembled(s, at, before[0]);
      CloseLeavesTheCallUnanswered(s, at + |first|, others, controls, w, id, decode);
      assert Pings(before[0]) + (SessionPings(others) + PingsIn(controls)) == SessionPings(before) + PingsIn(controls);
    }
  }

  lemma StandsInside(s: Bytes, at: nat, part: Bytes)
    requires StandsAt(s, at, part)
    ensures at <= |s|
  {}
}
