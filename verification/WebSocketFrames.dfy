/** The wire format of one WebSocket frame (RFC 6455, sections 5.2 and 5.3), the client's
    choice of encoding, and the reader's parser, as functions on byte sequences.

    Bytes are numbers, so that lengths need no conversion; the single-bit tests and masks of
    the header, and exclusive or, are written on binary digits (see `WebSocketBits`). */
module WebSocketFrames {
  import opened Wrappers

  type Byte = b: int | 0 <= b < 256

  type Bytes = seq<Byte>

  type MaskKey = k: Bytes | |k| == 4 witness [0, 0, 0, 0]

  /** What the reader makes of a frame. */
  datatype Frame = Frame(fin: bool, opcode: Byte, payload: Bytes)

  /** The three ways section 5.2 offers to write a payload length. */
  datatype LengthForm = Short | Medium | Long

  /** Everything that distinguishes one serialised frame from another. */
  datatype Wire = Wire(fin: bool, reserved: Byte, opcode: Byte, form: LengthForm, mask: Option<MaskKey>, payload: Bytes)
  {
    function Meaning(): Frame {
      Frame(fin, opcode, payload)
    }

    predicate Legal() {
      opcode < 16 && reserved < 8 && |payload| < Capacity(form)
    }
  }

  const TWO_TO_16: nat := 0x1_0000
  const TWO_TO_64: nat := 0x1_0000_0000_0000_0000

  function Capacity(form: LengthForm): nat {
    match form
    case Short => 126
    case Medium => TWO_TO_16
    case Long => TWO_TO_64
  }

  // ----- header bits

  predicate HighBit(b: Byte) {
    b >= 128
  }

  function LowSeven(b: Byte): Byte {
    b % 128
  }

  function LowFour(b: Byte): Byte {
    b % 16
  }

  function WithHighBit(high: bool, low: Byte): Byte
    requires low < 128
  {
    if high then 128 + low else low
  }

  // ----- big-endian lengths

  function Power256(width: nat): nat {
    if width == 0 then 1 else 256 * Power256(width - 1)
  }

  function BigEndian(value: nat, width: nat): (s: Bytes)
    ensures |s| == width
  {
    if width == 0 then [] else BigEndian(value / 256, width - 1) + [value % 256]
  }

  function FromBigEndian(s: Bytes): nat {
    if s == [] then 0 else FromBigEndian(s[..|s| - 1]) * 256 + s[|s| - 1]
  }

  lemma {:induction false} BigEndianRoundTrip(value: nat, width: nat)
    requires value < Power256(width)
    ensures FromBigEndian(BigEndian(value, width)) == value
  {
    if width > 0 {
      BigEndianRoundTrip(value / 256, width - 1);
      assert BigEndian(value, width)[..width - 1] == BigEndian(value / 256, width - 1);
    }
  }

  lemma {:induction false} FromBigEndianRoundTrip(s: Bytes)
    ensures FromBigEndian(s) < Power256(|s|)
    ensures BigEndian(FromBigEndian(s), |s|) == s
  {
    if s != [] {
      var init, last := s[..|s| - 1], s[|s| - 1];
      FromBigEndianRoundTrip(init);
      assert FromBigEndian(s) / 256 == FromBigEndian(init);
      assert s == init + [last];
    }
  }

  lemma PowersOf256()
    ensures Power256(2) == TWO_TO_16
    ensures Power256(8) == TWO_TO_64
  {
    assert Power256(2) == 256 * Power256(1);
    assert Power256(4) == 256 * (256 * Power256(2));
    assert Power256(6) == 256 * (256 * Power256(4));
    assert Power256(8) == 256 * (256 * Power256(6));
  }

  // ----- masking

  /** Exclusive or of the lowest `width` binary digits. */
  function XorDigits(a: nat, b: nat, width: nat): (x: nat)
    ensures x < Power2(width)
  {
    if width == 0 then 0
    else (if a % 2 == b % 2 then 0 else 1) + 2 * XorDigits(a / 2, b / 2, width - 1)
  }

  function Power2(width: nat): nat {
    if width == 0 then 1 else 2 * Power2(width - 1)
  }

  lemma {:induction false} XorDigitsTwice(a: nat, b: nat, width: nat)
    requires a < Power2(width)
    ensures XorDigits(XorDigits(a, b, width), b, width) == a
  {
    if width > 0 {
      XorDigitsTwice(a / 2, b / 2, width - 1);
      var x := XorDigits(a, b, width);
      assert x / 2 == XorDigits(a / 2, b / 2, width - 1);
      assert x % 2 == if a % 2 == b % 2 then 0 else 1;
    }
  }

  lemma EightDigits()
    ensures Power2(8) == 256
  {
    assert Power2(4) == 2 * (2 * Power2(2));
    assert Power2(6) == 2 * (2 * Power2(4));
    assert Power2(8) == 2 * (2 * Power2(6));
  }

  function Xor(a: Byte, b: Byte): Byte {
    EightDigits();
    XorDigits(a, b, 8)
  }

  lemma XorTwice(a: Byte, b: Byte)
    ensures Xor(Xor(a, b), b) == a
  {
    EightDigits();
    XorDigitsTwice(a, b, 8);
  }

  function Masked(payload: Bytes, key: MaskKey): (m: Bytes)
    ensures |m| == |payload|
  {
    seq(|payload|, i requires 0 <= i < |payload| => Xor(payload[i], key[i % 4]))
  }

  lemma MaskingIsAnInvolution(payload: Bytes, key: MaskKey)
    ensures Masked(Masked(payload, key), key) == payload
  {
    forall i | 0 <= i < |payload| ensures Masked(Masked(payload, key), key)[i] == payload[i] {
      XorTwice(payload[i], key[i % 4]);
    }
  }

  // ----- serialising

  function FirstByte(w: Wire): Byte
    requires w.Legal()
  {
    WithHighBit(w.fin, 16 * w.reserved + w.opcode)
  }

  function LengthField(form: LengthForm, length: nat): Byte
    requires form == Short ==> length < 126
  {
    match form
    case Short => length
    case Medium => 126
    case Long => 127
  }

  function SecondByte(w: Wire): Byte
    requires w.Legal()
  {
    WithHighBit(w.mask.Some?, LengthField(w.form, |w.payload|))
  }

  function ExtensionWidth(form: LengthForm): nat {
    match form
    case Short => 0
    case Medium => 2
    case Long => 8
  }

  function ExtendedLength(form: LengthForm, length: nat): (extension: Bytes)
    ensures |extension| == ExtensionWidth(form)
  {
    match form
    case Short => []
    case Medium => BigEndian(length, 2)
    case Long => BigEndian(length, 8)
  }

  function KeyBytes(mask: Option<MaskKey>): Bytes {
    if mask.Some? then mask.value else []
  }

  function Body(mask: Option<MaskKey>, payload: Bytes): (b: Bytes)
    ensures |b| == |payload|
  {
    if mask.Some? then Masked(payload, mask.value) else payload
  }

  /** Section 5.2, field by field. */
  function Serialise(w: Wire): Bytes
    requires w.Legal()
  {
    [FirstByte(w), SecondByte(w)]
    + ExtendedLength(w.form, |w.payload|)
    + KeyBytes(w.mask)
    + Body(w.mask, w.payload)
  }

  function ShortestForm(length: nat): LengthForm {
    if length < 126 then Short else if length < TWO_TO_16 then Medium else Long
  }

  /** The frame the client chooses to send: final, masked, in the shortest length form. */
  function ClientWire(opcode: Byte, payload: Bytes, key: MaskKey): (w: Wire)
    requires |payload| < TWO_TO_64
    ensures w.Legal()
  {
    Wire(true, 0, LowFour(opcode), ShortestForm(|payload|), Some(key), payload)
  }

  /** On the wire: the final bit and the opcode first, the mask bit and the key always, and no masked
      frame with the same payload is shorter. */
  lemma ClientFramesAre(opcode: Byte, payload: Bytes, key: MaskKey, other: Wire)
    requires |payload| < TWO_TO_64
    requires other.Legal() && other.payload == payload && other.mask.Some?
    ensures var s := Serialise(ClientWire(opcode, payload, key));
            && s[0] == 128 + opcode % 16 && s[1] >= 128
            && |s| >= |payload| + 6 && s[|s| - |payload| - 4..|s| - |payload|] == key
            && |s| <= |Serialise(other)|
  {
    hide Masked, BigEndian;
    var w := ClientWire(opcode, payload, key);
    var s, head := Serialise(w), [FirstByte(w), SecondByte(w)] + ExtendedLength(w.form, |payload|);
    assert s == head + key + Masked(payload, key);
  }

  // ----- parsing

  /** A parsed frame and the position behind it. */
  datatype Parsed = Parsed(frame: Frame, end: nat)

  function FormOf(second: Byte): LengthForm {
    if LowSeven(second) == 126 then Medium else if LowSeven(second) == 127 then Long else Short
  }

  function PayloadLength(second: Byte, extension: Bytes): nat {
    if FormOf(second).Short? then LowSeven(second) else FromBigEndian(extension)
  }

  /** Reading one frame of stream `s` at position `at`; None when the stream ends too early. */
  function ParseFrame(s: Bytes, at: nat): (r: Option<Parsed>)
    ensures r.Some? ==> at + 2 <= r.value.end <= |s|
  {
    if at + 2 > |s| then None else
    var afterLength := at + 2 + ExtensionWidth(FormOf(s[at + 1]));
    if afterLength > |s| then None else
    var length := PayloadLength(s[at + 1], s[at + 2..afterLength]);
    var masked := HighBit(s[at + 1]);
    var afterKey := if masked then afterLength + 4 else afterLength;
    var end := afterKey + length;
    if end > |s| then None else
    var payload := if masked then Masked(s[afterKey..end], s[afterLength..afterKey]) else s[afterKey..end];
    Some(Parsed(Frame(HighBit(s[at]), LowFour(s[at]), payload), end))
  }

  /** The bytes `part` stand in the stream `s` at position `at`. */
  predicate StandsAt(s: Bytes, at: nat, part: Bytes) {
    at + |part| <= |s| && s[at..at + |part|] == part
  }

  lemma StandsInTwoParts(s: Bytes, at: nat, first: Bytes, second: Bytes)
    requires StandsAt(s, at, first + second)
    ensures StandsAt(s, at, first) && StandsAt(s, at + |first|, second)
    ensures at + |first| + |second| <= |s|
  {
    var both := first + second;
    assert first == both[..|first|] && second == both[|first|..];
  }

  lemma SlicesJoin(s: Bytes, a: nat, b: nat, c: nat)
    requires a <= b <= c <= |s|
    ensures s[a..b] + s[b..c] == s[a..c]
  {}

  // ----- the two directions

  lemma HeaderReads(w: Wire)
    requires w.Legal()
    ensures HighBit(FirstByte(w)) == w.fin && LowFour(FirstByte(w)) == w.opcode
    ensures HighBit(SecondByte(w)) == w.mask.Some?
    ensures FormOf(SecondByte(w)) == w.form
    ensures PayloadLength(SecondByte(w), ExtendedLength(w.form, |w.payload|)) == |w.payload|
  {
    PowersOf256();
    match w.form {
      case Short =>
      case Medium => BigEndianRoundTrip(|w.payload|, 2);
      case Long => BigEndianRoundTrip(|w.payload|, 8);
    }
  }

  /** How the parser cuts up a frame whose five parts are known. */
  lemma ParseParts(s: Bytes, at: nat, extension: Bytes, key: Bytes, body: Bytes)
    requires at + 2 <= |s|
    requires |extension| == ExtensionWidth(FormOf(s[at + 1]))
    requires |key| == if HighBit(s[at + 1]) then 4 else 0
    requires |body| == PayloadLength(s[at + 1], extension)
    requires StandsAt(s, at + 2, extension)
    requires StandsAt(s, at + 2 + |extension|, key)
    requires StandsAt(s, at + 2 + |extension| + |key|, body)
    ensures ParseFrame(s, at) == Some(Parsed(
      Frame(HighBit(s[at]), LowFour(s[at]), if HighBit(s[at + 1]) then Masked(body, key) else body),
      at + 2 + |extension| + |key| + |body|))
  {
    hide Masked, FromBigEndian, HighBit, LowFour, FormOf;
  }

  /** The parser reads back every legal frame, wherever it stands, and stops exactly at its end. */
  lemma ParseReadsWhatWasWritten(s: Bytes, at: nat, w: Wire)
    requires w.Legal() && StandsAt(s, at, Serialise(w))
    ensures ParseFrame(s, at) == Some(Parsed(w.Meaning(), at + |Serialise(w)|))
  {
    hide ParseFrame, PayloadLength, FirstByte, SecondByte, HighBit, LowFour, FormOf, Masked, ExtendedLength;
    var header := [FirstByte(w), SecondByte(w)];
    var extension, key, body := ExtendedLength(w.form, |w.payload|), KeyBytes(w.mask), Body(w.mask, w.payload);
    StandsInTwoParts(s, at, header + extension + key, body);
    StandsInTwoParts(s, at, header + extension, key);
    StandsInTwoParts(s, at, header, extension);
    HeaderReads(w);
    assert s[at] == header[0] && s[at + 1] == header[1];
    ParseParts(s, at, extension, key, body);
    if w.mask.Some? {
      MaskingIsAnInvolution(w.payload, w.mask.value);
    }
  }

  /** The frame that stands in `s` at `at`, bit for bit. */
  function WireAt(s: Bytes, at: nat): Wire
    requires ParseFrame(s, at).Some?
  {
    var afterLength := at + 2 + ExtensionWidth(FormOf(s[at + 1]));
    var frame := ParseFrame(s, at).value.frame;
    Wire(frame.fin, s[at] % 128 / 16, frame.opcode, FormOf(s[at + 1]),
      if HighBit(s[at + 1]) then Some(s[afterLength..afterLength + 4]) else None, frame.payload)
  }

  lemma LengthWrites(second: Byte, extension: Bytes)
    requires |extension| == ExtensionWidth(FormOf(second))
    ensures var form, length := FormOf(second), PayloadLength(second, extension);
            && length < Capacity(form) && LengthField(form, length) == LowSeven(second)
            && ExtendedLength(form, length) == extension
  {
    PowersOf256();
    FromBigEndianRoundTrip(extension);
  }

  lemma BitsWrite(b: Byte)
    ensures WithHighBit(HighBit(b), LowSeven(b)) == b
    ensures 16 * (b % 128 / 16) + LowFour(b) == LowSeven(b) && b % 128 / 16 < 8 && LowFour(b) < 16
  {
    LowFourOfLowSeven(b);
    var low := b % 128;
    assert low == 16 * (low / 16) + low % 16;
  }

  lemma LowFourOfLowSeven(b: Byte)
    ensures LowFour(LowSeven(b)) == LowFour(b)
  {
    assert b % 128 == if b >= 128 then b - 16 * 8 else b;
  }

  lemma HeaderWrites(w: Wire, first: Byte, second: Byte, extension: Bytes)
    requires |extension| == ExtensionWidth(FormOf(second))
    requires w.fin == HighBit(first) && w.reserved == first % 128 / 16 && w.opcode == LowFour(first)
    requires w.form == FormOf(second) && w.mask.Some? == HighBit(second)
    requires |w.payload| == PayloadLength(second, extension)
    ensures w.Legal()
    ensures FirstByte(w) == first && SecondByte(w) == second
    ensures ExtendedLength(w.form, |w.payload|) == extension
  {
    hide HighBit, LowSeven, LowFour, WithHighBit, FormOf, PayloadLength, ExtendedLength, Capacity, LengthField;
    BitsWrite(first);
    BitsWrite(second);
    LengthWrites(second, extension);
  }

  /** Nothing else parses: whatever the parser accepts is a legal frame, up to where it stops. */
  lemma ParseReadsOnlyFrames(s: Bytes, at: nat)
    requires ParseFrame(s, at).Some?
    ensures WireAt(s, at).Legal()
    ensures WireAt(s, at).Meaning() == ParseFrame(s, at).value.frame
    ensures Serialise(WireAt(s, at)) == s[at..ParseFrame(s, at).value.end]
  {
    hide FromBigEndian, BigEndian, Masked, FirstByte, SecondByte;
    var w, end := WireAt(s, at), ParseFrame(s, at).value.end;
    var afterLength := at + 2 + ExtensionWidth(w.form);
    var afterKey := afterLength + |KeyBytes(w.mask)|;
    HeaderWrites(w, s[at], s[at + 1], s[at + 2..afterLength]);
    var body := s[afterKey..end];
    if w.mask.Some? {
      MaskingIsAnInvolution(body, w.mask.value);
    }
    assert Body(w.mask, w.payload) == body;
    SlicesJoin(s, at, at + 2, afterLength);
    SlicesJoin(s, at, afterLength, afterKey);
    SlicesJoin(s, at, afterKey, end);
    assert s[at..at + 2] == [s[at], s[at + 1]];
  }

  lemma ParsedPayloadFits(s: Bytes, at: nat)
    requires ParseFrame(s, at).Some?
    ensures |ParseFrame(s, at).value.frame.payload| < TWO_TO_64
  {
    hide ParseFrame, Serialise, WireAt;
    ParseReadsOnlyFrames(s, at);
  }

  /** Frames are self-delimiting: a position starts at most one frame. */
  lemma FramesArePrefixFree(s: Bytes, at: nat, v: Wire, w: Wire)
    requires v.Legal() && w.Legal()
    requires StandsAt(s, at, Serialise(v)) && StandsAt(s, at, Serialise(w))
    ensures v.Meaning() == w.Meaning() && |Serialise(v)| == |Serialise(w)|
  {
    hide ParseFrame, Serialise;
    ParseReadsWhatWasWritten(s, at, v);
    ParseReadsWhatWasWritten(s, at, w);
  }

  /** Bytes that arrive later do not change a frame that has already arrived whole. */
  lemma ParseIgnoresWhatFollows(s: Bytes, at: nat, more: Bytes)
    requires ParseFrame(s, at).Some?
    ensures ParseFrame(s + more, at) == ParseFrame(s, at)
  {
    hide ParseFrame, Serialise, WireAt;
    ParseReadsOnlyFrames(s, at);
    var w := WireAt(s, at);
    assert (s + more)[at..at + |Serialise(w)|] == s[at..at + |Serialise(w)|];
    ParseReadsWhatWasWritten(s + more, at, w);
  }
}
