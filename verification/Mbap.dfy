/** The seven-byte MBAP header of Modbus TCP (MODBUS Messaging on TCP/IP Implementation
    Guide V1.0b, section 3.1.3) and the framing it gives a byte stream. */
module Mbap {
  import opened Wrappers
  import opened Bytes

  const MBAP_LEN := 7
  const PROTOCOL_ID: uint16 := 0
  const MAX_PDU := 253

  /** `length` counts everything after its own field: the unit id and the PDU. */
  datatype Header = Header(transactionId: uint16, protocolId: uint16, length: uint16, unitId: byte)

  datatype HeaderError =
    | ShortHeader(have: nat)
    | WrongProtocol(got: uint16)
    | LengthTooSmall(length: uint16)
    | LengthTooBig(length: uint16)

  function HeaderBytes(h: Header): (b: seq<byte>)
    ensures |b| == MBAP_LEN
  {
    WordBytes(h.transactionId) + WordBytes(h.protocolId) + WordBytes(h.length) + [h.unitId]
  }

  method EncodeMBAP(h: Header) returns (b: seq<byte>)
    ensures b == HeaderBytes(h)
  {
    var buf := new byte[MBAP_LEN](_ => 0);
    PutUint16(buf, 0, h.transactionId);
    PutUint16(buf, 2, h.protocolId);
    PutUint16(buf, 4, h.length);
    buf[6] := h.unitId;
    b := buf[..];
  }

  function HeaderFields(b: seq<byte>): Header
    requires MBAP_LEN <= |b|
  {
    Header(U16At(b, 0), U16At(b, 2), U16At(b, 4), b[6])
  }

  function DecodeMBAP(b: seq<byte>): Result<Header, HeaderError>
  {
    if |b| < MBAP_LEN then Err(ShortHeader(|b|)) else
    var h := HeaderFields(b);
    if h.protocolId != PROTOCOL_ID then Err(WrongProtocol(h.protocolId))
    else if h.length < 2 then Err(LengthTooSmall(h.length))
    else if h.length - 1 > MAX_PDU then Err(LengthTooBig(h.length))
    else Ok(h)
  }

  lemma FieldsOfBytes(h: Header, tail: seq<byte>)
    ensures HeaderFields(HeaderBytes(h) + tail) == h
  {
    var b := HeaderBytes(h) + tail;
    WordInside(h.transactionId, [], b[2..]);
    assert b == [] + WordBytes(h.transactionId) + b[2..];
    WordInside(h.protocolId, b[..2], b[4..]);
    assert b == b[..2] + WordBytes(h.protocolId) + b[4..];
    WordInside(h.length, b[..4], b[6..]);
    assert b == b[..4] + WordBytes(h.length) + b[6..];
  }

  lemma BytesOfFields(b: seq<byte>)
    requires MBAP_LEN <= |b|
    ensures HeaderBytes(HeaderFields(b)) == b[..MBAP_LEN]
  {
    WordAt(b, 0);
    WordAt(b, 2);
    WordAt(b, 4);
    assert b[..MBAP_LEN] == b[0..2] + b[2..4] + b[4..6] + [b[6]];
  }

  /** The client accepts exactly the headers of protocol 0 whose PDU holds 1 to 253 bytes. */
  lemma HeaderRoundTrip(h: Header, tail: seq<byte>)
    ensures DecodeMBAP(HeaderBytes(h) + tail) == Ok(h) <==> h.protocolId == PROTOCOL_ID && 2 <= h.length <= 254
  {
    FieldsOfBytes(h, tail);
  }

  lemma AcceptedHeaderReproduced(b: seq<byte>)
    requires DecodeMBAP(b).Ok?
    ensures HeaderBytes(DecodeMBAP(b).value) == b[..MBAP_LEN]
  {
    BytesOfFields(b);
  }

  // ---- Framing ----

  datatype Frame = Frame(header: Header, pdu: seq<byte>) {
    /** What the server's reader insists on: a length field that matches a non-empty PDU. */
    predicate WellFormed() { 1 <= |pdu| && header.length == |pdu| + 1 }

    function Bytes(): seq<byte> { HeaderBytes(header) + pdu }
  }

  function Stream(frames: seq<Frame>): seq<byte>
  {
    if frames == [] then [] else frames[0].Bytes() + Stream(frames[1..])
  }

  /** One turn of the server's reader: seven bytes, then length - 1 more. */
  function NextFrame(stream: seq<byte>): (r: Option<Frame>)
    ensures r.Some? ==> r.value.WellFormed() && |r.value.Bytes()| <= |stream|
  {
    if |stream| < MBAP_LEN then None else
    var h := HeaderFields(stream);
    if h.length < 2 || |stream| < MBAP_LEN + h.length - 1 then None
    else Some(Frame(h, stream[MBAP_LEN..MBAP_LEN + h.length - 1]))
  }

  function Frames(stream: seq<byte>): seq<Frame>
    decreases |stream|
  {
    var f := NextFrame(stream);
    if f.None? then [] else [f.value] + Frames(stream[|f.value.Bytes()|..])
  }

  function Unread(stream: seq<byte>): seq<byte>
    decreases |stream|
  {
    var f := NextFrame(stream);
    if f.None? then stream else Unread(stream[|f.value.Bytes()|..])
  }

  lemma NextFrameOf(f: Frame, tail: seq<byte>)
    requires f.WellFormed()
    ensures NextFrame(f.Bytes() + tail) == Some(f)
    ensures (f.Bytes() + tail)[|f.Bytes()|..] == tail
  {
    assert f.Bytes() + tail == HeaderBytes(f.header) + (f.pdu + tail);
    FieldsOfBytes(f.header, f.pdu + tail);
  }

  lemma NothingIsNoFrame()
    ensures NextFrame([]).None?
  {
  }

  lemma PartIsNoFrame(f: Frame, part: seq<byte>)
    requires f.WellFormed() && part < f.Bytes()
    ensures NextFrame(part).None?
  {
    hide HeaderBytes;
    if MBAP_LEN <= |part| {
      assert part == HeaderBytes(f.header) + f.pdu[..|part| - MBAP_LEN];
      FieldsOfBytes(f.header, f.pdu[..|part| - MBAP_LEN]);
    }
  }

  /** Any list of well-formed frames parses back to exactly that list. */
  lemma {:induction false} FramingIsSelfDelimiting(frames: seq<Frame>, tail: seq<byte>)
    requires forall f | f in frames :: f.WellFormed()
    requires NextFrame(tail).None?
    ensures Frames(Stream(frames) + tail) == frames && Unread(Stream(frames) + tail) == tail
  {
    if frames == [] {
      assert Stream(frames) + tail == tail;
    } else {
      assert Stream(frames) + tail == frames[0].Bytes() + (Stream(frames[1..]) + tail);
      NextFrameOf(frames[0], Stream(frames[1..]) + tail);
      FramingIsSelfDelimiting(frames[1..], tail);
    }
  }

  lemma FrameIsPrefix(stream: seq<byte>)
    requires NextFrame(stream).Some?
    ensures stream == NextFrame(stream).value.Bytes() + stream[|NextFrame(stream).value.Bytes()|..]
  {
    var f := NextFrame(stream).value;
    BytesOfFields(stream);
    assert f.Bytes() == stream[..|f.Bytes()|];
  }

  /** And nothing is lost: every stream is its frames followed by what holds no further frame. */
  lemma {:induction false} FramesCoverStream(stream: seq<byte>)
    ensures stream == Stream(Frames(stream)) + Unread(stream)
    ensures NextFrame(Unread(stream)).None?
    ensures forall f | f in Frames(stream) :: f.WellFormed()
    decreases |stream|
  {
    if NextFrame(stream).Some? {
      var f := NextFrame(stream).value;
      FrameIsPrefix(stream);
      var rest := stream[|f.Bytes()|..];
      FramesCoverStream(rest);
      assert stream == f.Bytes() + (Stream(Frames(rest)) + Unread(rest));
    }
  }
}
