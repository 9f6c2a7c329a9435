/** The gateway's message format: parsing of one message and of a packet of length-prefixed
    messages, an encoder for it, and what they are to each other. */
module Protocol {
  import opened Words
  import opened Events
  import opened Bytes

  datatype ProtocolError =
    | InvalidMessageType(messageType: uint8)
    | InsufficientData(expected: nat, got: nat)

  type ParseResult = Result<ItchEvent, ProtocolError>

  // Message types and one-letter codes, in ASCII.
  const ADD: uint8 := 65
  const ADD_MPID: uint8 := 70
  const EXECUTED: uint8 := 69
  const EXECUTED_PRICE: uint8 := 67
  const CANCEL: uint8 := 88
  const DELETE: uint8 := 68
  const REPLACE: uint8 := 85
  const DIRECTORY: uint8 := 82
  const SYSTEM: uint8 := 83
  const BUY_CODE: uint8 := 66
  const SELL_CODE: uint8 := 83
  const YES_CODE: uint8 := 89
  const NO_CODE: uint8 := 78

  predicate KnownType(kind: uint8) {
    kind in {ADD, ADD_MPID, EXECUTED, EXECUTED_PRICE, CANCEL, DELETE, REPLACE, DIRECTORY, SYSTEM}
  }

  /** Bytes the parser insists on after the message type; some types ask for more than they read. */
  function Required(kind: uint8): nat {
    if kind == ADD then 32
    else if kind == ADD_MPID then 36
    else if kind == EXECUTED then 26
    else if kind == EXECUTED_PRICE then 31
    else if kind == CANCEL then 22
    else if kind == DELETE then 18
    else if kind == REPLACE then 34
    else if kind == DIRECTORY then 39
    else 11
  }

  /** Widths of the fields, the 48-bit timestamp being read as 2 + 4 bytes. */
  function Widths(kind: uint8): seq<nat> {
    if kind == ADD then [2, 4, 8, 1, 4, 8, 4]
    else if kind == ADD_MPID then [2, 4, 8, 1, 4, 8, 4, 4]
    else if kind == EXECUTED then [2, 4, 8, 4, 8]
    else if kind == EXECUTED_PRICE then [2, 4, 8, 4, 8, 1, 4]
    else if kind == CANCEL then [2, 4, 8, 4]
    else if kind == DELETE then [2, 4, 8]
    else if kind == REPLACE then [2, 4, 8, 8, 4, 4]
    else if kind == DIRECTORY then [2, 4, 8, 1, 1, 4, 1, 1]
    else [2, 4, 1]
  }

  lemma LayoutSizes()
    ensures Size([2, 4, 8, 1, 4, 8, 4]) == 31 && Size([2, 4, 8, 1, 4, 8, 4, 4]) == 35
    ensures Size([2, 4, 8, 4, 8]) == 26 && Size([2, 4, 8, 4, 8, 1, 4]) == 31 && Size([2, 4, 8, 4]) == 18
    ensures Size([2, 4, 8]) == 14 && Size([2, 4, 8, 8, 4, 4]) == 30
    ensures Size([2, 4, 8, 1, 1, 4, 1, 1]) == 22 && Size([2, 4, 1]) == 7
  {
  }

  lemma WidthsFit(kind: uint8)
    ensures Size(Widths(kind)) <= Required(kind)
  {
    hide Size;
    LayoutSizes();
  }

  function Stamp(high: nat, low: nat): nat {
    high * TWO_32 + low
  }

  function SideOfByte(b: uint8): Result<Side, ProtocolError> {
    if b == BUY_CODE then Ok(Buy)
    else if b == SELL_CODE then Ok(Sell)
    else Err(InvalidMessageType(b))
  }

  lemma FieldBounds(fields: seq<nat>, kind: uint8)
    requires Fit(fields, Widths(kind))
    ensures forall i :: 0 <= i < |fields| ==>
      && (Widths(kind)[i] == 1 ==> fields[i] < 0x100)
      && (Widths(kind)[i] == 2 ==> fields[i] < TWO_16)
      && (Widths(kind)[i] == 4 ==> fields[i] < TWO_32)
      && (Widths(kind)[i] == 8 ==> fields[i] < TWO_64)
  {
  }

  /** The event the fields of a message of a known type stand for. */
  function EventOf(kind: uint8, f: seq<nat>): ParseResult
    requires KnownType(kind) && Fit(f, Widths(kind))
  {
    FieldBounds(f, kind);
    var t: uint64 := Stamp(f[0], f[1]);
    if kind == ADD then
      match SideOfByte(f[3])
      case Err(e) => Err(e)
      case Ok(side) => Ok(AddOrder(t, f[2], side, f[4], f[5], f[6]))
    else if kind == ADD_MPID then
      match SideOfByte(f[3])
      case Err(e) => Err(e)
      case Ok(side) => Ok(AddOrderMpid(t, f[2], side, f[4], f[5], f[6], f[7]))
    else if kind == EXECUTED then Ok(OrderExecuted(t, f[2], f[3], f[4]))
    else if kind == EXECUTED_PRICE then Ok(OrderExecutedPrice(t, f[2], f[3], f[4], f[5] == YES_CODE, f[6]))
    else if kind == CANCEL then Ok(OrderCancel(t, f[2], f[3]))
    else if kind == DELETE then Ok(OrderDelete(t, f[2]))
    else if kind == REPLACE then Ok(OrderReplace(t, f[2], f[3], f[4], f[5]))
    else if kind == DIRECTORY then Ok(StockDirectory(t, f[2], f[3], f[4], f[5], f[6] == YES_CODE, f[7]))
    else Ok(SystemEvent(t, f[2]))
  }

  function ParseBody(kind: uint8, body: Bytes): ParseResult {
    if !KnownType(kind) then Err(InvalidMessageType(kind))
    else if |body| < Required(kind) then Err(InsufficientData(Required(kind), |body|))
    else
      WidthsFit(kind);
      DecodedFit(Big, body, Widths(kind));
      EventOf(kind, DecodeFields(Big, body, Widths(kind)))
  }

  /** A message is two length bytes, its type and its body. */
  function ParseMessage(data: Bytes): ParseResult {
    if |data| < 3 then Err(InsufficientData(3, |data|)) else ParseBody(data[2], data[3..])
  }

  /** The length field: everything in the frame but itself. */
  function FrameLength(s: Bytes): nat
    requires |s| >= 2
  {
    var high: nat, low: nat := s[0], s[1];
    high * 256 + low
  }

  /** A packet is parsed frame by frame until what is left is no complete frame. */
  function ParsePacket(packet: Bytes): seq<ParseResult>
    decreases |packet|
  {
    if |packet| < 2 then []
    else
      var len := FrameLength(packet);
      if len < 2 || 2 + len > |packet| then []
      else [ParseMessage(packet[..2 + len])] + ParsePacket(packet[2 + len..])
  }

  // ---------------------------------------------------------------- the encoder

  function KindOf(e: ItchEvent): uint8 {
    match e
    case AddOrder(_, _, _, _, _, _) => ADD
    case AddOrderMpid(_, _, _, _, _, _, _) => ADD_MPID
    case OrderExecuted(_, _, _, _) => EXECUTED
    case OrderExecutedPrice(_, _, _, _, _, _) => EXECUTED_PRICE
    case OrderCancel(_, _, _) => CANCEL
    case OrderDelete(_, _) => DELETE
    case OrderReplace(_, _, _, _, _) => REPLACE
    case StockDirectory(_, _, _, _, _, _, _) => DIRECTORY
    case SystemEvent(_, _) => SYSTEM
  }

  function SideCode(side: Side): uint8 {
    match side
    case Buy => BUY_CODE
    case Sell => SELL_CODE
  }

  function FlagCode(b: bool): uint8 {
    if b then YES_CODE else NO_CODE
  }

  function FieldsOf(e: ItchEvent): seq<nat> {
    [e.timestamp / TWO_32, e.timestamp % TWO_32] +
    match e
    case AddOrder(_, r, side, shares, stock, price) => [r, SideCode(side), shares, stock, price]
    case AddOrderMpid(_, r, side, shares, stock, price, mpid) => [r, SideCode(side), shares, stock, price, mpid]
    case OrderExecuted(_, r, shares, m) => [r, shares, m]
    case OrderExecutedPrice(_, r, shares, m, printable, price) => [r, shares, m, FlagCode(printable), price]
    case OrderCancel(_, r, shares) => [r, shares]
    case OrderDelete(_, r) => [r]
    case OrderReplace(_, r, n, shares, price) => [r, n, shares, price]
    case StockDirectory(_, stock, c, f, lot, only, i) => [stock, c, f, lot, FlagCode(only), i]
    case SystemEvent(_, code) => [code]
  }

  /** Events the format can carry: a 48-bit timestamp and a 32-bit price. */
  predicate Encodable(e: ItchEvent) {
    && e.timestamp < TWO_16 * TWO_32
    && (e.AddOrder? || e.AddOrderMpid? || e.OrderExecutedPrice? || e.OrderReplace? ==> e.price < TWO_32)
  }

  lemma FieldsFit(e: ItchEvent)
    requires Encodable(e)
    ensures Fit(FieldsOf(e), Widths(KindOf(e)))
  {
    Pow256Values();
  }

  /** The body, padded with zeros to the size the parser insists on. */
  function EncodeBody(e: ItchEvent): (body: Bytes)
    requires Encodable(e)
    ensures |body| == Required(KindOf(e))
  {
    FieldsFit(e);
    WidthsFit(KindOf(e));
    var fields := EncodeFields(Big, FieldsOf(e), Widths(KindOf(e)));
    fields + Zeros(Required(KindOf(e)) - |fields|)
  }

  function Frame(kind: uint8, body: Bytes): Bytes
    requires |body| < 0xFFFF
  {
    [(|body| + 1) / 256, (|body| + 1) % 256, kind] + body
  }

  function EncodeFrame(e: ItchEvent): Bytes
    requires Encodable(e)
  {
    Frame(KindOf(e), EncodeBody(e))
  }

  lemma EventOfFields(e: ItchEvent)
    requires Encodable(e) && Fit(FieldsOf(e), Widths(KindOf(e)))
    ensures EventOf(KindOf(e), FieldsOf(e)) == Ok(e)
  {
  }

  lemma BodyRoundTrip(e: ItchEvent)
    requires Encodable(e)
    ensures ParseBody(KindOf(e), EncodeBody(e)) == Ok(e)
  {
    FieldsFit(e);
    WidthsFit(KindOf(e));
    var fields := EncodeFields(Big, FieldsOf(e), Widths(KindOf(e)));
    DecodeEncode(Big, FieldsOf(e), Widths(KindOf(e)), Zeros(Required(KindOf(e)) - |fields|));
    EventOfFields(e);
  }

  // ---------------------------------------------------------------- packets

  /** A complete frame: its length field counts the type and a body of at least one byte. */
  predicate IsFrame(f: Bytes) {
    |f| >= 4 && FrameLength(f) == |f| - 2
  }

  function Flatten(frames: seq<Bytes>): Bytes {
    if frames == [] then [] else frames[0] + Flatten(frames[1..])
  }

  function ParseEach(frames: seq<Bytes>): (results: seq<ParseResult>)
    ensures |results| == |frames|
  {
    if frames == [] then [] else [ParseMessage(frames[0])] + ParseEach(frames[1..])
  }

  lemma FirstFrame(f: Bytes, rest: Bytes)
    requires IsFrame(f)
    ensures ParsePacket(f + rest) == [ParseMessage(f)] + ParsePacket(rest)
  {
  }

  /** Framing never depends on what the messages say: any frames in a row are parsed one by
      one, and then whatever follows them. */
  lemma {:induction false} FramesParseInTurn(frames: seq<Bytes>, rest: Bytes)
    requires forall i :: 0 <= i < |frames| ==>
      |frames[i]| >= 4 && 256 * (frames[i][0] as nat) + frames[i][1] == |frames[i]| - 2
    ensures ParsePacket(Flatten(frames) + rest) == ParseEach(frames) + ParsePacket(rest)
    decreases |frames|
  {
    hide ParsePacket, ParseMessage;
    if frames == [] {
      assert Flatten(frames) + rest == rest;
    } else {
      FramesParseInTurn(frames[1..], rest);
      FirstFrame(frames[0], Flatten(frames[1..]) + rest);
      assert Flatten(frames) + rest == frames[0] + (Flatten(frames[1..]) + rest);
    }
  }

  /** A packet yields nothing more exactly when it has no length, one below 2, or one that is
      longer than what is left. */
  lemma PacketEnds(packet: Bytes)
    ensures ParsePacket(packet) == [] <==>
      || |packet| < 2
      || 256 * (packet[0] as nat) + packet[1] < 2
      || 2 + 256 * (packet[0] as nat) + packet[1] > |packet|
  {
    hide ParseMessage;
  }

  function EncodeAll(events: seq<ItchEvent>): seq<Bytes>
    requires forall i :: 0 <= i < |events| ==> Encodable(events[i])
  {
    if events == [] then [] else [EncodeFrame(events[0])] + EncodeAll(events[1..])
  }

  function AllOk(events: seq<ItchEvent>): seq<ParseResult> {
    if events == [] then [] else [Ok(events[0])] + AllOk(events[1..])
  }

  lemma FrameRoundTrip(e: ItchEvent)
    requires Encodable(e)
    ensures IsFrame(EncodeFrame(e)) && ParseMessage(EncodeFrame(e)) == Ok(e)
  {
    var f := EncodeFrame(e);
    assert f[2] == KindOf(e) && f[3..] == EncodeBody(e);
    BodyRoundTrip(e);
  }

  lemma {:induction false} EncodedFrames(events: seq<ItchEvent>)
    requires forall i :: 0 <= i < |events| ==> Encodable(events[i])
    ensures |EncodeAll(events)| == |events|
    ensures forall i :: 0 <= i < |events| ==> IsFrame(EncodeAll(events)[i])
    ensures ParseEach(EncodeAll(events)) == AllOk(events)
    decreases |events|
  {
    if events != [] {
      FrameRoundTrip(events[0]);
      EncodedFrames(events[1..]);
      assert EncodeAll(events)[1..] == EncodeAll(events[1..]);
    }
  }

  /** Round trip: parsing the concatenated frames of any encodable events gives exactly
      those events, in order. */
  lemma PacketRoundTrip(events: seq<ItchEvent>)
    requires forall i :: 0 <= i < |events| ==> Encodable(events[i])
    ensures ParsePacket(Flatten(EncodeAll(events))) == AllOk(events)
  {
    EncodedFrames(events);
    FramesParseInTurn(EncodeAll(events), []);
    assert Flatten(EncodeAll(events)) + [] == Flatten(EncodeAll(events));
  }

  function Accepted(results: seq<ParseResult>): seq<ItchEvent> {
    if results == [] then []
    else (if results[0].Ok? then [results[0].value] else []) + Accepted(results[1..])
  }

  function Rejected(results: seq<ParseResult>): nat {
    if results == [] then 0 else (if results[0].Err? then 1 else 0) + Rejected(results[1..])
  }

  lemma AcceptedCons(r: ParseResult, rest: seq<ParseResult>)
    ensures Accepted([r] + rest) == (if r.Ok? then [r.value] else []) + Accepted(rest)
    ensures Rejected([r] + rest) == (if r.Err? then 1 else 0) + Rejected(rest)
  {
  }

  lemma {:induction false} AcceptedConcat(a: seq<ParseResult>, b: seq<ParseResult>)
    ensures Accepted(a + b) == Accepted(a) + Accepted(b) && Rejected(a + b) == Rejected(a) + Rejected(b)
    decreases |a|
  {
    if a == [] {
      assert a + b == b;
    } else {
      hide Accepted, Rejected;
      AcceptedCons(a[0], a[1..]);
      AcceptedCons(a[0], a[1..] + b);
      AcceptedConcat(a[1..], b);
      assert a == [a[0]] + a[1..] && a + b == [a[0]] + (a[1..] + b);
    }
  }

  /** Resynchronisation: one frame that does not parse costs one error, and every other
      event of the packet is accepted as if that frame were not there. */
  lemma BadFrameIsSkipped(before: seq<Bytes>, bad: Bytes, after: Bytes)
    requires forall i :: 0 <= i < |before| ==> IsFrame(before[i])
    requires IsFrame(bad) && ParseMessage(bad).Err?
    ensures Accepted(ParsePacket(Flatten(before) + bad + after)) == Accepted(ParsePacket(Flatten(before) + after))
    ensures Rejected(ParsePacket(Flatten(before) + bad + after)) == Rejected(ParsePacket(Flatten(before) + after)) + 1
  {
    hide ParsePacket, ParseMessage, ParseEach;
    FramesParseInTurn(before, after);
    FramesParseInTurn(before, bad + after);
    FirstFrame(bad, after);
    assert Flatten(before) + bad + after == Flatten(before) + (bad + after);
    AcceptedConcat(ParseEach(before), ParsePacket(after));
    AcceptedConcat(ParseEach(before), [ParseMessage(bad)] + ParsePacket(after));
    assert ([ParseMessage(bad)] + ParsePacket(after))[1..] == ParsePacket(after);
  }

  lemma FromOneByte(b: uint8)
    ensures FromBytes(Big, [b]) == b
  {
  }

  lemma FourthField(body: Bytes, later: seq<nat>)
    requires later != [] && later[0] == 1 && 14 + Size(later) <= |body|
    ensures Size([2, 4, 8] + later) <= |body|
    ensures DecodeFields(Big, body, [2, 4, 8] + later)[3] == body[14]
  {
    hide FromBytes;
    assert Size([2, 4, 8]) == 14;
    DecodeConcat(Big, body, [2, 4, 8], later);
    assert body[14..][..1] == [body[14]];
    FromOneByte(body[14]);
  }

  lemma SideField(kind: uint8, body: Bytes)
    requires (kind == ADD || kind == ADD_MPID) && Required(kind) <= |body|
    ensures Size(Widths(kind)) <= |body|
    ensures DecodeFields(Big, body, Widths(kind))[3] == body[14]
  {
    hide DecodeFields;
    var later: seq<nat> := if kind == ADD then [1, 4, 8, 4] else [1, 4, 8, 4, 4];
    assert Size([1, 4, 8, 4]) == 17 && Size([1, 4, 8, 4, 4]) == 21;
    FourthField(body, later);
    assert [2, 4, 8] + later == Widths(kind);
  }

  /** Which messages are accepted: one of nine types ('A', 'F', 'E', 'C', 'X', 'D', 'U', 'R',
      'S') with enough bytes, and for the two adds a side byte that is 'B' or 'S'. */
  lemma AcceptsExactly(data: Bytes)
    ensures ParseMessage(data).Ok? <==>
      && |data| >= 3
      && (|| (data[2] == 65 && |data| >= 35 && (data[17] == 66 || data[17] == 83))
          || (data[2] == 70 && |data| >= 39 && (data[17] == 66 || data[17] == 83))
          || (data[2] == 69 && |data| >= 29)
          || (data[2] == 67 && |data| >= 34)
          || (data[2] == 88 && |data| >= 25)
          || (data[2] == 68 && |data| >= 21)
          || (data[2] == 85 && |data| >= 37)
          || (data[2] == 82 && |data| >= 42)
          || (data[2] == 83 && |data| >= 14))
  {
    if |data| >= 3 && KnownType(data[2]) && |data| - 3 >= Required(data[2]) {
      var kind, body := data[2], data[3..];
      if kind == ADD || kind == ADD_MPID {
        SideField(kind, body);
      }
    }
  }

  /** The parser accepts nothing the format cannot carry: what it returns can be encoded,
      and the encoding parses back to the same event. */
  lemma ParsedIsEncodable(data: Bytes)
    requires ParseMessage(data).Ok?
    ensures Encodable(ParseMessage(data).value)
    ensures ParseMessage(EncodeFrame(ParseMessage(data).value)) == ParseMessage(data)
  {
    var kind, body := data[2], data[3..];
    WidthsFit(kind);
    DecodedFit(Big, body, Widths(kind));
    var fields := DecodeFields(Big, body, Widths(kind));
    FieldBounds(fields, kind);
    var e := EventOf(kind, fields).value;
    assert e.timestamp == Stamp(fields[0], fields[1]);
    FrameRoundTrip(e);
  }
}
