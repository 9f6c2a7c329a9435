/** The parser as the gateway runs it: a cursor that moves over one message, and an iterator
    that moves over a packet. Neither can run past the end of its bytes. */
module ItchParser {
  import opened Words
  import opened Events
  import opened Bytes
  import opened Protocol

  /** A read position over one message body, with the history of what was read. */
  class Cursor {
    const data: Bytes
    var pos: nat
    ghost var widths: seq<nat>
    ghost var fields: seq<nat>

    ghost predicate Valid()
      reads this
    {
      pos == Size(widths) <= |data| && fields == DecodeFields(Big, data, widths)
    }

    constructor (data: Bytes)
      ensures Valid() && this.data == data && pos == 0 && widths == [] && fields == []
    {
      this.data := data;
      pos := 0;
      widths := [];
      fields := [];
    }

    method ReadBytes(w: nat) returns (v: nat)
      requires Valid() && pos + w <= |data|
      modifies this
      ensures Valid() && pos == old(pos) + w
      ensures widths == old(widths) + [w] && fields == old(fields) + [v]
      ensures v == FromBytes(Big, data[old(pos)..pos]) < Pow256(w)
    {
      v := FromBytes(Big, data[pos..pos + w]);
      FromBytesBound(Big, data[pos..pos + w]);
      DecodeOne(Big, data[pos..], w);
      DecodeConcat(Big, data, widths, [w]);
      assert data[pos..][..w] == data[pos..pos + w];
      widths := widths + [w];
      fields := fields + [v];
      pos := pos + w;
    }

    method ReadU8() returns (v: uint8)
      requires Valid() && pos + 1 <= |data|
      modifies this
      ensures Valid() && pos == old(pos) + 1 && widths == old(widths) + [1] && fields == old(fields) + [v]
    {
      Pow256Values();
      v := ReadBytes(1);
    }

    method ReadU16() returns (v: uint16)
      requires Valid() && pos + 2 <= |data|
      modifies this
      ensures Valid() && pos == old(pos) + 2 && widths == old(widths) + [2] && fields == old(fields) + [v]
    {
      Pow256Values();
      v := ReadBytes(2);
    }

    method ReadU32() returns (v: uint32)
      requires Valid() && pos + 4 <= |data|
      modifies this
      ensures Valid() && pos == old(pos) + 4 && widths == old(widths) + [4] && fields == old(fields) + [v]
    {
      Pow256Values();
      v := ReadBytes(4);
    }

    method ReadU64() returns (v: uint64)
      requires Valid() && pos + 8 <= |data|
      modifies this
      ensures Valid() && pos == old(pos) + 8 && widths == old(widths) + [8] && fields == old(fields) + [v]
    {
      Pow256Values();
      v := ReadBytes(8);
    }
  }

  ghost predicate AtStart(c: Cursor)
    reads c
  {
    c.Valid() && c.widths == [] && c.pos == 0
  }

  lemma BodyFromFields(kind: uint8, body: Bytes, fields: seq<nat>)
    requires KnownType(kind) && Required(kind) <= |body|
    requires Size(Widths(kind)) <= |body| && fields == DecodeFields(Big, body, Widths(kind))
    ensures Fit(fields, Widths(kind)) && ParseBody(kind, body) == EventOf(kind, fields)
  {
    DecodedFit(Big, body, Widths(kind));
  }

  method ReadTimestamp(c: Cursor) returns (timestamp: uint64)
    requires AtStart(c) && |c.data| >= 6
    modifies c
    ensures c.Valid() && c.pos == 6 && c.widths == [2, 4] && |c.fields| == 2
    ensures timestamp == Stamp(c.fields[0], c.fields[1])
  {
    var high := c.ReadU16();
    var low := c.ReadU32();
    timestamp := Stamp(high, low);
  }

  /** A side byte that names no side settles the outcome before the later fields are read. */
  lemma BadSide(kind: uint8, body: Bytes, early: seq<nat>)
    requires (kind == ADD || kind == ADD_MPID) && Required(kind) <= |body|
    requires Size([2, 4, 8, 1]) <= |body| && early == DecodeFields(Big, body, [2, 4, 8, 1])
    requires 0 <= early[3] < 256 && SideOfByte(early[3]).Err?
    ensures ParseBody(kind, body) == Err(SideOfByte(early[3]).error)
  {
    hide DecodeFields, Size, Fit;
    WidthsFit(kind);
    var later := Widths(kind)[4..];
    assert Widths(kind) == [2, 4, 8, 1] + later;
    SizeConcat([2, 4, 8, 1], later);
    DecodeConcat(Big, body, [2, 4, 8, 1], later);
    BodyFromFields(kind, body, DecodeFields(Big, body, Widths(kind)));
  }

  lemma ShortBody(kind: uint8, body: Bytes)
    requires KnownType(kind) && |body| < Required(kind)
    ensures ParseBody(kind, body) == Err(InsufficientData(Required(kind), |body|))
  {
  }

  method ParseAddOrder(c: Cursor, withMpid: bool) returns (r: ParseResult)
    requires AtStart(c)
    modifies c
    ensures r == ParseBody(if withMpid then ADD_MPID else ADD, c.data)
  {
    hide Size, DecodeFields, ParseBody, Fit;
    ghost var kind: uint8 := if withMpid then ADD_MPID else ADD;
    var expected := if withMpid then 36 else 32;
    var remaining := |c.data| - c.pos;
    if remaining < expected {
      ShortBody(kind, c.data);
      return Err(InsufficientData(expected, remaining));
    }
    var timestamp := ReadTimestamp(c);
    var orderRef := c.ReadU64();
    var buySell := c.ReadU8();
    var side := SideOfByte(buySell);
    if side.Err? {
      assert c.widths == [2, 4, 8, 1];
      BadSide(kind, c.data, c.fields);
      return Err(side.error);
    }
    var shares := c.ReadU32();
    var stock := c.ReadU64();
    var price := c.ReadU32();
    if withMpid {
      var mpid := c.ReadU32();
      assert c.widths == Widths(ADD_MPID);
      BodyFromFields(ADD_MPID, c.data, c.fields);
      r := Ok(AddOrderMpid(timestamp, orderRef, side.value, shares, stock, price, mpid));
    } else {
      assert c.widths == Widths(ADD);
      BodyFromFields(ADD, c.data, c.fields);
      r := Ok(AddOrder(timestamp, orderRef, side.value, shares, stock, price));
    }
  }

  method ParseOrderExecuted(c: Cursor, withPrice: bool) returns (r: ParseResult)
    requires AtStart(c)
    modifies c
    ensures r == ParseBody(if withPrice then EXECUTED_PRICE else EXECUTED, c.data)
  {
    hide Size, DecodeFields, ParseBody, Fit;
    var expected := if withPrice then 31 else 26;
    var remaining := |c.data| - c.pos;
    if remaining < expected {
      ShortBody(if withPrice then EXECUTED_PRICE else EXECUTED, c.data);
      return Err(InsufficientData(expected, remaining));
    }
    var timestamp := ReadTimestamp(c);
    var orderRef := c.ReadU64();
    var shares := c.ReadU32();
    var matchNumber := c.ReadU64();
    if withPrice {
      var printable := c.ReadU8();
      var price := c.ReadU32();
      assert c.widths == Widths(EXECUTED_PRICE);
      BodyFromFields(EXECUTED_PRICE, c.data, c.fields);
      r := Ok(OrderExecutedPrice(timestamp, orderRef, shares, matchNumber, printable == YES_CODE, price));
    } else {
      assert c.widths == Widths(EXECUTED);
      BodyFromFields(EXECUTED, c.data, c.fields);
      r := Ok(OrderExecuted(timestamp, orderRef, shares, matchNumber));
    }
  }

  method ParseOrderCancel(c: Cursor) returns (r: ParseResult)
    requires AtStart(c)
    modifies c
    ensures r == ParseBody(CANCEL, c.data)
  {
    hide Size, DecodeFields, ParseBody, Fit;
    var remaining := |c.data| - c.pos;
    if remaining < 22 {
      ShortBody(CANCEL, c.data);
      return Err(InsufficientData(22, remaining));
    }
    var timestamp := ReadTimestamp(c);
    var orderRef := c.ReadU64();
    var shares := c.ReadU32();
    assert c.widths == Widths(CANCEL);
    BodyFromFields(CANCEL, c.data, c.fields);
    r := Ok(OrderCancel(timestamp, orderRef, shares));
  }

  method ParseOrderDelete(c: Cursor) returns (r: ParseResult)
    requires AtStart(c)
    modifies c
    ensures r == ParseBody(DELETE, c.data)
  {
    hide Size, DecodeFields, ParseBody, Fit;
    var remaining := |c.data| - c.pos;
    if remaining < 18 {
      ShortBody(DELETE, c.data);
      return Err(InsufficientData(18, remaining));
    }
    var timestamp := ReadTimestamp(c);
    var orderRef := c.ReadU64();
    assert c.widths == Widths(DELETE);
    BodyFromFields(DELETE, c.data, c.fields);
    r := Ok(OrderDelete(timestamp, orderRef));
  }

  method ParseOrderReplace(c: Cursor) returns (r: ParseResult)
    requires AtStart(c)
    modifies c
    ensures r == ParseBody(REPLACE, c.data)
  {
    hide Size, DecodeFields, ParseBody, Fit;
    var remaining := |c.data| - c.pos;
    if remaining < 34 {
      ShortBody(REPLACE, c.data);
      return Err(InsufficientData(34, remaining));
    }
    var timestamp := ReadTimestamp(c);
    var orderRef := c.ReadU64();
    var newOrderRef := c.ReadU64();
    var shares := c.ReadU32();
    var price := c.ReadU32();
    assert c.widths == Widths(REPLACE);
    BodyFromFields(REPLACE, c.data, c.fields);
    r := Ok(OrderReplace(timestamp, orderRef, newOrderRef, shares, price));
  }

  method ParseStockDirectory(c: Cursor) returns (r: ParseResult)
    requires AtStart(c)
    modifies c
    ensures r == ParseBody(DIRECTORY, c.data)
  {
    hide Size, DecodeFields, ParseBody, Fit;
    var remaining := |c.data| - c.pos;
    if remaining < 39 {
      ShortBody(DIRECTORY, c.data);
      return Err(InsufficientData(39, remaining));
    }
    var timestamp := ReadTimestamp(c);
    var stock := c.ReadU64();
    var marketCategory := c.ReadU8();
    var financialStatus := c.ReadU8();
    var roundLotSize := c.ReadU32();
    var roundLotsOnly := c.ReadU8();
    var issueClassification := c.ReadU8();
    assert c.widths == Widths(DIRECTORY);
    BodyFromFields(DIRECTORY, c.data, c.fields);
    r := Ok(StockDirectory(timestamp, stock, marketCategory, financialStatus, roundLotSize,
                           roundLotsOnly == YES_CODE, issueClassification));
  }

  method ParseSystemEvent(c: Cursor) returns (r: ParseResult)
    requires AtStart(c)
    modifies c
    ensures r == ParseBody(SYSTEM, c.data)
  {
    hide Size, DecodeFields, ParseBody, Fit;
    var remaining := |c.data| - c.pos;
    if remaining < 11 {
      ShortBody(SYSTEM, c.data);
      return Err(InsufficientData(11, remaining));
    }
    var timestamp := ReadTimestamp(c);
    var eventCode := c.ReadU8();
    assert c.widths == Widths(SYSTEM);
    BodyFromFields(SYSTEM, c.data, c.fields);
    r := Ok(SystemEvent(timestamp, eventCode));
  }

  /** Reads every message, on any bytes, exactly as its field layout says. */
  method Parse(data: Bytes) returns (r: ParseResult)
    ensures r == ParseMessage(data)
  {
    hide Size, DecodeFields;
    if |data| < 3 {
      return Err(InsufficientData(3, |data|));
    }
    var kind := data[2];
    var c := new Cursor(data[3..]);
    if kind == ADD { r := ParseAddOrder(c, false); }
    else if kind == ADD_MPID { r := ParseAddOrder(c, true); }
    else if kind == EXECUTED { r := ParseOrderExecuted(c, false); }
    else if kind == EXECUTED_PRICE { r := ParseOrderExecuted(c, true); }
    else if kind == CANCEL { r := ParseOrderCancel(c); }
    else if kind == DELETE { r := ParseOrderDelete(c); }
    else if kind == REPLACE { r := ParseOrderReplace(c); }
    else if kind == DIRECTORY { r := ParseStockDirectory(c); }
    else if kind == SYSTEM { r := ParseSystemEvent(c); }
    else { r := Err(InvalidMessageType(kind)); }
  }

  /** The iterator over a packet's messages. */
  class PacketReader {
    const packet: Bytes
    var offset: nat

    ghost predicate Valid()
      reads this
    {
      offset <= |packet|
    }

    /** What the iterator has still to yield. */
    ghost function Ahead(): seq<ParseResult>
      requires Valid()
      reads this
    {
      ParsePacket(packet[offset..])
    }

    constructor (packet: Bytes)
      ensures Valid() && this.packet == packet && Ahead() == ParsePacket(packet)
    {
      this.packet := packet;
      offset := 0;
    }

    method Next() returns (item: Option<ParseResult>)
      requires Valid()
      modifies this
      ensures Valid() && offset >= old(offset)
      ensures item.None? ==> old(Ahead()) == [] && Ahead() == []
      ensures item.Some? ==> old(Ahead()) == [item.value] + Ahead() && offset > old(offset)
    {
      hide ParseMessage;
      if offset + 2 > |packet| {
        return None;
      }
      var len := FrameLength(packet[offset..]);
      if len < 2 || offset + 2 + len > |packet| {
        offset := |packet|;
        return None;
      }
      var message := packet[offset..offset + 2 + len];
      assert packet[offset..][..2 + len] == message;
      assert packet[offset..][2 + len..] == packet[offset + 2 + len..];
      offset := offset + 2 + len;
      var r := Parse(message);
      item := Some(r);
    }
  }

  /** The items of a packet from the one in hand on. */
  function InHand(item: Option<ParseResult>, ahead: seq<ParseResult>): seq<ParseResult> {
    match item
    case None => []
    case Some(r) => [r] + ahead
  }

  ghost predicate Consumed(all: seq<ParseResult>, events: seq<ItchEvent>, errors: nat, left: seq<ParseResult>) {
    Accepted(all) == events + Accepted(left) && Rejected(all) == errors + Rejected(left)
  }

  lemma ConsumeOne(all: seq<ParseResult>, events: seq<ItchEvent>, errors: nat, r: ParseResult, ahead: seq<ParseResult>)
    requires Consumed(all, events, errors, [r] + ahead)
    ensures match r
      case Ok(event) => Consumed(all, events + [event], errors, ahead)
      case Err(_) => Consumed(all, events, errors + 1, ahead)
  {
  }

  lemma AllConsumed(all: seq<ParseResult>, events: seq<ItchEvent>, errors: nat)
    requires Consumed(all, events, errors, [])
    ensures events == Accepted(all) && errors == Rejected(all)
  {
  }

  lemma NothingConsumed(all: seq<ParseResult>)
    ensures Consumed(all, [], 0, all)
  {
  }

  /** Drains a packet: the events to enqueue, and how many messages were only reported. */
  method ConsumePacket(packet: Bytes) returns (events: seq<ItchEvent>, errors: nat)
    ensures events == Accepted(ParsePacket(packet))
    ensures errors == Rejected(ParsePacket(packet))
  {
    hide ParsePacket, Consumed;
    events, errors := [], 0;
    var reader := new PacketReader(packet);
    ghost var all := ParsePacket(packet);
    var item := reader.Next();
    assert Consumed(all, [], 0, InHand(item, reader.Ahead())) by { NothingConsumed(all); }
    while item.Some?
      invariant reader.Valid() && fresh(reader) && reader.packet == packet
      invariant Consumed(all, events, errors, InHand(item, reader.Ahead()))
      decreases item.Some?, |packet| - reader.offset
    {
      ConsumeOne(all, events, errors, item.value, reader.Ahead());
      match item.value {
        case Ok(event) => events := events + [event];
        case Err(_) => errors := errors + 1;
      }
      item := reader.Next();
    }
    AllConsumed(all, events, errors);
  }
}
