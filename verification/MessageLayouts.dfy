/** The bytes of each message in numerals: its type byte, how long it must be, and where each
    field of its event lies. Numbers are big-endian; positions count the two length bytes. */
module MessageLayouts {
  import opened Words
  import opened Events
  import opened Bytes
  import opened Protocol

  // ---------------------------------------------------------------- fields of a body

  lemma LongEnough(data: Bytes)
    requires |data| >= 3 && KnownType(data[2]) && |data| - 3 >= Required(data[2])
    ensures Size(Widths(data[2])) <= |data[3..]|
    ensures var f := DecodeFields(Big, data[3..], Widths(data[2]));
      Fit(f, Widths(data[2])) && ParseMessage(data) == EventOf(data[2], f)
  {
    hide EventOf, Size, DecodeFields;
    WidthsFit(data[2]);
    DecodedFit(Big, data[3..], Widths(data[2]));
  }

  /** The i-th field lies at its start in the body, three bytes further in the message. */
  lemma Field(data: Bytes, widths: seq<nat>, i: nat, start: nat)
    requires |data| >= 3 && Size(widths) <= |data| - 3 && i < |widths| && start == Size(widths[..i])
    ensures start + widths[i] == Size(widths[..i + 1]) <= |data| - 3
    ensures DecodeFields(Big, data[3..], widths)[i] == FromBytes(Big, data[3 + start..3 + start + widths[i]])
  {
    hide FromBytes, DecodeFields, Size;
    FieldAt(Big, data[3..], widths, i, start);
    assert data[3..][start..start + widths[i]] == data[3 + start..3 + start + widths[i]];
  }

  lemma OneByteField(data: Bytes, k: nat)
    requires k < |data|
    ensures FromBytes(Big, data[k..k + 1]) == data[k]
  {
    assert data[k..k + 1] == [data[k]];
    FromOneByte(data[k]);
  }

  lemma NoSize()
    ensures Size([]) == 0
  {
  }

  /** The timestamp is one number of six bytes. */
  lemma Timestamp(data: Bytes, widths: seq<nat>)
    requires |data| >= 9 && Size(widths) <= |data| - 3 && |widths| >= 3 && widths[0] == 2 && widths[1] == 4
    ensures var f := DecodeFields(Big, data[3..], widths); Stamp(f[0], f[1]) == FromBytes(Big, data[3..9])
    ensures Size(widths[..2]) == 6
  {
    hide FromBytes, DecodeFields, Size, Pow256;
    assert widths[..0] == [];
    NoSize();
    Field(data, widths, 0, 0);
    Field(data, widths, 1, 2);
    Pow256Values();
    BigHalves(data[3..9], 2);
    assert data[3..9][..2] == data[3..5] && data[3..9][2..] == data[5..9];
  }

  // ---------------------------------------------------------------- the nine messages

  /** 'A', 35 bytes: an add on the side that 'B' or 'S' names. */
  lemma AddOrderLayout(data: Bytes)
    requires |data| >= 35 && data[2] == 65 && (data[17] == 66 || data[17] == 83)
    ensures ParseMessage(data).Ok? && ParseMessage(data).value.AddOrder?
    ensures var e := ParseMessage(data).value;
      && e.timestamp == FromBytes(Big, data[3..9]) && e.orderRef == FromBytes(Big, data[9..17])
      && (e.side == Buy <==> data[17] == 66) && e.shares == FromBytes(Big, data[18..22])
      && e.stock == FromBytes(Big, data[22..30]) && e.price == FromBytes(Big, data[30..34])
  {
    hide FromBytes, DecodeFields, Size, ParseMessage;
    LongEnough(data);
    var w := Widths(65);
    Timestamp(data, w);
    Field(data, w, 2, 6);
    Field(data, w, 3, 14);
    Field(data, w, 4, 15);
    Field(data, w, 5, 19);
    Field(data, w, 6, 27);
    OneByteField(data, 17);
  }

  /** 'F', 39 bytes: the same with the market participant. */
  lemma AddOrderMpidLayout(data: Bytes)
    requires |data| >= 39 && data[2] == 70 && (data[17] == 66 || data[17] == 83)
    ensures ParseMessage(data).Ok? && ParseMessage(data).value.AddOrderMpid?
    ensures var e := ParseMessage(data).value;
      && e.timestamp == FromBytes(Big, data[3..9]) && e.orderRef == FromBytes(Big, data[9..17])
      && (e.side == Buy <==> data[17] == 66) && e.shares == FromBytes(Big, data[18..22])
      && e.stock == FromBytes(Big, data[22..30]) && e.price == FromBytes(Big, data[30..34])
      && e.mpid == FromBytes(Big, data[34..38])
  {
    hide FromBytes, DecodeFields, Size, ParseMessage;
    LongEnough(data);
    var w := Widths(70);
    Timestamp(data, w);
    Field(data, w, 2, 6);
    Field(data, w, 3, 14);
    Field(data, w, 4, 15);
    Field(data, w, 5, 19);
    Field(data, w, 6, 27);
    Field(data, w, 7, 31);
    OneByteField(data, 17);
  }

  /** 'E', 29 bytes. */
  lemma OrderExecutedLayout(data: Bytes)
    requires |data| >= 29 && data[2] == 69
    ensures ParseMessage(data).Ok? && ParseMessage(data).value.OrderExecuted?
    ensures var e := ParseMessage(data).value;
      && e.timestamp == FromBytes(Big, data[3..9]) && e.orderRef == FromBytes(Big, data[9..17])
      && e.shares == FromBytes(Big, data[17..21]) && e.matchNumber == FromBytes(Big, data[21..29])
  {
    hide FromBytes, DecodeFields, Size, ParseMessage;
    LongEnough(data);
    var w := Widths(69);
    Timestamp(data, w);
    Field(data, w, 2, 6);
    Field(data, w, 3, 14);
    Field(data, w, 4, 18);
  }

  /** 'C', 34 bytes: printable only if its byte is 'Y'. */
  lemma OrderExecutedPriceLayout(data: Bytes)
    requires |data| >= 34 && data[2] == 67
    ensures ParseMessage(data).Ok? && ParseMessage(data).value.OrderExecutedPrice?
    ensures var e := ParseMessage(data).value;
      && e.timestamp == FromBytes(Big, data[3..9]) && e.orderRef == FromBytes(Big, data[9..17])
      && e.shares == FromBytes(Big, data[17..21]) && e.matchNumber == FromBytes(Big, data[21..29])
      && (e.printable <==> data[29] == 89) && e.price == FromBytes(Big, data[30..34])
  {
    hide FromBytes, DecodeFields, Size, ParseMessage;
    LongEnough(data);
    var w := Widths(67);
    Timestamp(data, w);
    Field(data, w, 2, 6);
    Field(data, w, 3, 14);
    Field(data, w, 4, 18);
    Field(data, w, 5, 26);
    Field(data, w, 6, 27);
    OneByteField(data, 29);
  }

  /** 'X', 25 bytes, of which 21 are read. */
  lemma OrderCancelLayout(data: Bytes)
    requires |data| >= 25 && data[2] == 88
    ensures ParseMessage(data).Ok? && ParseMessage(data).value.OrderCancel?
    ensures var e := ParseMessage(data).value;
      && e.timestamp == FromBytes(Big, data[3..9]) && e.orderRef == FromBytes(Big, data[9..17])
      && e.shares == FromBytes(Big, data[17..21])
  {
    hide FromBytes, DecodeFields, Size, ParseMessage;
    LongEnough(data);
    var w := Widths(88);
    Timestamp(data, w);
    Field(data, w, 2, 6);
    Field(data, w, 3, 14);
  }

  /** 'D', 21 bytes, of which 17 are read. */
  lemma OrderDeleteLayout(data: Bytes)
    requires |data| >= 21 && data[2] == 68
    ensures ParseMessage(data).Ok? && ParseMessage(data).value.OrderDelete?
    ensures var e := ParseMessage(data).value;
      e.timestamp == FromBytes(Big, data[3..9]) && e.orderRef == FromBytes(Big, data[9..17])
  {
    hide FromBytes, DecodeFields, Size, ParseMessage;
    LongEnough(data);
    var w := Widths(68);
    Timestamp(data, w);
    Field(data, w, 2, 6);
  }

  /** 'U', 37 bytes, of which 33 are read. */
  lemma OrderReplaceLayout(data: Bytes)
    requires |data| >= 37 && data[2] == 85
    ensures ParseMessage(data).Ok? && ParseMessage(data).value.OrderReplace?
    ensures var e := ParseMessage(data).value;
      && e.timestamp == FromBytes(Big, data[3..9]) && e.orderRef == FromBytes(Big, data[9..17])
      && e.newOrderRef == FromBytes(Big, data[17..25]) && e.shares == FromBytes(Big, data[25..29])
      && e.price == FromBytes(Big, data[29..33])
  {
    hide FromBytes, DecodeFields, Size, ParseMessage;
    LongEnough(data);
    var w := Widths(85);
    Timestamp(data, w);
    Field(data, w, 2, 6);
    Field(data, w, 3, 14);
    Field(data, w, 4, 22);
    Field(data, w, 5, 26);
  }

  /** 'R', 42 bytes, of which 25 are read. */
  lemma StockDirectoryLayout(data: Bytes)
    requires |data| >= 42 && data[2] == 82
    ensures ParseMessage(data).Ok? && ParseMessage(data).value.StockDirectory?
    ensures var e := ParseMessage(data).value;
      && e.timestamp == FromBytes(Big, data[3..9]) && e.stock == FromBytes(Big, data[9..17])
      && e.marketCategory == data[17] && e.financialStatus == data[18]
      && e.roundLotSize == FromBytes(Big, data[19..23]) && (e.roundLotsOnly <==> data[23] == 89)
      && e.issueClassification == data[24]
  {
    hide FromBytes, DecodeFields, Size, ParseMessage;
    LongEnough(data);
    var w := Widths(82);
    Timestamp(data, w);
    Field(data, w, 2, 6);
    Field(data, w, 3, 14);
    Field(data, w, 4, 15);
    Field(data, w, 5, 16);
    Field(data, w, 6, 20);
    Field(data, w, 7, 21);
    OneByteField(data, 17);
    OneByteField(data, 18);
    OneByteField(data, 23);
    OneByteField(data, 24);
  }

  /** 'S', 14 bytes, of which 10 are read. */
  lemma SystemEventLayout(data: Bytes)
    requires |data| >= 14 && data[2] == 83
    ensures ParseMessage(data).Ok? && ParseMessage(data).value.SystemEvent?
    ensures var e := ParseMessage(data).value;
      e.timestamp == FromBytes(Big, data[3..9]) && e.eventCode == data[9]
  {
    hide FromBytes, DecodeFields, Size, ParseMessage;
    LongEnough(data);
    var w := Widths(83);
    Timestamp(data, w);
    Field(data, w, 2, 6);
    OneByteField(data, 9);
  }

  // ---------------------------------------------------------------- everything else is rejected

  /** What is said of a message that is too short, of an unknown type, or on no side. */
  lemma RejectedMessages(data: Bytes)
    ensures |data| < 3 ==> ParseMessage(data) == Err(InsufficientData(3, |data|))
    ensures |data| >= 3 && data[2] !in {65, 70, 69, 67, 88, 68, 85, 82, 83} ==>
      ParseMessage(data) == Err(InvalidMessageType(data[2]))
    ensures 3 <= |data| < 35 && data[2] == 65 ==> ParseMessage(data) == Err(InsufficientData(32, |data| - 3))
    ensures 3 <= |data| < 39 && data[2] == 70 ==> ParseMessage(data) == Err(InsufficientData(36, |data| - 3))
    ensures 3 <= |data| < 29 && data[2] == 69 ==> ParseMessage(data) == Err(InsufficientData(26, |data| - 3))
    ensures 3 <= |data| < 34 && data[2] == 67 ==> ParseMessage(data) == Err(InsufficientData(31, |data| - 3))
    ensures 3 <= |data| < 25 && data[2] == 88 ==> ParseMessage(data) == Err(InsufficientData(22, |data| - 3))
    ensures 3 <= |data| < 21 && data[2] == 68 ==> ParseMessage(data) == Err(InsufficientData(18, |data| - 3))
    ensures 3 <= |data| < 37 && data[2] == 85 ==> ParseMessage(data) == Err(InsufficientData(34, |data| - 3))
    ensures 3 <= |data| < 42 && data[2] == 82 ==> ParseMessage(data) == Err(InsufficientData(39, |data| - 3))
    ensures 3 <= |data| < 14 && data[2] == 83 ==> ParseMessage(data) == Err(InsufficientData(11, |data| - 3))
    ensures |data| >= 35 && data[2] == 65 && data[17] !in {66, 83} ==>
      ParseMessage(data) == Err(InvalidMessageType(data[17]))
    ensures |data| >= 39 && data[2] == 70 && data[17] !in {66, 83} ==>
      ParseMessage(data) == Err(InvalidMessageType(data[17]))
  {
    hide DecodeFields, Size;
    if |data| >= 3 && KnownType(data[2]) && |data| - 3 >= Required(data[2]) {
      LongEnough(data);
      if data[2] == 65 || data[2] == 70 { SideField(data[2], data[3..]); }
    }
  }
}
