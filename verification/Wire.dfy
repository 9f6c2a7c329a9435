/** The outgoing byte stream: what the broadcaster encodes, and a decoder that needs only the
    type and length fields to recover every message. */
module Wire {
  import opened Words
  import opened Bytes
  import opened Levels
  import opened Books
  import opened OptionTypes

  const SPOT_BBO: uint8 := 0
  const OPTION_SNAPSHOT: uint8 := 1
  const BBO_SIZE: nat := 216
  const CONTRACT_SIZE: nat := 121
  const HEADER_SIZE: nat := 53
  const FIELD_BYTES: nat := 101
  const WIRE_LEVELS: nat := 5
  const CONTRACT_WIDTHS: seq<nat> := [4, 8, 1, 8, 8, 8, 8, 8, 8, 8, 8, 8, 8, 8]

  /** A computed number as the eight bytes it is carried in. */
  type Bits = uint64

  type Snapshot = AggregatedOptionSnapshot<Bits>

  type ContractSnapshot = OptionContractSnapshot<Bits>

  function Eights(n: nat): (s: seq<nat>)
    ensures |s| == n
  {
    seq(n, _ => 8)
  }

  lemma {:induction false} SizeEights(n: nat)
    ensures Size(Eights(n)) == 8 * n
  {
    if n > 0 {
      assert Eights(n)[1..] == Eights(n - 1);
      SizeEights(n - 1);
    }
  }

  lemma FitEights(values: seq<nat>)
    requires forall i :: 0 <= i < |values| ==> values[i] < TWO_64
    ensures Fit(values, Eights(|values|))
  {
  }

  // ---------------------------------------------------------------- spot updates

  function LevelOrZero(levels: seq<PriceLevel>, i: nat): PriceLevel {
    if i < |levels| then levels[i] else PriceLevel(0, 0, 0)
  }

  /** Prices and volumes of the first n levels, padded with zeros. */
  function LevelFields(levels: seq<PriceLevel>, n: nat): (f: seq<nat>)
    ensures |f| == 2 * n
  {
    if n == 0 then []
    else LevelFields(levels, n - 1) + [LevelOrZero(levels, n - 1).price, LevelOrZero(levels, n - 1).volume]
  }

  function HeadFields(u: BboUpdate): (f: seq<nat>)
    ensures |f| == 7
  {
    [u.stock, u.timestamp, u.seqNum, u.bbo.bidPrice, u.bbo.bidVolume, u.bbo.askPrice, u.bbo.askVolume]
  }

  function BboFields(u: BboUpdate): (f: seq<nat>)
    ensures |f| == 27
  {
    HeadFields(u) + LevelFields(u.topBids, WIRE_LEVELS) + LevelFields(u.topAsks, WIRE_LEVELS)
  }

  function BboPayload(u: BboUpdate): (s: Bytes)
    ensures |s| == BBO_SIZE
  {
    SizeEights(27);
    EncodeFields(Little, BboFields(u), Eights(27))
  }

  function SpotFrame(u: BboUpdate): Bytes {
    [SPOT_BBO] + ToBytes(Little, BBO_SIZE, 2) + BboPayload(u)
  }

  // ---------------------------------------------------------------- option snapshots

  function TypeCode(t: OptionType): uint8 {
    match t
    case Call => 0
    case Put => 1
  }

  function ContractFields(c: ContractSnapshot): seq<nat> {
    [c.contract.key.expiryDate, c.contract.key.strikePrice, TypeCode(c.contract.key.optionType),
     c.bbo.bidPrice, c.bbo.bidVolume, c.bbo.askPrice, c.bbo.askVolume,
     c.pricing.impliedVolatility, c.pricing.delta, c.pricing.gamma, c.pricing.vega, c.pricing.theta,
     c.pricing.rho, c.pricing.price]
  }

  lemma ContractWidths()
    ensures Size(CONTRACT_WIDTHS) == FIELD_BYTES
  {
  }

  /** The fields take 101 of a contract's 121 bytes; the rest stays zero. */
  function ContractBytes(c: ContractSnapshot): (s: Bytes)
    ensures |s| == CONTRACT_SIZE
  {
    ContractWidths();
    EncodeFields(Little, ContractFields(c), CONTRACT_WIDTHS) + Zeros(CONTRACT_SIZE - FIELD_BYTES)
  }

  function ContractsBytes(cs: seq<ContractSnapshot>): (s: Bytes)
    ensures |s| == CONTRACT_SIZE * |cs|
  {
    if cs == [] then [] else ContractsBytes(cs[..|cs| - 1]) + ContractBytes(cs[|cs| - 1])
  }

  function SnapshotFields(a: Snapshot): seq<nat> {
    [a.underlying, a.spot.bidPrice, a.spot.bidVolume, a.spot.askPrice, a.spot.askVolume, a.spotTimestamp]
  }

  function SerializedSize(a: Snapshot): nat {
    HEADER_SIZE + |a.contracts| * CONTRACT_SIZE
  }

  /** The length and count fields are truncated to 16 bits. */
  function SnapshotFrame(a: Snapshot): (s: Bytes)
    ensures |s| == SerializedSize(a)
  {
    SizeEights(6);
    [OPTION_SNAPSHOT] + ToBytes(Little, SerializedSize(a) % TWO_16, 2)
    + EncodeFields(Little, SnapshotFields(a), Eights(6))
    + ToBytes(Little, |a.contracts| % TWO_16, 2) + ContractsBytes(a.contracts)
  }

  // ---------------------------------------------------------------- the decoder

  datatype SpotView = SpotView(
    stock: nat, timestamp: nat, seqNum: nat, quotes: seq<nat>, bids: seq<nat>, asks: seq<nat>)

  datatype Message =
    | Spot(view: SpotView)
    | Chain(header: seq<nat>, contracts: seq<seq<nat>>)

  function DecodeSpot(payload: Bytes): SpotView
    requires |payload| == BBO_SIZE
  {
    SizeEights(27);
    var f := DecodeFields(Little, payload, Eights(27));
    SpotView(f[0], f[1], f[2], f[3..7], f[7..17], f[17..])
  }

  function DecodeContracts(s: Bytes, n: nat): seq<seq<nat>>
    requires |s| == CONTRACT_SIZE * n
  {
    if n == 0 then []
    else
      ContractWidths();
      DecodeContracts(s[..CONTRACT_SIZE * (n - 1)], n - 1)
      + [DecodeFields(Little, s[CONTRACT_SIZE * (n - 1)..], CONTRACT_WIDTHS)]
  }

  function LengthField(s: Bytes): nat
    requires |s| >= 3
  {
    FromBytes(Little, s[1..3])
  }

  function DecodeChain(frame: Bytes): Option<Message>
    requires |frame| >= HEADER_SIZE
  {
    var count := FromBytes(Little, frame[51..53]);
    if |frame| != HEADER_SIZE + CONTRACT_SIZE * count then None
    else
      SizeEights(6);
      Some(Chain(DecodeFields(Little, frame[3..51], Eights(6)), DecodeContracts(frame[53..], count)))
  }

  /** The first message of the bytes and how many bytes it takes. The length of a spot
      update counts its payload only, that of an option snapshot the whole frame. */
  function DecodeFrame(s: Bytes): (r: Option<(Message, nat)>)
    ensures r.Some? ==> 0 < r.value.1 <= |s|
  {
    if |s| < 3 then None
    else
      var len := LengthField(s);
      if s[0] == SPOT_BBO && len == BBO_SIZE && 3 + len <= |s| then
        Some((Spot(DecodeSpot(s[3..3 + len])), 3 + len))
      else if s[0] == OPTION_SNAPSHOT && HEADER_SIZE <= len <= |s| then
        match DecodeChain(s[..len])
        case None => None
        case Some(m) => Some((m, len))
      else None
  }

  function DecodeStream(s: Bytes): Option<seq<Message>>
    decreases |s|
  {
    if s == [] then Some([])
    else
      match DecodeFrame(s)
      case None => None
      case Some((m, n)) =>
        match DecodeStream(s[n..])
        case None => None
        case Some(ms) => Some([m] + ms)
  }

  // ---------------------------------------------------------------- what is recovered

  function ViewOf(u: BboUpdate): SpotView {
    SpotView(u.stock, u.timestamp, u.seqNum,
             [u.bbo.bidPrice, u.bbo.bidVolume, u.bbo.askPrice, u.bbo.askVolume],
             LevelFields(u.topBids, WIRE_LEVELS), LevelFields(u.topAsks, WIRE_LEVELS))
  }

  function ContractViews(cs: seq<ContractSnapshot>): seq<seq<nat>> {
    if cs == [] then [] else ContractViews(cs[..|cs| - 1]) + [ContractFields(cs[|cs| - 1])]
  }

  function ChainView(a: Snapshot): Message {
    Chain(SnapshotFields(a), ContractViews(a.contracts))
  }

  lemma {:induction false} LevelFieldsFit(levels: seq<PriceLevel>, n: nat)
    ensures forall i :: 0 <= i < 2 * n ==> LevelFields(levels, n)[i] < TWO_64
  {
    if n > 0 { LevelFieldsFit(levels, n - 1); }
  }

  /** The list of levels on the wire: position i holds the i-th best, or zeros. */
  lemma {:induction false} LevelFieldsAt(levels: seq<PriceLevel>, n: nat, i: nat)
    requires i < n
    ensures LevelFields(levels, n)[2 * i] == LevelOrZero(levels, i).price
    ensures LevelFields(levels, n)[2 * i + 1] == LevelOrZero(levels, i).volume
  {
    if i < n - 1 { LevelFieldsAt(levels, n - 1, i); }
  }

  lemma FieldsRoundTrip(values: seq<nat>)
    requires forall i :: 0 <= i < |values| ==> values[i] < TWO_64
    ensures Size(Eights(|values|)) == 8 * |values|
    ensures DecodeFields(Little, EncodeFields(Little, values, Eights(|values|)), Eights(|values|)) == values
  {
    hide EncodeFields, DecodeFields, Size, Fit;
    SizeEights(|values|);
    FitEights(values);
    var s := EncodeFields(Little, values, Eights(|values|));
    DecodeEncode(Little, values, Eights(|values|), []);
    assert s + [] == s;
  }

  lemma SpotPayloadRoundTrip(u: BboUpdate)
    ensures DecodeSpot(BboPayload(u)) == ViewOf(u)
  {
    hide EncodeFields, DecodeFields, LevelFields, Eights;
    LevelFieldsFit(u.topBids, WIRE_LEVELS);
    LevelFieldsFit(u.topAsks, WIRE_LEVELS);
    FieldsRoundTrip(BboFields(u));
  }

  lemma SpotFrameDecodes(u: BboUpdate, rest: Bytes)
    ensures DecodeFrame(SpotFrame(u) + rest) == Some((Spot(ViewOf(u)), |SpotFrame(u)|))
    ensures (SpotFrame(u) + rest)[|SpotFrame(u)|..] == rest
  {
    hide DecodeSpot, BboPayload, FromBytes, ToBytes;
    var s := SpotFrame(u) + rest;
    assert s[1..3] == ToBytes(Little, BBO_SIZE, 2) && s[3..3 + BBO_SIZE] == BboPayload(u);
    Pow256Values();
    BytesRoundTrip(Little, BBO_SIZE, 2);
    SpotPayloadRoundTrip(u);
  }

  lemma ContractFieldsFit(c: ContractSnapshot)
    ensures Fit(ContractFields(c), CONTRACT_WIDTHS)
  {
    Pow256Values();
  }

  lemma {:induction false} ContractsRoundTrip(cs: seq<ContractSnapshot>)
    ensures DecodeContracts(ContractsBytes(cs), |cs|) == ContractViews(cs)
    decreases |cs|
  {
    hide EncodeFields, DecodeFields, ContractFields;
    if cs != [] {
      var init, last := cs[..|cs| - 1], cs[|cs| - 1];
      var s := ContractsBytes(cs);
      ContractsRoundTrip(init);
      assert s[..CONTRACT_SIZE * |init|] == ContractsBytes(init);
      assert s[CONTRACT_SIZE * |init|..] == ContractBytes(last);
      ContractWidths();
      ContractFieldsFit(last);
      DecodeEncode(Little, ContractFields(last), CONTRACT_WIDTHS, Zeros(CONTRACT_SIZE - FIELD_BYTES));
    }
  }

  /** A chain within its capacity never overflows the 16-bit length. */
  lemma LengthNeverTruncates(a: Snapshot)
    requires |a.contracts| <= MAX_CONTRACTS_PER_CHAIN
    ensures SerializedSize(a) < TWO_16
  {
  }

  lemma SnapshotFrameDecodes(a: Snapshot, rest: Bytes)
    requires |a.contracts| <= MAX_CONTRACTS_PER_CHAIN
    ensures DecodeFrame(SnapshotFrame(a) + rest) == Some((ChainView(a), |SnapshotFrame(a)|))
    ensures (SnapshotFrame(a) + rest)[|SnapshotFrame(a)|..] == rest
  {
    hide FromBytes, ToBytes, EncodeFields, DecodeFields, DecodeContracts, ContractsBytes, Eights;
    LengthNeverTruncates(a);
    FieldsRoundTrip(SnapshotFields(a));
    var s, n := SnapshotFrame(a) + rest, |SnapshotFrame(a)|;
    var fields := EncodeFields(Little, SnapshotFields(a), Eights(6));
    assert s[1..3] == ToBytes(Little, n, 2) && s[51..53] == ToBytes(Little, |a.contracts|, 2);
    assert s[3..51] == fields && s[53..n] == ContractsBytes(a.contracts) && s[..n] == SnapshotFrame(a);
    assert s[..n][51..53] == s[51..53] && s[..n][3..51] == s[3..51] && s[..n][53..] == s[53..n];
    Pow256Values();
    BytesRoundTrip(Little, n, 2);
    BytesRoundTrip(Little, |a.contracts|, 2);
    ContractsRoundTrip(a.contracts);
  }

  // ---------------------------------------------------------------- batches

  function SpotFrames(us: seq<BboUpdate>): Bytes {
    if us == [] then [] else SpotFrames(us[..|us| - 1]) + SpotFrame(us[|us| - 1])
  }

  function SnapshotFrames(snaps: seq<Snapshot>): Bytes {
    if snaps == [] then [] else SnapshotFrames(snaps[..|snaps| - 1]) + SnapshotFrame(snaps[|snaps| - 1])
  }

  /** One broadcast: all spot updates of the batch, then all option snapshots. */
  function EncodeBatch(us: seq<BboUpdate>, snaps: seq<Snapshot>): Bytes {
    SpotFrames(us) + SnapshotFrames(snaps)
  }

  lemma EmptyBatch()
    ensures EncodeBatch([], []) == []
  {
  }

  function SpotMessages(us: seq<BboUpdate>): (ms: seq<Message>)
    ensures |ms| == |us| && forall i :: 0 <= i < |us| ==> ms[i] == Spot(ViewOf(us[i]))
  {
    seq(|us|, i requires 0 <= i < |us| => Spot(ViewOf(us[i])))
  }

  function ChainMessages(snaps: seq<Snapshot>): (ms: seq<Message>)
    ensures |ms| == |snaps| && forall i :: 0 <= i < |snaps| ==> ms[i] == ChainView(snaps[i])
  {
    seq(|snaps|, i requires 0 <= i < |snaps| => ChainView(snaps[i]))
  }

  function BatchMessages(us: seq<BboUpdate>, snaps: seq<Snapshot>): seq<Message> {
    SpotMessages(us) + ChainMessages(snaps)
  }

  ghost predicate WithinCapacity(snaps: seq<Snapshot>) {
    forall i :: 0 <= i < |snaps| ==> |snaps[i].contracts| <= MAX_CONTRACTS_PER_CHAIN
  }

  /** s decodes to ms whatever follows it. */
  ghost predicate DecodesTo(s: Bytes, ms: seq<Message>) {
    forall rest: Bytes :: DecodeStream(s + rest) ==
      match DecodeStream(rest) case None => None case Some(more) => Some(ms + more)
  }

  lemma FrameDecodesTo(frame: Bytes, m: Message)
    requires forall rest: Bytes ::
      DecodeFrame(frame + rest) == Some((m, |frame|)) && (frame + rest)[|frame|..] == rest
    ensures DecodesTo(frame, [m])
  {
  }

  lemma DecodesConcat(a: Bytes, ms: seq<Message>, b: Bytes, ns: seq<Message>)
    requires DecodesTo(a, ms) && DecodesTo(b, ns)
    ensures DecodesTo(a + b, ms + ns)
  {
    hide DecodeStream;
    forall rest: Bytes
      ensures DecodeStream(a + b + rest) ==
        match DecodeStream(rest) case None => None case Some(more) => Some(ms + ns + more)
    {
      assert a + b + rest == a + (b + rest);
      if DecodeStream(rest).Some? {
        var more := DecodeStream(rest).value;
        assert ms + ns + more == ms + (ns + more);
      }
    }
  }

  lemma DecodesNothing()
    ensures DecodesTo([], [])
  {
    forall rest: Bytes
      ensures DecodeStream([] + rest) == match DecodeStream(rest) case None => None case Some(more) => Some([] + more)
    {
      assert [] + rest == rest;
      if DecodeStream(rest).Some? { assert [] + DecodeStream(rest).value == DecodeStream(rest).value; }
    }
  }

  lemma {:induction false} SpotFramesDecode(us: seq<BboUpdate>)
    ensures DecodesTo(SpotFrames(us), SpotMessages(us))
    decreases |us|
  {
    hide DecodesTo, DecodeFrame, SpotFrame, ViewOf;
    if us == [] {
      DecodesNothing();
    } else {
      var init, last := us[..|us| - 1], us[|us| - 1];
      SpotFramesDecode(init);
      forall rest: Bytes ensures DecodeFrame(SpotFrame(last) + rest) == Some((Spot(ViewOf(last)), |SpotFrame(last)|))
                              && (SpotFrame(last) + rest)[|SpotFrame(last)|..] == rest {
        SpotFrameDecodes(last, rest);
      }
      FrameDecodesTo(SpotFrame(last), Spot(ViewOf(last)));
      DecodesConcat(SpotFrames(init), SpotMessages(init), SpotFrame(last), [Spot(ViewOf(last))]);
      assert SpotMessages(us) == SpotMessages(init) + [Spot(ViewOf(last))];
    }
  }

  lemma {:induction false} SnapshotFramesDecode(snaps: seq<Snapshot>)
    requires WithinCapacity(snaps)
    ensures DecodesTo(SnapshotFrames(snaps), ChainMessages(snaps))
    decreases |snaps|
  {
    hide DecodesTo, DecodeFrame, SnapshotFrame, ChainView;
    if snaps == [] {
      DecodesNothing();
    } else {
      var init, last := snaps[..|snaps| - 1], snaps[|snaps| - 1];
      SnapshotFramesDecode(init);
      forall rest: Bytes
        ensures DecodeFrame(SnapshotFrame(last) + rest) == Some((ChainView(last), |SnapshotFrame(last)|))
                              && (SnapshotFrame(last) + rest)[|SnapshotFrame(last)|..] == rest {
        SnapshotFrameDecodes(last, rest);
      }
      FrameDecodesTo(SnapshotFrame(last), ChainView(last));
      DecodesConcat(SnapshotFrames(init), ChainMessages(init), SnapshotFrame(last), [ChainView(last)]);
      assert ChainMessages(snaps) == ChainMessages(init) + [ChainView(last)];
    }
  }

  /** The stream is uniquely decodable: any batch, followed by anything that decodes,
      decodes to exactly its updates and snapshots with all their fields. */
  lemma BatchDecodes(us: seq<BboUpdate>, snaps: seq<Snapshot>)
    requires WithinCapacity(snaps)
    ensures DecodesTo(EncodeBatch(us, snaps), BatchMessages(us, snaps))
    ensures DecodeStream(EncodeBatch(us, snaps)) == Some(BatchMessages(us, snaps))
  {
    hide DecodeFrame, SpotFrames, SnapshotFrames, SpotMessages, ChainMessages;
    SpotFramesDecode(us);
    SnapshotFramesDecode(snaps);
    DecodesConcat(SpotFrames(us), SpotMessages(us), SnapshotFrames(snaps), ChainMessages(snaps));
    var s, ms := EncodeBatch(us, snaps), BatchMessages(us, snaps);
    assert s + [] == s && ms + [] == ms;
  }
}
