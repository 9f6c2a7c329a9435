/** The bytes the broadcaster sends in numerals: the type byte and length of each frame, and
    where each field of its record lies. Numbers are little-endian. */
module WireLayouts {
  import opened Words
  import opened Bytes
  import opened Books
  import opened OptionTypes
  import opened Wire

  // ---------------------------------------------------------------- fields of eight bytes

  lemma EightsUpTo(n: nat, i: nat)
    requires i < n
    ensures Eights(n)[..i] == Eights(i) && Eights(n)[i] == 8
  {
  }

  lemma EightOf(s: Bytes, n: nat, i: nat)
    requires i < n && |s| == 8 * n
    ensures Size(Eights(n)) == |s| && DecodeFields(Little, s, Eights(n))[i] == FromBytes(Little, s[8 * i..8 * i + 8])
  {
    hide FromBytes, DecodeFields, Size, Eights;
    EightsUpTo(n, i);
    SizeEights(i);
    SizeEights(n);
    FieldAt(Little, s, Eights(n), i, 8 * i);
  }

  lemma EightAt(s: Bytes, values: seq<nat>, i: nat)
    requires i < |values| && forall j :: 0 <= j < |values| ==> values[j] < TWO_64
    requires s == EncodeFields(Little, values, Eights(|values|))
    ensures |s| == 8 * |values| && FromBytes(Little, s[8 * i..8 * i + 8]) == values[i]
  {
    hide FromBytes, DecodeFields, EncodeFields, Size, Eights;
    FieldsRoundTrip(values);
    EightOf(s, |values|, i);
  }

  /** The length field: two bytes. */
  lemma LengthBytes(n: nat)
    ensures FromBytes(Little, ToBytes(Little, n % 0x1_0000, 2)) == n % 0x1_0000
  {
    Pow256Values();
    BytesRoundTrip(Little, n % 0x1_0000, 2);
  }

  // ---------------------------------------------------------------- spot updates

  lemma SpotField(u: BboUpdate, i: nat)
    requires i < 27
    ensures |SpotFrame(u)| == 219
    ensures FromBytes(Little, SpotFrame(u)[3 + 8 * i..11 + 8 * i]) == BboFields(u)[i]
  {
    hide FromBytes, ToBytes, EncodeFields, LevelFields;
    LevelFieldsFit(u.topBids, WIRE_LEVELS);
    LevelFieldsFit(u.topAsks, WIRE_LEVELS);
    EightAt(BboPayload(u), BboFields(u), i);
    assert SpotFrame(u)[3 + 8 * i..11 + 8 * i] == BboPayload(u)[8 * i..8 * i + 8];
  }

  lemma SpotHeader(u: BboUpdate)
    ensures |SpotFrame(u)| == 219 && SpotFrame(u)[0] == 0 && SpotFrame(u)[1] == 216 && SpotFrame(u)[2] == 0
  {
    hide BboPayload;
    assert ToBytes(Little, 0, 1) == [0];
    assert ToBytes(Little, 216, 2) == [216, 0];
  }

  lemma SpotHead(u: BboUpdate)
    ensures BboFields(u)[..7]
         == [u.stock, u.timestamp, u.seqNum, u.bbo.bidPrice, u.bbo.bidVolume, u.bbo.askPrice, u.bbo.askVolume]
  {
    hide LevelFields;
  }

  /** A spot update: type 0, the length 216 of what follows, and seven numbers. */
  lemma SpotLayout(u: BboUpdate)
    ensures var f := SpotFrame(u);
      && |f| == 219 && f[0] == 0 && f[1] == 216 && f[2] == 0
      && FromBytes(Little, f[3..11]) == u.stock
      && FromBytes(Little, f[11..19]) == u.timestamp
      && FromBytes(Little, f[19..27]) == u.seqNum
      && FromBytes(Little, f[27..35]) == u.bbo.bidPrice
      && FromBytes(Little, f[35..43]) == u.bbo.bidVolume
      && FromBytes(Little, f[43..51]) == u.bbo.askPrice
      && FromBytes(Little, f[51..59]) == u.bbo.askVolume
  {
    hide SpotFrame, FromBytes, BboFields;
    SpotHeader(u);
    SpotHead(u);
    SpotField(u, 0);
    SpotField(u, 1);
    SpotField(u, 2);
    SpotField(u, 3);
    SpotField(u, 4);
    SpotField(u, 5);
    SpotField(u, 6);
  }

  /** Then five bid levels and five ask levels, price and volume, zeros where there is none. */
  lemma SpotLevelLayout(u: BboUpdate, i: nat)
    requires i < 5
    ensures |SpotFrame(u)| == 219
    ensures var f := SpotFrame(u);
      && FromBytes(Little, f[59 + 16 * i..67 + 16 * i]) == (if i < |u.topBids| then u.topBids[i].price else 0)
      && FromBytes(Little, f[67 + 16 * i..75 + 16 * i]) == (if i < |u.topBids| then u.topBids[i].volume else 0)
      && FromBytes(Little, f[139 + 16 * i..147 + 16 * i]) == (if i < |u.topAsks| then u.topAsks[i].price else 0)
      && FromBytes(Little, f[147 + 16 * i..155 + 16 * i]) == (if i < |u.topAsks| then u.topAsks[i].volume else 0)
  {
    hide SpotFrame, FromBytes, LevelFields;
    LevelFieldsAt(u.topBids, WIRE_LEVELS, i);
    LevelFieldsAt(u.topAsks, WIRE_LEVELS, i);
    SpotField(u, 7 + 2 * i);
    SpotField(u, 8 + 2 * i);
    SpotField(u, 17 + 2 * i);
    SpotField(u, 18 + 2 * i);
  }

  // ---------------------------------------------------------------- option snapshots

  lemma SnapshotParts(a: Snapshot)
    ensures var f := SnapshotFrame(a);
      && |f| == 53 + 121 * |a.contracts|
      && f[1..3] == ToBytes(Little, (53 + 121 * |a.contracts|) % 0x1_0000, 2)
      && f[3..51] == EncodeFields(Little, SnapshotFields(a), Eights(6))
      && f[51..53] == ToBytes(Little, |a.contracts| % 0x1_0000, 2)
      && f[53..] == ContractsBytes(a.contracts)
  {
    hide ToBytes, EncodeFields, ContractsBytes, SnapshotFields;
    SizeEights(6);
  }

  lemma SliceOfSlice(s: Bytes, from: nat, to: nat, a: nat, b: nat)
    requires from <= to <= |s| && a <= b <= to - from
    ensures s[from..to][a..b] == s[from + a..from + b]
  {
    var middle := s[from..to];
    forall k | 0 <= k < b - a ensures middle[a..b][k] == s[from + a..from + b][k] {
      assert middle[a + k] == s[from + a + k];
    }
  }

  lemma SnapshotField(a: Snapshot, i: nat)
    requires i < 6
    ensures |SnapshotFrame(a)| >= 53
    ensures FromBytes(Little, SnapshotFrame(a)[3 + 8 * i..11 + 8 * i]) == SnapshotFields(a)[i]
  {
    hide SnapshotFrame, FromBytes, ToBytes, EncodeFields, ContractsBytes;
    SnapshotParts(a);
    EightAt(SnapshotFrame(a)[3..51], SnapshotFields(a), i);
    SliceOfSlice(SnapshotFrame(a), 3, 51, 8 * i, 8 * i + 8);
  }

  lemma SnapshotType(a: Snapshot)
    ensures SnapshotFrame(a)[0] == 1
  {
  }

  /** An option snapshot: type 1, the length of the whole frame, six numbers and the count of
      contracts, each of 121 bytes. Length and count are cut to 16 bits. */
  lemma SnapshotLayout(a: Snapshot)
    ensures var f := SnapshotFrame(a);
      && |f| == 53 + 121 * |a.contracts| && f[0] == 1
      && FromBytes(Little, f[1..3]) == |f| % 0x1_0000
      && FromBytes(Little, f[3..11]) == a.underlying
      && FromBytes(Little, f[11..19]) == a.spot.bidPrice
      && FromBytes(Little, f[19..27]) == a.spot.bidVolume
      && FromBytes(Little, f[27..35]) == a.spot.askPrice
      && FromBytes(Little, f[35..43]) == a.spot.askVolume
      && FromBytes(Little, f[43..51]) == a.spotTimestamp
      && FromBytes(Little, f[51..53]) == |a.contracts| % 0x1_0000
  {
    hide SnapshotFrame, FromBytes, ToBytes, EncodeFields, ContractsBytes;
    SnapshotType(a);
    SnapshotParts(a);
    LengthBytes(53 + 121 * |a.contracts|);
    LengthBytes(|a.contracts|);
    SnapshotField(a, 0);
    SnapshotField(a, 1);
    SnapshotField(a, 2);
    SnapshotField(a, 3);
    SnapshotField(a, 4);
    SnapshotField(a, 5);
  }

  lemma {:induction false} ContractAt(cs: seq<ContractSnapshot>, i: nat)
    requires i < |cs|
    ensures ContractsBytes(cs)[121 * i..121 * i + 121] == ContractBytes(cs[i])
    decreases |cs|
  {
    hide ContractBytes;
    var k := |cs| - 1;
    if i < k {
      ContractAt(cs[..k], i);
      assert ContractsBytes(cs)[121 * i..121 * i + 121] == ContractsBytes(cs[..k])[121 * i..121 * i + 121];
    } else {
      assert ContractsBytes(cs)[121 * i..] == ContractBytes(cs[i]);
    }
  }

  lemma ContractField(c: ContractSnapshot, i: nat, start: nat)
    requires i < 14 && start == Size(CONTRACT_WIDTHS[..i])
    ensures start + CONTRACT_WIDTHS[i] == Size(CONTRACT_WIDTHS[..i + 1]) <= 121
    ensures FromBytes(Little, ContractBytes(c)[start..start + CONTRACT_WIDTHS[i]]) == ContractFields(c)[i]
  {
    hide FromBytes, DecodeFields, EncodeFields, Size, ContractFields;
    ContractWidths();
    ContractFieldsFit(c);
    DecodeEncode(Little, ContractFields(c), CONTRACT_WIDTHS, Zeros(20));
    FieldAt(Little, ContractBytes(c), CONTRACT_WIDTHS, i, start);
  }

  lemma NoFields()
    ensures Size(CONTRACT_WIDTHS[..0]) == 0
  {
  }

  lemma ContractPadding(c: ContractSnapshot)
    ensures forall k :: 101 <= k < 121 ==> ContractBytes(c)[k] == 0
  {
    hide EncodeFields;
    ContractWidths();
  }

  lemma OneByte(s: Bytes, k: nat)
    requires k < |s|
    ensures FromBytes(Little, s[k..k + 1]) == s[k]
  {
    assert s[k..k + 1] == [s[k]];
  }

  /** A contract: its expiry, strike and type (0 a call, 1 a put), its quotes and the seven
      computed numbers, the implied volatility first and the price last; then 20 zeros. */
  lemma ContractLayout(c: ContractSnapshot)
    ensures var s := ContractBytes(c);
      && |s| == 121
      && FromBytes(Little, s[0..4]) == c.contract.key.expiryDate
      && FromBytes(Little, s[4..12]) == c.contract.key.strikePrice
      && s[12] == (if c.contract.key.optionType == Call then 0 else 1)
      && FromBytes(Little, s[13..21]) == c.bbo.bidPrice
      && FromBytes(Little, s[21..29]) == c.bbo.bidVolume
      && FromBytes(Little, s[29..37]) == c.bbo.askPrice
      && FromBytes(Little, s[37..45]) == c.bbo.askVolume
      && FromBytes(Little, s[45..53]) == c.pricing.impliedVolatility
      && FromBytes(Little, s[53..61]) == c.pricing.delta
      && FromBytes(Little, s[61..69]) == c.pricing.gamma
      && FromBytes(Little, s[69..77]) == c.pricing.vega
      && FromBytes(Little, s[77..85]) == c.pricing.theta
      && FromBytes(Little, s[85..93]) == c.pricing.rho
      && FromBytes(Little, s[93..101]) == c.pricing.price
      && forall k :: 101 <= k < 121 ==> s[k] == 0
  {
    hide FromBytes, ContractBytes, Size;
    NoFields();
    ContractField(c, 0, 0);
    ContractField(c, 1, 4);
    ContractField(c, 2, 12);
    ContractField(c, 3, 13);
    ContractField(c, 4, 21);
    ContractField(c, 5, 29);
    ContractField(c, 6, 37);
    ContractField(c, 7, 45);
    ContractField(c, 8, 53);
    ContractField(c, 9, 61);
    ContractField(c, 10, 69);
    ContractField(c, 11, 77);
    ContractField(c, 12, 85);
    ContractField(c, 13, 93);
    OneByte(ContractBytes(c), 12);
    ContractPadding(c);
  }

  /** The i-th contract of a snapshot lies 121 bytes behind the one before it. */
  lemma ContractInSnapshot(a: Snapshot, i: nat)
    requires i < |a.contracts|
    ensures |SnapshotFrame(a)| >= 53 + 121 * i + 121
    ensures SnapshotFrame(a)[53 + 121 * i..53 + 121 * i + 121] == ContractBytes(a.contracts[i])
  {
    hide SnapshotFrame, ContractsBytes, ContractBytes, ToBytes, EncodeFields;
    SnapshotParts(a);
    ContractAt(a.contracts, i);
    assert SnapshotFrame(a)[53 + 121 * i..53 + 121 * i + 121] == SnapshotFrame(a)[53..][121 * i..121 * i + 121];
  }

  lemma {:induction false} UpdateAt(us: seq<BboUpdate>, i: nat)
    requires i < |us|
    ensures |SpotFrames(us)| == 219 * |us|
    ensures SpotFrames(us)[219 * i..219 * i + 219] == SpotFrame(us[i])
    decreases |us|
  {
    hide SpotFrame;
    var k := |us| - 1;
    SpotHeader(us[k]);
    if k > 0 {
      UpdateAt(us[..k], if i < k then i else 0);
    }
    if i < k {
      assert SpotFrames(us)[219 * i..219 * i + 219] == SpotFrames(us[..k])[219 * i..219 * i + 219];
    } else {
      assert SpotFrames(us)[219 * i..] == SpotFrame(us[i]);
    }
  }

  /** A batch is its updates, 219 bytes each, and then its snapshots. */
  lemma BatchLayout(us: seq<BboUpdate>, snaps: seq<Snapshot>, i: nat)
    requires i < |us|
    ensures |EncodeBatch(us, snaps)| >= 219 * |us|
    ensures EncodeBatch(us, snaps)[219 * i..219 * i + 219] == SpotFrame(us[i])
    ensures EncodeBatch(us, snaps)[219 * |us|..] == SnapshotFrames(snaps)
  {
    hide SpotFrame, SpotFrames, SnapshotFrames;
    UpdateAt(us, i);
    assert EncodeBatch(us, snaps)[219 * i..219 * i + 219] == SpotFrames(us)[219 * i..219 * i + 219];
  }

  /** Equal bytes, equal contracts: everything the record carries can be told from its bytes. */
  lemma SameBytesSameContract(c: ContractSnapshot, d: ContractSnapshot)
    requires ContractBytes(c) == ContractBytes(d)
    ensures c.contract.key.expiryDate == d.contract.key.expiryDate
    ensures c.contract.key.strikePrice == d.contract.key.strikePrice
    ensures c.contract.key.optionType == d.contract.key.optionType
    ensures c.bbo == d.bbo && c.pricing == d.pricing
  {
    hide ContractBytes, FromBytes;
    ContractLayout(c);
    ContractLayout(d);
  }

  /** The same for spot updates, of whose levels five a side are carried. */
  lemma SameBytesSameUpdate(u: BboUpdate, v: BboUpdate, i: nat)
    requires SpotFrame(u) == SpotFrame(v) && i < 5
    ensures u.stock == v.stock && u.timestamp == v.timestamp && u.seqNum == v.seqNum && u.bbo == v.bbo
    ensures i < |u.topBids| && i < |v.topBids| ==>
      u.topBids[i].price == v.topBids[i].price && u.topBids[i].volume == v.topBids[i].volume
    ensures i < |u.topAsks| && i < |v.topAsks| ==>
      u.topAsks[i].price == v.topAsks[i].price && u.topAsks[i].volume == v.topAsks[i].volume
  {
    hide SpotFrame, FromBytes;
    SpotLayout(u);
    SpotLayout(v);
    SpotLevelLayout(u, i);
    SpotLevelLayout(v, i);
  }
}
