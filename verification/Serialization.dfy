/** The serializers as they run: fixed buffers filled at a moving position, and a growing
    output buffer. */
module Serialization {
  import opened Words
  import opened Bytes
  import opened Levels
  import opened Books
  import opened Wire

  /** The record written so far: the buffer up to pos holds exactly these fields. */
  ghost predicate Written(buf: array<uint8>, pos: nat, values: seq<nat>, widths: seq<nat>)
    reads buf
  {
    && |values| == |widths|
    && pos == Size(widths) <= buf.Length
    && buf[..pos] == EncodeFields(Little, values, widths)
  }

  /** Everything from pos on is still zero. */
  ghost predicate ClearAfter(buf: array<uint8>, pos: nat)
    reads buf
  {
    forall i :: pos <= i < buf.Length ==> buf[i] == 0
  }

  method PutField(buf: array<uint8>, pos: nat, v: nat, w: nat, ghost values: seq<nat>, ghost widths: seq<nat>)
    returns (next: nat, ghost values': seq<nat>, ghost widths': seq<nat>)
    requires Written(buf, pos, values, widths) && pos + w <= buf.Length
    modifies buf
    ensures values' == values + [v] && widths' == widths + [w]
    ensures next == pos + w && Written(buf, next, values', widths')
    ensures old(ClearAfter(buf, pos)) ==> ClearAfter(buf, next)
  {
    var bytes := ToBytes(Little, v, w);
    forall i | 0 <= i < w {
      buf[pos + i] := bytes[i];
    }
    next, values', widths' := pos + w, values + [v], widths + [w];
    EncodeAppend(Little, values, widths, v, w);
    SizeConcat(widths, [w]);
    assert buf[..next] == buf[..pos] + bytes;
  }

  lemma EightsAppend(n: nat)
    ensures Eights(n) + [8] == Eights(n + 1)
  {
  }

  method PutU64(buf: array<uint8>, pos: nat, v: uint64, ghost values: seq<nat>)
    returns (next: nat, ghost values': seq<nat>)
    requires Written(buf, pos, values, Eights(|values|)) && pos + 8 <= buf.Length
    modifies buf
    ensures values' == values + [v]
    ensures next == pos + 8 && Written(buf, next, values', Eights(|values'|))
  {
    ghost var widths;
    next, values', widths := PutField(buf, pos, v, 8, values, Eights(|values|));
    EightsAppend(|values|);
  }

  method PutLevels(buf: array<uint8>, pos: nat, levels: seq<PriceLevel>, ghost values: seq<nat>)
    returns (next: nat, ghost values': seq<nat>)
    requires Written(buf, pos, values, Eights(|values|)) && pos + 16 * WIRE_LEVELS <= buf.Length
    modifies buf
    ensures values' == values + LevelFields(levels, WIRE_LEVELS)
    ensures next == pos + 16 * WIRE_LEVELS && Written(buf, next, values', Eights(|values'|))
  {
    hide Written;
    next, values' := pos, values;
    for i := 0 to WIRE_LEVELS
      invariant next == pos + 16 * i
      invariant values' == values + LevelFields(levels, i)
      invariant Written(buf, next, values', Eights(|values'|))
    {
      var level := if i < |levels| then levels[i] else PriceLevel(0, 0, 0);
      next, values' := PutU64(buf, next, level.price, values');
      next, values' := PutU64(buf, next, level.volume, values');
    }
  }

  lemma NothingWritten(buf: array<uint8>)
    ensures Written(buf, 0, [], Eights(0)) && Written(buf, 0, [], [])
  {
  }

  method PutHead(u: BboUpdate, buf: array<uint8>) returns (pos: nat, ghost f: seq<nat>)
    requires buf.Length == BBO_SIZE
    modifies buf
    ensures pos == 56 && f == HeadFields(u) && Written(buf, pos, f, Eights(|f|))
  {
    hide Written, Eights;
    NothingWritten(buf);
    pos, f := PutU64(buf, 0, u.stock, []);
    pos, f := PutU64(buf, pos, u.timestamp, f);
    pos, f := PutU64(buf, pos, u.seqNum, f);
    pos, f := PutU64(buf, pos, u.bbo.bidPrice, f);
    pos, f := PutU64(buf, pos, u.bbo.bidVolume, f);
    pos, f := PutU64(buf, pos, u.bbo.askPrice, f);
    pos, f := PutU64(buf, pos, u.bbo.askVolume, f);
  }

  lemma AllWritten(buf: array<uint8>, pos: nat, values: seq<nat>, widths: seq<nat>)
    requires Written(buf, pos, values, widths) && |values| == |widths|
    ensures pos <= buf.Length && buf[..pos] == EncodeFields(Little, values, widths)
    ensures pos == buf.Length ==> buf[..] == EncodeFields(Little, values, widths)
  {
  }

  method SerializeBbo(u: BboUpdate, buf: array<uint8>)
    requires buf.Length == BBO_SIZE
    modifies buf
    ensures buf[..] == BboPayload(u)
  {
    hide Written, HeadFields, LevelFields, Eights;
    var pos, f := PutHead(u, buf);
    pos, f := PutLevels(buf, pos, u.topBids, f);
    pos, f := PutLevels(buf, pos, u.topAsks, f);
    AllWritten(buf, pos, f, Eights(27));
  }

  lemma ContractWritten(c: ContractSnapshot, buf: array<uint8>, pos: nat, f: seq<nat>, w: seq<nat>)
    requires buf.Length == CONTRACT_SIZE && Written(buf, pos, f, w) && ClearAfter(buf, pos)
    requires pos == FIELD_BYTES && f == ContractFields(c) && w == CONTRACT_WIDTHS
    ensures buf[..] == ContractBytes(c)
  {
    hide EncodeFields, Size, ContractFields;
    assert buf[FIELD_BYTES..] == Zeros(CONTRACT_SIZE - FIELD_BYTES);
    assert buf[..] == buf[..FIELD_BYTES] + buf[FIELD_BYTES..];
  }

  /** Eight-byte fields one after the other. */
  method PutAll(buf: array<uint8>, pos: nat, vs: seq<uint64>, ghost f: seq<nat>, ghost w: seq<nat>)
    returns (next: nat, ghost f': seq<nat>, ghost w': seq<nat>)
    requires pos + 8 * |vs| <= buf.Length && Written(buf, pos, f, w) && ClearAfter(buf, pos)
    modifies buf
    ensures next == pos + 8 * |vs| && Written(buf, next, f', w') && ClearAfter(buf, next)
    ensures f' == f + vs && w' == w + Eights(|vs|)
  {
    hide Written, ClearAfter;
    next, f', w' := pos, f, w;
    for i := 0 to |vs|
      invariant next == pos + 8 * i && Written(buf, next, f', w') && ClearAfter(buf, next)
      invariant f' == f + vs[..i] && w' == w + Eights(i)
    {
      next, f', w' := PutField(buf, next, vs[i], 8, f', w');
      assert vs[..i + 1] == vs[..i] + [vs[i]];
      EightsAppend(i);
    }
  }

  method PutContractKey(buf: array<uint8>, c: ContractSnapshot)
    returns (pos: nat, ghost f: seq<nat>, ghost w: seq<nat>)
    requires buf.Length == CONTRACT_SIZE && ClearAfter(buf, 0)
    modifies buf
    ensures pos == 13 && w == [4, 8, 1] && Written(buf, pos, f, w) && ClearAfter(buf, pos)
    ensures f == [c.contract.key.expiryDate, c.contract.key.strikePrice, TypeCode(c.contract.key.optionType)]
  {
    hide Written, ClearAfter;
    NothingWritten(buf);
    pos, f, w := PutField(buf, 0, c.contract.key.expiryDate, 4, [], []);
    pos, f, w := PutField(buf, pos, c.contract.key.strikePrice, 8, f, w);
    pos, f, w := PutField(buf, pos, TypeCode(c.contract.key.optionType), 1, f, w);
  }

  method SerializeContract(c: ContractSnapshot, buf: array<uint8>)
    requires buf.Length == CONTRACT_SIZE && ClearAfter(buf, 0)
    modifies buf
    ensures buf[..] == ContractBytes(c)
  {
    hide Written, EncodeFields, Size, ClearAfter, ContractBytes;
    var pos, f, w := PutContractKey(buf, c);
    pos, f, w := PutAll(buf, pos, [c.bbo.bidPrice, c.bbo.bidVolume, c.bbo.askPrice, c.bbo.askVolume], f, w);
    pos, f, w := PutAll(buf, pos, [c.pricing.impliedVolatility, c.pricing.delta, c.pricing.gamma, c.pricing.vega,
                                   c.pricing.theta, c.pricing.rho, c.pricing.price], f, w);
    assert Eights(4) == [8, 8, 8, 8] && Eights(7) == [8, 8, 8, 8, 8, 8, 8];
    ContractWritten(c, buf, pos, f, w);
  }

  /** Appends one more eight-byte field to a record that starts where base ends. */
  method PushU64(buf: Bytes, v: uint64, ghost base: Bytes, ghost values: seq<nat>)
    returns (out: Bytes, ghost values': seq<nat>)
    requires buf == base + EncodeFields(Little, values, Eights(|values|))
    ensures values' == values + [v]
    ensures out == base + EncodeFields(Little, values', Eights(|values'|))
  {
    hide EncodeFields, ToBytes, Eights;
    out, values' := buf + ToBytes(Little, v, 8), values + [v];
    EncodeAppend(Little, values, Eights(|values|), v, 8);
    EightsAppend(|values|);
  }

  lemma AppendAll(buf: Bytes, a: Bytes, b: Bytes, c: Bytes, d: Bytes, e: Bytes)
    ensures buf + a + b + c + d + e == buf + (a + b + c + d + e)
  {
  }

  method PushContracts(cs: seq<ContractSnapshot>, buf: Bytes) returns (out: Bytes)
    ensures out == buf + ContractsBytes(cs)
  {
    hide ContractBytes;
    out := buf;
    for i := 0 to |cs|
      invariant out == buf + ContractsBytes(cs[..i])
    {
      var contractBuf := new uint8[CONTRACT_SIZE](_ => 0);
      SerializeContract(cs[i], contractBuf);
      out := out + contractBuf[..];
      assert cs[..i + 1][..i] == cs[..i];
    }
    assert cs[..|cs|] == cs;
  }

  method PushSpot(a: Snapshot, buf: Bytes) returns (out: Bytes, ghost f: seq<nat>)
    ensures f == [a.underlying, a.spot.bidPrice, a.spot.bidVolume]
    ensures out == buf + EncodeFields(Little, f, Eights(3))
  {
    out, f := buf, [];
    assert out == buf + EncodeFields(Little, f, Eights(0)) by { assert Eights(0) == []; }
    hide EncodeFields, Eights;
    out, f := PushU64(out, a.underlying, buf, f);
    out, f := PushU64(out, a.spot.bidPrice, buf, f);
    out, f := PushU64(out, a.spot.bidVolume, buf, f);
  }

  method PushHeader(a: Snapshot, buf: Bytes) returns (out: Bytes)
    ensures out == buf + EncodeFields(Little, SnapshotFields(a), Eights(6))
  {
    ghost var f: seq<nat>;
    out, f := PushSpot(a, buf);
    hide EncodeFields, Eights;
    out, f := PushU64(out, a.spot.askPrice, buf, f);
    out, f := PushU64(out, a.spot.askVolume, buf, f);
    out, f := PushU64(out, a.spotTimestamp, buf, f);
    assert f == SnapshotFields(a);
  }

  /** Appends the frame of one option snapshot. */
  method SerializeSnapshot(a: Snapshot, buf: Bytes) returns (out: Bytes)
    ensures out == buf + SnapshotFrame(a)
  {
    hide ToBytes, EncodeFields, ContractsBytes, Eights;
    var totalLen := SerializedSize(a) % TWO_16;
    out := buf + [OPTION_SNAPSHOT];
    out := out + ToBytes(Little, totalLen, 2);
    out := PushHeader(a, out);
    out := out + ToBytes(Little, |a.contracts| % TWO_16, 2);
    out := PushContracts(a.contracts, out);
    AppendAll(buf, [OPTION_SNAPSHOT], ToBytes(Little, totalLen, 2), EncodeFields(Little, SnapshotFields(a), Eights(6)),
              ToBytes(Little, |a.contracts| % TWO_16, 2), ContractsBytes(a.contracts));
  }

  /** What one pass of the broadcaster puts in its buffer for a batch. */
  method SerializeBatch(batch: seq<BboUpdate>, optionBatch: seq<Snapshot>) returns (buf: Bytes)
    ensures buf == EncodeBatch(batch, optionBatch)
  {
    hide BboPayload, ToBytes, SnapshotFrame;
    buf := [];
    for i := 0 to |batch|
      invariant buf == SpotFrames(batch[..i])
    {
      buf := buf + [SPOT_BBO];
      buf := buf + ToBytes(Little, BBO_SIZE, 2);
      var payload := new uint8[BBO_SIZE](_ => 0);
      SerializeBbo(batch[i], payload);
      buf := buf + payload[..];
      assert batch[..i + 1][..i] == batch[..i];
    }
    assert batch[..|batch|] == batch;
    for i := 0 to |optionBatch|
      invariant buf == SpotFrames(batch) + SnapshotFrames(optionBatch[..i])
    {
      buf := SerializeSnapshot(optionBatch[i], buf);
      assert optionBatch[..i + 1][..i] == optionBatch[..i];
    }
    assert optionBatch[..|optionBatch|] == optionBatch;
  }
}
