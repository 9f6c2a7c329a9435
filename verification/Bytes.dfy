/** Fixed-width integers as bytes in either order, and records of such fields. */
module Bytes {
  import opened Words

  type Bytes = seq<uint8>

  datatype ByteOrder = Big | Little

  function Pow256(w: nat): nat {
    if w == 0 then 1 else 256 * Pow256(w - 1)
  }

  lemma Pow256Values()
    ensures Pow256(1) == 0x100 && Pow256(2) == TWO_16 && Pow256(4) == TWO_32 && Pow256(8) == TWO_64
  {
  }

  /** The w low-order bytes of n. */
  function ToBytes(order: ByteOrder, n: nat, w: nat): (s: Bytes)
    ensures |s| == w
    decreases w
  {
    if w == 0 then []
    else
      match order
      case Big => ToBytes(order, n / 256, w - 1) + [n % 256]
      case Little => [n % 256] + ToBytes(order, n / 256, w - 1)
  }

  function FromBytes(order: ByteOrder, s: Bytes): nat
    decreases |s|
  {
    if s == [] then 0
    else
      match order
      case Big => 256 * FromBytes(order, s[..|s| - 1]) + s[|s| - 1]
      case Little => s[0] + 256 * FromBytes(order, s[1..])
  }

  lemma {:induction false} FromBytesBound(order: ByteOrder, s: Bytes)
    ensures FromBytes(order, s) < Pow256(|s|)
    decreases |s|
  {
    if s != [] {
      FromBytesBound(order, if order.Big? then s[..|s| - 1] else s[1..]);
    }
  }

  lemma {:induction false} BytesRoundTrip(order: ByteOrder, n: nat, w: nat)
    requires n < Pow256(w)
    ensures FromBytes(order, ToBytes(order, n, w)) == n
    decreases w
  {
    if w > 0 {
      BytesRoundTrip(order, n / 256, w - 1);
      var s, rest := ToBytes(order, n, w), ToBytes(order, n / 256, w - 1);
      assert if order.Big? then s[..w - 1] == rest else s[1..] == rest;
    }
  }

  // ---------------------------------------------------------------- the words in numerals

  lemma BigStep(s: Bytes, k: nat)
    requires k < |s|
    ensures FromBytes(Big, s[..k + 1]) == 256 * FromBytes(Big, s[..k]) + s[k]
  {
    assert s[..k + 1][..k] == s[..k];
  }

  lemma LittleStep(s: Bytes, k: nat)
    requires k < |s|
    ensures FromBytes(Little, s[k..]) == s[k] + 256 * FromBytes(Little, s[k + 1..])
  {
    assert s[k..][1..] == s[k + 1..];
  }

  lemma Whole(s: Bytes)
    ensures s[..0] == [] && s[..|s|] == s && s[0..] == s && s[|s|..] == []
    ensures FromBytes(Big, []) == FromBytes(Little, []) == 0
  {
  }

  /** What two bytes stand for in either order. */
  lemma TwoBytes(a: nat, b: nat)
    requires a < 256 && b < 256
    ensures FromBytes(Big, [a, b]) == 0x100 * a + b
    ensures FromBytes(Little, [a, b]) == a + 0x100 * b
  {
    hide FromBytes;
    var s: Bytes := [a, b];
    Whole(s);
    BigStep(s, 0);
    BigStep(s, 1);
    LittleStep(s, 1);
    LittleStep(s, 0);
  }

  /** What four bytes stand for in either order. */
  lemma FourBytes(a: nat, b: nat, c: nat, d: nat)
    requires a < 256 && b < 256 && c < 256 && d < 256
    ensures FromBytes(Big, [a, b, c, d]) == 0x100_0000 * a + 0x1_0000 * b + 0x100 * c + d
    ensures FromBytes(Little, [a, b, c, d]) == a + 0x100 * b + 0x1_0000 * c + 0x100_0000 * d
  {
    hide FromBytes;
    var s: Bytes := [a, b, c, d];
    Whole(s);
    BigStep(s, 0);
    BigStep(s, 1);
    BigStep(s, 2);
    BigStep(s, 3);
    LittleStep(s, 3);
    LittleStep(s, 2);
    LittleStep(s, 1);
    LittleStep(s, 0);
  }

  lemma HalvesBig(x: nat, p: nat, y: nat, b: nat)
    ensures 256 * (x * p + y) + b == x * (256 * p) + (256 * y + b)
  {
  }

  lemma HalvesLittle(x: nat, p: nat, y: nat, b: nat)
    ensures b + 256 * (x + p * y) == (b + 256 * x) + (256 * p) * y
  {
  }

  lemma {:induction false} BigHalves(s: Bytes, k: nat)
    requires k <= |s|
    ensures FromBytes(Big, s) == FromBytes(Big, s[..k]) * Pow256(|s| - k) + FromBytes(Big, s[k..])
    decreases |s|
  {
    if k == |s| {
      Whole(s);
    } else {
      var init := s[..|s| - 1];
      BigHalves(init, k);
      assert init[..k] == s[..k] && init[k..] == s[k..][..|s| - k - 1];
      HalvesBig(FromBytes(Big, s[..k]), Pow256(|s| - 1 - k), FromBytes(Big, init[k..]), s[|s| - 1]);
    }
  }

  lemma {:induction false} LittleHalves(s: Bytes, k: nat)
    requires k <= |s|
    ensures FromBytes(Little, s) == FromBytes(Little, s[..k]) + Pow256(k) * FromBytes(Little, s[k..])
    decreases |s|
  {
    if k == 0 {
      Whole(s);
    } else {
      var rest := s[1..];
      LittleHalves(rest, k - 1);
      assert rest[..k - 1] == s[..k][1..] && rest[k - 1..] == s[k..];
      HalvesLittle(FromBytes(Little, rest[..k - 1]), Pow256(k - 1), FromBytes(Little, s[k..]), s[0]);
    }
  }

  /** What eight bytes stand for in either order: two words of four. */
  lemma EightBytes(s: Bytes)
    requires |s| == 8
    ensures FromBytes(Big, s) == 0x1_0000_0000 * FromBytes(Big, s[..4]) + FromBytes(Big, s[4..])
    ensures FromBytes(Little, s) == FromBytes(Little, s[..4]) + 0x1_0000_0000 * FromBytes(Little, s[4..])
  {
    hide FromBytes, Pow256;
    Pow256Values();
    BigHalves(s, 4);
    LittleHalves(s, 4);
  }

  // ---------------------------------------------------------------- records

  function Size(widths: seq<nat>): nat {
    if widths == [] then 0 else widths[0] + Size(widths[1..])
  }

  ghost predicate Fit(values: seq<nat>, widths: seq<nat>) {
    |values| == |widths| && forall i :: 0 <= i < |values| ==> values[i] < Pow256(widths[i])
  }

  function EncodeFields(order: ByteOrder, values: seq<nat>, widths: seq<nat>): (s: Bytes)
    requires |values| == |widths|
    ensures |s| == Size(widths)
    decreases |widths|
  {
    if widths == [] then []
    else ToBytes(order, values[0], widths[0]) + EncodeFields(order, values[1..], widths[1..])
  }

  function DecodeFields(order: ByteOrder, s: Bytes, widths: seq<nat>): (values: seq<nat>)
    requires Size(widths) <= |s|
    ensures |values| == |widths|
    decreases |widths|
  {
    if widths == [] then []
    else [FromBytes(order, s[..widths[0]])] + DecodeFields(order, s[widths[0]..], widths[1..])
  }

  lemma {:induction false} DecodedFit(order: ByteOrder, s: Bytes, widths: seq<nat>)
    requires Size(widths) <= |s|
    ensures Fit(DecodeFields(order, s, widths), widths)
    decreases |widths|
  {
    if widths != [] {
      FromBytesBound(order, s[..widths[0]]);
      DecodedFit(order, s[widths[0]..], widths[1..]);
    }
  }

  lemma DecodeCons(order: ByteOrder, s: Bytes, w: nat, widths: seq<nat>)
    requires w + Size(widths) <= |s|
    ensures Size([w] + widths) == w + Size(widths)
    ensures DecodeFields(order, s, [w] + widths) == [FromBytes(order, s[..w])] + DecodeFields(order, s[w..], widths)
  {
  }

  lemma SizeCons(a: seq<nat>)
    requires a != []
    ensures Size(a) == a[0] + Size(a[1..])
  {
  }

  lemma FirstFits(values: seq<nat>, widths: seq<nat>)
    requires Fit(values, widths) && widths != []
    ensures |values| == |widths| && values[0] < Pow256(widths[0]) && Fit(values[1..], widths[1..])
  {
    hide Pow256;
  }

  lemma EncodeCons(order: ByteOrder, values: seq<nat>, widths: seq<nat>)
    requires |values| == |widths| > 0
    ensures EncodeFields(order, values, widths)
         == ToBytes(order, values[0], widths[0]) + EncodeFields(order, values[1..], widths[1..])
  {
    hide ToBytes;
  }

  /** Decoding what was encoded gives the values back, whatever follows it. */
  lemma {:induction false} DecodeEncode(order: ByteOrder, values: seq<nat>, widths: seq<nat>, rest: Bytes)
    requires Fit(values, widths)
    ensures DecodeFields(order, EncodeFields(order, values, widths) + rest, widths) == values
    decreases |widths|
  {
    if widths != [] {
      hide FromBytes, ToBytes, DecodeFields, EncodeFields, Size, Fit, Pow256;
      FirstFits(values, widths);
      EncodeCons(order, values, widths);
      var first, tail := ToBytes(order, values[0], widths[0]), EncodeFields(order, values[1..], widths[1..]);
      var s := EncodeFields(order, values, widths) + rest;
      assert s[..widths[0]] == first && s[widths[0]..] == tail + rest;
      BytesRoundTrip(order, values[0], widths[0]);
      DecodeEncode(order, values[1..], widths[1..], rest);
      SizeCons(widths);
      DecodeCons(order, s, widths[0], widths[1..]);
      assert widths == [widths[0]] + widths[1..] && values == [values[0]] + values[1..];
    } else {
      assert |values| == |widths|;
    }
  }

  lemma {:induction false} SizeConcat(a: seq<nat>, b: seq<nat>)
    ensures Size(a + b) == Size(a) + Size(b)
    decreases |a|
  {
    if a == [] {
      assert a + b == b;
    } else {
      assert (a + b)[1..] == a[1..] + b;
      SizeConcat(a[1..], b);
    }
  }

  lemma SizeOne(w: nat)
    ensures Size([w]) == w
  {
  }

  lemma DecodeNothing(order: ByteOrder, s: Bytes, b: seq<nat>)
    ensures [] + b == b && s[Size([])..] == s
    ensures DecodeFields(order, s, []) == []
  {
  }

  lemma DecodeTail(order: ByteOrder, s: Bytes, w: nat, tail: seq<nat>, b: seq<nat>)
    requires w + Size(tail) + Size(b) <= |s| && Size(tail + b) == Size(tail) + Size(b)
    requires DecodeFields(order, s[w..], tail + b)
          == DecodeFields(order, s[w..], tail) + DecodeFields(order, s[w..][Size(tail)..], b)
    ensures Size([w] + tail) == w + Size(tail) && Size([w] + tail + b) == w + Size(tail) + Size(b)
    ensures DecodeFields(order, s, [w] + tail + b)
         == DecodeFields(order, s, [w] + tail) + DecodeFields(order, s[w + Size(tail)..], b)
  {
    hide FromBytes, DecodeFields, Size;
    DecodeCons(order, s, w, tail);
    DecodeCons(order, s, w, tail + b);
    assert [w] + tail + b == [w] + (tail + b);
    assert s[w..][Size(tail)..] == s[w + Size(tail)..];
  }

  /** Reading some fields and then, from where they end, some more is reading them all. */
  lemma {:induction false} DecodeConcat(order: ByteOrder, s: Bytes, a: seq<nat>, b: seq<nat>)
    requires Size(a) + Size(b) <= |s|
    ensures Size(a + b) == Size(a) + Size(b)
    ensures DecodeFields(order, s, a + b) == DecodeFields(order, s, a) + DecodeFields(order, s[Size(a)..], b)
    decreases |a|
  {
    if a == [] {
      hide FromBytes, DecodeFields, Size;
      DecodeNothing(order, s, b);
    } else {
      hide FromBytes, DecodeFields, Size;
      var w, tail := a[0], a[1..];
      SizeCons(a);
      SizeConcat(tail, b);
      DecodeConcat(order, s[w..], tail, b);
      DecodeTail(order, s, w, tail, b);
      assert a == [w] + tail;
    }
  }

  /** The i-th field is what the bytes in its place stand for; the next one starts behind it. */
  lemma FieldAt(order: ByteOrder, s: Bytes, widths: seq<nat>, i: nat, start: nat)
    requires Size(widths) <= |s| && i < |widths| && start == Size(widths[..i])
    ensures start + widths[i] == Size(widths[..i + 1]) <= |s|
    ensures DecodeFields(order, s, widths)[i] == FromBytes(order, s[start..start + widths[i]])
  {
    hide FromBytes, DecodeFields, Size;
    var front, back := widths[..i], widths[i + 1..];
    assert widths == front + ([widths[i]] + back) && widths[..i + 1] == front + [widths[i]];
    SizeConcat(front, [widths[i]] + back);
    SizeConcat(front, [widths[i]]);
    SizeCons([widths[i]] + back);
    assert ([widths[i]] + back)[1..] == back;
    SizeOne(widths[i]);
    DecodeConcat(order, s, front, [widths[i]] + back);
    DecodeCons(order, s[start..], widths[i], back);
    assert s[start..][..widths[i]] == s[start..start + widths[i]];
  }

  lemma DecodeOne(order: ByteOrder, s: Bytes, w: nat)
    requires w <= |s|
    ensures Size([w]) == w && DecodeFields(order, s, [w]) == [FromBytes(order, s[..w])]
  {
  }

  lemma {:induction false} EncodeAppend(order: ByteOrder, values: seq<nat>, widths: seq<nat>, v: nat, w: nat)
    requires |values| == |widths|
    ensures EncodeFields(order, values + [v], widths + [w])
         == EncodeFields(order, values, widths) + ToBytes(order, v, w)
    decreases |widths|
  {
    if widths == [] {
      assert values + [v] == [v] && widths + [w] == [w];
    } else {
      assert (values + [v])[1..] == values[1..] + [v] && (widths + [w])[1..] == widths[1..] + [w];
      EncodeAppend(order, values[1..], widths[1..], v, w);
    }
  }

  function Zeros(n: nat): (s: Bytes)
    ensures |s| == n
  {
    seq(n, _ => 0)
  }
}
