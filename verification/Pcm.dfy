/**
 The PCM arithmetic of `audio_buffers.c` and the volume of `audio_task.c`: loops over samples in place, with the
 widths of C. Signed 32-bit overflow, which C leaves open, is taken to wrap around.
 */
module Pcm {
  import opened Words

  // Two's complement narrowing.
  function Signed16(x: int): int16 { (x + 0x8000) % 0x1_0000 - 0x8000 }
  function Signed32(x: int): int32 { (x + 0x8000_0000) % 0x1_0000_0000 - 0x8000_0000 }

  function Clamp(x: int): int16 { if x > 32767 then 32767 else if x < -32768 then -32768 else x }

  // Division as C rounds it, toward zero.
  function Quotient(a: int, b: int): int
    requires b > 0
  {
    if a >= 0 then a / b else -(-a / b)
  }

  function Pow2(k: nat): (p: nat)
    ensures p > 0
  {
    if k == 0 then 1 else 2 * Pow2(k - 1)
  }

  lemma {:induction false} Pow2Grows(k: nat, l: nat)
    requires k <= l
    ensures Pow2(k) <= Pow2(l)
  {
    if k < l {
      Pow2Grows(k, l - 1);
    }
  }

  lemma {:induction false} Pow2Splits(k: nat, l: nat)
    ensures Pow2(k + l) == Pow2(k) * Pow2(l)
  {
    hide Pow2;
    if k > 0 {
      Pow2Splits(k - 1, l);
      Pow2Next(k - 1);
      Pow2Next(k - 1 + l);
      TwiceProduct(Pow2(k - 1), Pow2(l));
    } else {
      Pow2Zero();
    }
  }

  lemma Pow2Next(k: nat)
    ensures Pow2(k + 1) == 2 * Pow2(k)
  {
  }

  lemma Pow2Zero()
    ensures Pow2(0) == 1
  {
  }

  lemma TwiceProduct(a: nat, b: nat)
    ensures 2 * a * b == 2 * (a * b)
  {
  }

  lemma Powers()
    ensures Pow2(5) == 32 && Pow2(10) == 1024 && Pow2(15) == 0x8000 && Pow2(16) == 0x1_0000
    ensures Pow2(21) == 0x20_0000 && Pow2(31) == 0x8000_0000
  {
    assert Pow2(5) == 32;
    Pow2Splits(5, 5);
    Pow2Splits(10, 5);
    Pow2Splits(10, 11);
    Pow2Splits(5, 16);
    assert Pow2(11) == 2048;
    Pow2Splits(16, 15);
  }

  // audio_apply_gain on one sample: six decibels count as a factor of two.
  function Gain(s: int16, gainDb: int): int16
  {
    if gainDb == 0 then s
    else if gainDb > 0 then Clamp(Signed32(s * Pow2(gainDb / 6)))
    else Signed16(s / Pow2(-gainDb / 6))
  }

  // The shift of an attenuation stays in the width of a sample.
  lemma ShiftFits(s: int16, k: nat)
    ensures -0x8000 <= s / Pow2(k) < 0x8000 && Signed16(s / Pow2(k)) == s / Pow2(k)
  {
    DivWithin(s, Pow2(k));
  }

  lemma DivWithin(s: int, p: int)
    requires p > 0
    ensures if s >= 0 then 0 <= s / p <= s else s <= s / p < 0
  {
    if s >= 0 {
      MulLe(1, p, s + 1);
      DivBounds(s, p, 0, s);
    } else {
      MulLe(1, p, 0 - s);
      assert p * s == -(p * (0 - s));
      DivBounds(s, p, s, -1);
    }
  }

  lemma DivBounds(a: int, p: int, low: int, high: int)
    requires p > 0 && p * low <= a < p * (high + 1)
    ensures low <= a / p <= high
  {
    var q := a / p;
    assert a == p * q + a % p;
    assert p * (q + 1) == p * q + p;
    if q > high {
      MulLe(high + 1, q, p);
    } else if q < low {
      MulLe(q + 1, low, p);
    }
  }

  lemma MulLe(a: int, b: int, p: int)
    requires a <= b && p >= 0
    ensures a * p <= b * p && p * a <= p * b
  {
  }

  lemma {:induction false} GainFits(s: int16, k: nat)
    requires k <= 16
    ensures -0x8000_0000 <= s * Pow2(k) < 0x8000_0000
  {
    Powers();
    Pow2Grows(k, 16);
    MulLe(-0x8000, s, Pow2(k));
    MulLe(s, 0x7FFF, Pow2(k));
  }

  /** A gain is the exact product, limited to 16 bits, on all samples: exactly up to 101 decibels. From 102 on, the
      sample 2^(31-k) overflows to the most negative product. */
  lemma GainExact(gainDb: int)
    requires 0 < gainDb <= 127
    ensures (forall s: int16 :: Gain(s, gainDb) == Clamp(s * Pow2(gainDb / 6))) <==> gainDb <= 101
    ensures forall x: int ::
      Clamp(x) == (if x > 32767 then 32767 else if x < -32768 then -32768 else x)
  {
    var k := gainDb / 6;
    if gainDb <= 101 {
      forall s: int16 ensures Gain(s, gainDb) == Clamp(s * Pow2(k)) {
        GainFits(s, k);
      }
    } else {
      Powers();
      Pow2Grows(31 - k, 14);
      Pow2Splits(1, 14);
      Pow2Splits(31 - k, k);
      var s: int16 := Pow2(31 - k);
      assert s * Pow2(k) == 0x8000_0000;
      assert Gain(s, gainDb) != Clamp(s * Pow2(k));
    }
  }

  /** Attenuating and amplifying again loses exactly the low bits of every sample: exactly for at most 15 bits. */
  lemma AttenuateThenAmplify(gainDb: int)
    requires 0 <= gainDb <= 127
    ensures (forall s: int16 :: Gain(Gain(s, -gainDb), gainDb) == s - s % Pow2(gainDb / 6)) <==> gainDb / 6 <= 15
  {
    var k := gainDb / 6;
    if k <= 15 {
      forall s: int16 ensures Gain(Gain(s, -gainDb), gainDb) == s - s % Pow2(k) {
        LosesLowBits(s, gainDb);
      }
    } else {
      Powers();
      Pow2Grows(16, k);
      Pow2Grows(k, 21);
      var minus: int16 := -1;
      MinusOne(Pow2(k));
      hide Pow2;
      assert Gain(minus, -gainDb) == -1;
      assert Gain(Gain(minus, -gainDb), gainDb) != minus - minus % Pow2(k);
    }
  }

  // The smallest loss turns into the most negative sample.
  lemma MinusOne(p: int)
    requires 0x1_0000 <= p <= 0x20_0000
    ensures -1 / p == -1 && -1 % p == p - 1 && -1 - -1 % p == -p && Signed16(-1 / p) == -1
    ensures Clamp(Signed32(-1 * p)) == -32768
  {
    DivBounds(-1, p, -1, -1);
    assert -1 * p == -p;
  }

  lemma InRange(x: int)
    requires -0x8000 <= x < 0x8000
    ensures Clamp(Signed32(x)) == x
  {
  }

  lemma LosesLowBits(s: int16, gainDb: int)
    requires 0 <= gainDb <= 127 && gainDb / 6 <= 15
    ensures Gain(Gain(s, -gainDb), gainDb) == s - s % Pow2(gainDb / 6)
  {
    hide Pow2, Clamp, Signed16, Signed32;
    var k := gainDb / 6;
    ShiftFits(s, k);
    var q := s / Pow2(k);
    GainFits(q, k);
    Powers();
    Pow2Splits(k, 15 - k);
    WholeParts(s, Pow2(k), Pow2(15 - k));
    InRange(q * Pow2(k));
    if gainDb == 0 {
      Pow2Zero();
    } else {
      assert Gain(s, -gainDb) == q;
    }
  }

  // The multiple of p below a sample is a sample, if p divides the range of the samples.
  lemma WholeParts(s: int16, p: int, m: int)
    requires p > 0 && p * m == 0x8000
    ensures s / p * p == s - s % p && -0x8000 <= s / p * p <= s
  {
    var q := s / p;
    assert p * -m == -(p * m) && p * (m - 1 + 1) == p * m;
    DivBounds(s, p, -m, m - 1);
    MulLe(-m, q, p);
  }

  /** audio_apply_gain. */
  method ApplyGain(samples: array<int16>, n: nat, gainDb: int)
    requires n <= samples.Length && -128 <= gainDb <= 127
    modifies samples
    ensures forall i :: 0 <= i < n ==> samples[i] == Gain(old(samples[i]), gainDb)
    ensures forall i :: n <= i < samples.Length ==> samples[i] == old(samples[i])
  {
    if n == 0 || gainDb == 0 {
      return;
    }
    hide Pow2;
    if gainDb < 0 {
      var divisor := Pow2(-gainDb / 6);
      for i := 0 to n
        invariant forall j :: 0 <= j < i ==> samples[j] == Gain(old(samples[j]), gainDb)
        invariant forall j :: i <= j < samples.Length ==> samples[j] == old(samples[j])
      {
        samples[i] := Signed16(samples[i] / divisor);
      }
      return;
    }
    var multiplier := Pow2(gainDb / 6);
    for i := 0 to n
      invariant forall j :: 0 <= j < i ==> samples[j] == Gain(old(samples[j]), gainDb)
      invariant forall j :: i <= j < samples.Length ==> samples[j] == old(samples[j])
    {
      var sample := Signed32(samples[i] * multiplier);
      if sample > 32767 {
        sample := 32767;
      }
      if sample < -32768 {
        sample := -32768;
      }
      samples[i] := sample;
    }
  }

  // The volume on one sample.
  function Scaled(s: int16, volume: int): int
  {
    Quotient(s * volume, 100)
  }

  /** The volume never changes a sign and never makes a sample larger; all of it leaves the sample as it is, and
      none of it leaves nothing. */
  lemma ScaledShrinks(s: int16, volume: int)
    requires 0 <= volume <= 100
    ensures if s >= 0 then 0 <= Scaled(s, volume) <= s else s <= Scaled(s, volume) <= 0
    ensures Scaled(s, 100) == s && Scaled(s, 0) == 0
    ensures volume > 0 && s > 0 && s * volume >= 100 ==> Scaled(s, volume) > 0
  {
    var size: int := if s >= 0 then s as int else 0 - s;
    MulLe(0, volume, size);
    MulLe(volume, 100, size);
    assert s < 0 ==> -(s * volume) == size * volume;
  }

  /** The volume is a percentage, and what is left over of a sample is cut off toward zero. */
  lemma ScaledIsPercentage(s: int16, volume: int)
    requires 0 <= volume <= 100
    ensures var rest := s * volume - 100 * Scaled(s, volume);
      if s >= 0 then 0 <= rest < 100 else -100 < rest <= 0
  {
    QuotientRest(s * volume, 100);
    MulLe(0, volume, if s >= 0 then s as int else 0 - s);
    assert s < 0 ==> -(s * volume) == (0 - s) * volume;
  }

  lemma QuotientRest(a: int, b: int)
    requires b > 0
    ensures var rest := a - b * Quotient(a, b); if a >= 0 then 0 <= rest < b else -b < rest <= 0
  {
    if a < 0 {
      var q := -a / b;
      assert -a == b * q + -a % b;
      assert b * -q == -(b * q);
    } else {
      assert a == b * (a / b) + a % b;
    }
  }

  /** It keeps the order of samples, and of volumes. */
  lemma ScaledKeepsOrder(s: int16, t: int16, volume: int, more: int)
    requires s <= t && 0 <= volume <= more <= 100
    ensures Scaled(s, volume) <= Scaled(t, volume)
    ensures if s >= 0 then Scaled(s, volume) <= Scaled(s, more) else Scaled(s, more) <= Scaled(s, volume)
  {
    MulLe(s, t, volume);
    QuotientKeepsOrder(s * volume, t * volume);
    if s >= 0 {
      MulLe(volume, more, s);
      QuotientKeepsOrder(s * volume, s * more);
    } else {
      MulLe(volume, more, 0 - s);
      assert s * volume == -((0 - s) * volume) && s * more == -((0 - s) * more);
      QuotientKeepsOrder(s * more, s * volume);
    }
  }

  lemma QuotientKeepsOrder(a: int, b: int)
    requires a <= b
    ensures Quotient(a, 100) <= Quotient(b, 100)
  {
  }

  /** Opposite samples stay opposite. */
  lemma ScaledIsOdd(s: int16, volume: int)
    requires s > -0x8000 && 0 <= volume <= 100
    ensures Scaled(-s, volume) == -Scaled(s, volume)
  {
    assert -s * volume == -(s * volume);
  }

  /** apply_volume and the muting after it, as process_tx_path and process_rx_path use them. */
  method ApplyVolume(samples: array<int16>, n: uint16, volume: uint8, muted: bool)
    requires n <= samples.Length && volume <= 100
    modifies samples
    ensures forall i :: 0 <= i < n ==> samples[i] == if muted then 0 else Scaled(old(samples[i]), volume)
    ensures forall i :: n <= i < samples.Length ==> samples[i] == old(samples[i])
  {
    if muted || volume == 0 {
      for i := 0 to n
        invariant forall j :: 0 <= j < i ==> samples[j] == 0
        invariant forall j :: i <= j < samples.Length ==> samples[j] == old(samples[j])
      {
        samples[i] := 0;
      }
      return;
    }
    if volume == 100 {
      return;
    }
    for i := 0 to n
      invariant forall j :: 0 <= j < i ==> samples[j] == Scaled(old(samples[j]), volume)
      invariant forall j :: i <= j < samples.Length ==> samples[j] == old(samples[j])
    {
      ScaledShrinks(samples[i], volume);
      samples[i] := Quotient(samples[i] * volume, 100);
    }
  }

  datatype Format = S16 | S24 | S32 | S24Packed

  // audio_convert_format on one sample; a buffer of 16-bit samples holds values of 16 bits.
  function Converted(x: int32, from: Format, to: Format): int32
  {
    match (from, to)
    case (S24, S16) => Signed16(x / 0x100)
    case (S32, S16) => Signed16(x / 0x1_0000)
    case (S16, S24) => Signed32(x * 0x100)
    case (S16, S32) => Signed32(x * 0x1_0000)
    case _ => x
  }

  predicate Supported(from: Format, to: Format)
  {
    (from == S16 && !to.S24Packed?) || (to == S16 && !from.S24Packed?)
  }

  /** Widening multiplies exactly; narrowing keeps the upper 16 bits, rounding down. */
  lemma ConvertedExactly(x: int32)
    ensures Converted(x, S16, S16) == x
    ensures -0x8000 <= x < 0x8000 ==> Converted(x, S16, S24) == 0x100 * x && Converted(x, S16, S32) == 0x1_0000 * x
    ensures -0x80_0000 <= x < 0x80_0000 ==> var y := Converted(x, S24, S16); 0x100 * y <= x < 0x100 * (y + 1)
    ensures var y := Converted(x, S32, S16); 0x1_0000 * y <= x < 0x1_0000 * (y + 1)
  {
  }

  /** Widening and narrowing again changes no sample. */
  lemma WidenThenNarrow(x: int16, wide: Format)
    requires Supported(S16, wide)
    ensures Converted(Converted(x, S16, wide), wide, S16) == x
  {
    match wide
    case S24 => assert Converted(x, S16, S24) == x * 0x100;
    case S32 => assert Converted(x, S16, S32) == x * 0x1_0000;
    case S16 =>
  }

  /** Narrowing and widening again keeps exactly the samples that use the upper 16 of their 24 or 32 bits. */
  lemma NarrowThenWiden24(x: int32)
    ensures Converted(Converted(x, S24, S16), S16, S24) == x <==> -0x80_0000 <= x < 0x80_0000 && x % 0x100 == 0
  {
  }

  lemma NarrowThenWiden32(x: int32)
    ensures Converted(Converted(x, S32, S16), S16, S32) == x <==> x % 0x1_0000 == 0
  {
    var q := x / 0x1_0000;
    assert x == 0x1_0000 * q + x % 0x1_0000;
    assert Converted(x, S32, S16) == q;
    assert Converted(q, S16, S32) == 0x1_0000 * q;
  }

  /** audio_convert_format: false for a pair of formats that it does not know, and for no samples. */
  method ConvertFormat(src: array<int32>, from: Format, dst: array<int32>, to: Format, n: nat) returns (ok: bool)
    requires n <= src.Length && n <= dst.Length && src != dst
    modifies dst
    ensures ok <==> n > 0 && (from, to) in {(S16, S16), (S24, S16), (S32, S16), (S16, S24), (S16, S32)}
    ensures forall i :: 0 <= i < dst.Length ==>
      dst[i] == if ok && i < n then Converted(src[i], from, to) else old(dst[i])
  {
    if n == 0 || !Supported(from, to) {
      return false;
    }
    for i := 0 to n
      invariant forall j :: 0 <= j < dst.Length ==>
        dst[j] == if j < i then Converted(src[j], from, to) else old(dst[j])
    {
      dst[i] := Converted(src[i], from, to);
    }
    return true;
  }

  function Interleaved(left: seq<int16>, right: seq<int16>): seq<int16>
    requires |left| == |right|
  {
    seq(2 * |left|, i requires 0 <= i < 2 * |left| => if i % 2 == 0 then left[i / 2] else right[i / 2])
  }

  function Channel(stereo: seq<int16>, ch: nat): seq<int16>
    requires |stereo| % 2 == 0 && ch < 2
  {
    seq(|stereo| / 2, i requires 0 <= i < |stereo| / 2 => stereo[2 * i + ch])
  }

  /** Interleaving and splitting are each other's inverses. */
  lemma InterleaveSplit(left: seq<int16>, right: seq<int16>, stereo: seq<int16>)
    requires |left| == |right| && |stereo| % 2 == 0
    ensures Channel(Interleaved(left, right), 0) == left && Channel(Interleaved(left, right), 1) == right
    ensures Interleaved(Channel(stereo, 0), Channel(stereo, 1)) == stereo
  {
    var both := Interleaved(left, right);
    forall i | 0 <= i < |left|
      ensures Channel(both, 0)[i] == left[i] && Channel(both, 1)[i] == right[i]
    {
      assert (2 * i) / 2 == i && (2 * i + 1) / 2 == i;
    }
  }

  /** audio_interleave_stereo */
  method Interleave(left: array<int16>, right: array<int16>, stereo: array<int16>, n: nat)
    requires n <= left.Length && n <= right.Length && 2 * n <= stereo.Length && stereo != left && stereo != right
    modifies stereo
    ensures stereo[..2 * n] == Interleaved(left[..n], right[..n])
    ensures stereo[2 * n..] == old(stereo[2 * n..])
  {
    for i := 0 to n
      invariant forall j :: 0 <= j < 2 * i ==> stereo[j] == if j % 2 == 0 then left[j / 2] else right[j / 2]
      invariant stereo[2 * n..] == old(stereo[2 * n..])
    {
      stereo[i * 2] := left[i];
      stereo[i * 2 + 1] := right[i];
    }
  }

  lemma IsChannel(stereo: seq<int16>, xs: seq<int16>, ch: nat)
    requires |stereo| == 2 * |xs| && ch < 2 && forall j :: 0 <= j < |xs| ==> xs[j] == stereo[2 * j + ch]
    ensures xs == Channel(stereo, ch)
  {
  }

  // One frame of it. What it reads stands at or behind what it writes.
  method SplitAt(stereo: array<int16>, left: array<int16>, right: array<int16>, i: nat)
    requires i < left.Length && i < right.Length && 2 * i + 1 < stereo.Length
    modifies left, right
    ensures right[i] == old(stereo[2 * i + 1]) && (left != right ==> left[i] == old(stereo[2 * i]))
    ensures forall j :: 0 <= j < left.Length && j != i ==> left[j] == old(left[j])
    ensures forall j :: 0 <= j < right.Length && j != i ==> right[j] == old(right[j])
    ensures forall j :: i < j < stereo.Length ==> stereo[j] == old(stereo[j])
  {
    left[i] := stereo[i * 2];
    right[i] := stereo[i * 2 + 1];
  }

  /** audio_deinterleave_stereo, also into the buffer that it splits; if both channels go to one buffer, the right one
      is left there. */
  method Deinterleave(stereo: array<int16>, left: array<int16>, right: array<int16>, n: nat)
    requires n <= left.Length && n <= right.Length && 2 * n <= stereo.Length
    modifies left, right
    ensures right[..n] == Channel(old(stereo[..2 * n]), 1)
    ensures left != right ==> left[..n] == Channel(old(stereo[..2 * n]), 0)
    ensures left[n..] == old(left[n..]) && right[n..] == old(right[n..])
  {
    hide Channel;
    ghost var before := stereo[..2 * n];
    for i := 0 to n
      invariant forall j :: 0 <= j < i ==> right[j] == before[2 * j + 1]
      invariant left != right ==> forall j :: 0 <= j < i ==> left[j] == before[2 * j]
      invariant forall j :: i <= j < 2 * n ==> stereo[j] == before[j]
      invariant forall j :: n <= j < left.Length ==> left[j] == old(left[j])
      invariant forall j :: n <= j < right.Length ==> right[j] == old(right[j])
    {
      SplitAt(stereo, left, right, i);
    }
    IsChannel(before, right[..n], 1);
    if left != right {
      IsChannel(before, left[..n], 0);
    }
  }

  function Sum(xs: seq<int16>): int { if xs == [] then 0 else Sum(xs[..|xs| - 1]) + xs[|xs| - 1] }

  function Mean(xs: seq<int16>): int
    requires xs != []
  {
    Quotient(Sum(xs), |xs|)
  }

  lemma {:induction false} SumBounds(xs: seq<int16>, low: int, high: int)
    requires forall i :: 0 <= i < |xs| ==> low <= xs[i] <= high
    ensures |xs| * low <= Sum(xs) <= |xs| * high
    decreases |xs|
  {
    if xs != [] {
      var n := |xs| - 1;
      SumBounds(xs[..n], low, high);
      assert (n + 1) * low == n * low + low && (n + 1) * high == n * high + high;
    }
  }

  /** The mix of a frame lies between its smallest and its largest sample, so nothing is cut off. */
  lemma MeanBetween(xs: seq<int16>, low: int, high: int)
    requires xs != [] && forall i :: 0 <= i < |xs| ==> low <= xs[i] <= high
    ensures low <= Mean(xs) <= high
  {
    SumBounds(xs, low, high);
    QuotientBetween(Sum(xs), |xs|, low, high);
  }

  lemma QuotientBetween(a: int, n: int, low: int, high: int)
    requires n > 0 && n * low <= a <= n * high
    ensures low <= Quotient(a, n) <= high
  {
    assert n * (high + 1) == n * high + n && n * (-low + 1) == -(n * low) + n && n * -high == -(n * high);
    if a >= 0 {
      DivBounds(a, n, low, high);
    } else {
      DivBounds(-a, n, -high, -low);
    }
  }

  /** The mean of a frame is the sum of its samples, in whatever order, over their number, cut off toward zero. */
  lemma MeanIsExact(xs: seq<int16>)
    requires xs != []
    ensures var rest := Sum(xs) - |xs| * Mean(xs);
      if Sum(xs) >= 0 then 0 <= rest < |xs| else -|xs| < rest <= 0
  {
    QuotientRest(Sum(xs), |xs|);
  }

  lemma {:induction false} SumJoins(xs: seq<int16>, ys: seq<int16>)
    ensures Sum(xs + ys) == Sum(xs) + Sum(ys)
    ensures |ys| == 1 ==> Sum(ys) == ys[0]
    decreases |ys|
  {
    if ys == [] {
      assert xs + ys == xs;
    } else {
      var n := |ys| - 1;
      SumJoins(xs, ys[..n]);
      assert (xs + ys)[..|xs| + n] == xs + ys[..n];
    }
  }

  // Where frame i starts.
  function Base(i: nat, channels: nat): nat { i * channels }

  lemma BaseStep(i: nat, channels: nat)
    ensures Base(i + 1, channels) == Base(i, channels) + channels
    ensures channels > 0 ==> Base(i, channels) >= i
  {
    if channels > 0 {
      MulLe(1, channels, i);
    }
  }

  lemma BaseFits(i: nat, n: nat, channels: nat)
    requires i < n
    ensures Base(i, channels) + channels <= Base(n, channels)
  {
    MulLe(i + 1, n, channels);
  }

  function FrameAt(xs: seq<int16>, channels: nat, i: nat): seq<int16>
    requires Base(i, channels) + channels <= |xs|
  {
    xs[Base(i, channels)..Base(i, channels) + channels]
  }

  lemma SameFrame(xs: seq<int16>, ys: seq<int16>, channels: nat, i: nat)
    requires Base(i, channels) + channels <= |xs| == |ys|
    requires forall k :: Base(i, channels) <= k < |xs| ==> ys[k] == xs[k]
    ensures |FrameAt(xs, channels, i)| == channels
    ensures ys[Base(i, channels)..Base(i, channels) + channels] == FrameAt(xs, channels, i)
  {
    hide Base;
    var b := Base(i, channels);
    assert ys[b..b + channels] == xs[b..b + channels];
  }

  // The mixes of the first n frames.
  function Mixed(xs: seq<int16>, channels: nat, n: nat): (ys: seq<int>)
    requires channels > 0 && Base(n, channels) <= |xs|
    ensures |ys| == n
  {
    if n == 0 then []
    else
      BaseFits(n - 1, n, channels);
      Mixed(xs, channels, n - 1) + [Mean(FrameAt(xs, channels, n - 1))]
  }

  /** Every mixed sample is the mean of its own frame. */
  lemma {:induction false} MixedAt(xs: seq<int16>, channels: nat, n: nat, i: nat)
    requires channels > 0 && Base(n, channels) <= |xs| && i < n
    ensures Base(i, channels) + channels <= |xs|
    ensures |FrameAt(xs, channels, i)| == channels && Mixed(xs, channels, n)[i] == Mean(FrameAt(xs, channels, i))
    ensures forall ch :: 0 <= ch < channels ==> FrameAt(xs, channels, i)[ch] == xs[i * channels + ch]
  {
    BaseFits(n - 1, n, channels);
    if i < n - 1 {
      MixedAt(xs, channels, n - 1, i);
    }
  }

  // One round of the outer loop. The frame stands at or behind the sample that it makes, so it is intact.
  method MixAt(input: array<int16>, output: array<int16>, i: nat, channels: uint8, ghost before: seq<int16>)
    requires channels > 0 && i < output.Length && i <= Base(i, channels)
    requires Base(i, channels) + channels <= input.Length == |before|
    requires forall k :: Base(i, channels) <= k < input.Length ==> input[k] == before[k]
    modifies output
    ensures |FrameAt(before, channels, i)| == channels && output[i] == Mean(FrameAt(before, channels, i))
    ensures forall k :: 0 <= k < output.Length && k != i ==> output[k] == old(output[k])
    ensures forall k :: Base(i, channels) + channels <= k < input.Length ==> input[k] == before[k]
  {
    hide Mean, FrameAt, Base;
    SameFrame(before, input[..], channels, i);
    var mean := MixFrame(input, Base(i, channels), channels, FrameAt(before, channels, i));
    output[i] := mean;
  }

  lemma NoneBefore(channels: nat)
    ensures Base(0, channels) == 0
  {
  }

  method MixFrames(input: array<int16>, output: array<int16>, n: nat, channels: uint8, ghost before: seq<int16>)
    requires channels > 0 && Base(n, channels) <= input.Length == |before| && n <= output.Length
    requires forall k :: 0 <= k < input.Length ==> input[k] == before[k]
    modifies output
    ensures forall k :: 0 <= k < n ==> output[k] == Mixed(before, channels, n)[k]
    ensures forall k :: n <= k < output.Length ==> output[k] == old(output[k])
  {
    hide Mean, Base, FrameAt, Mixed;
    ghost var mixed := Mixed(before, channels, n);
    NoneBefore(channels);
    for i := 0 to n
      invariant Base(i, channels) <= Base(n, channels)
      invariant forall k :: 0 <= k < i ==> output[k] == mixed[k]
      invariant forall k :: Base(i, channels) <= k < input.Length ==> input[k] == before[k]
      invariant forall k :: n <= k < output.Length ==> output[k] == old(output[k])
    {
      BaseFits(i, n, channels);
      BaseStep(i, channels);
      MixedAt(before, channels, n, i);
      MixAt(input, output, i, channels, before);
    }
  }

  /** audio_mix_to_mono, also in place. */
  method MixToMono(input: array<int16>, output: array<int16>, n: nat, channels: uint8)
    requires Base(n, channels) <= input.Length && n <= output.Length
    modifies output
    ensures output[..n] == if channels == 0 then old(output[..n]) else Mixed(old(input[..]), channels, n)
    ensures output[n..] == old(output[n..])
  {
    if channels == 0 {
      return;
    }
    hide Mixed, Base;
    MixFrames(input, output, n, channels, input[..]);
  }

  // The inner loop: the sum of a frame stays in 32 bits, and its mean in 16.
  method MixFrame(input: array<int16>, base: nat, channels: uint8, ghost frame: seq<int16>) returns (mean: int16)
    requires channels > 0 && base + channels <= input.Length && frame == input[base..base + channels]
    ensures mean == Mean(frame)
  {
    var sum: int32 := 0;
    for ch := 0 to channels
      invariant sum == Sum(frame[..ch])
    {
      assert frame[..ch + 1][..ch] == frame[..ch];
      SumBounds(frame[..ch + 1], -0x8000, 0x7FFF);
      sum := sum + input[base + ch];
    }
    assert frame[..channels] == frame;
    MeanBetween(frame, -0x8000, 0x7FFF);
    mean := Quotient(sum, channels);
  }
}
