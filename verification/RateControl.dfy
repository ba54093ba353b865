/**
 * The two rate controllers: feedback on the size of the coded frames, and an error-diffusing
 * quantiser behind it. They differ in the lowest quality and in the number of error buckets.
 * Doubles are reals.
 */
module RateControl {
  datatype Kind = H264 | Mpeg4

  function Low(k: Kind): real { if k.H264? then 2.0 / 51.0 else 0.06452 }

  /** Quantisers from here on have no error bucket. */
  function Limit(k: Kind): nat { if k.H264? then 51 else 31 }

  function Buckets(k: Kind): nat { if k.H264? then 51 else 32 }

  datatype Control = Control(
    kind: Kind, quant: int, frames: int, totalSize: int, framerate: real, targetRate: int,
    maxQuant: int, minQuant: int, avgSize: real, targetSize: real, quality: real,
    period: int, delay: int, buffer: int)

  /** What the divisions need: rates and periods that are not zero. */
  predicate Running(c: Control) {
    c.framerate > 0.0 && c.targetSize > 0.0 && c.avgSize > 0.0 && c.period >= 1 && c.delay >= 1 && c.buffer >= 1
  }

  /** Conversion to a signed integer type truncates. */
  function Truncated(x: real): int { if x >= 0.0 then x.Floor else -((-x).Floor) }

  // ----- the feedback -----

  function Deviation(c: Control): int
    requires c.framerate != 0.0
  {
    Truncated(c.totalSize as real - ((c.targetRate as real) / 8.0 / c.framerate) * c.frames as real)
  }

  function Smoothed(prev: real, sample: real, period: real): real
    requires period != 0.0
  {
    prev - prev / period + sample / period
  }

  /** The averages after another frame. */
  function Averaged(c: Control, size: int, keyframe: bool): Control
    requires Running(c)
  {
    var d := c.(frames := c.frames + 1, totalSize := c.totalSize + size);
    if c.quant < 2 then d
    else
      var q := Smoothed(c.quality, 2.0 / (c.quant as real), c.period as real);
      d.(quality := if q < 0.1 then 0.1 else q,
         avgSize := if keyframe then c.avgSize else Smoothed(c.avgSize, size as real, c.delay as real))
  }

  lemma AveragedKeeps(c: Control, size: int, keyframe: bool)
    requires Running(c)
    ensures var d := Averaged(c, size, keyframe);
            d.quant == c.quant && d.kind == c.kind && d.minQuant == c.minQuant && d.maxQuant == c.maxQuant
  {
  }

  function Base(k: Kind, scale: real, quality: real): real
    requires scale > 0.0
  {
    if scale >= 1.0 then 1.0 - (1.0 - quality) / scale else Low(k) + (quality - Low(k)) * scale
  }

  function Clamped(k: Kind, quality: real): real {
    if quality > 2.0 then 2.0 else if quality < Low(k) then Low(k) else quality
  }

  function Correction(above: real, overflow: real, targetSize: real): real
    requires targetSize > 0.0
  {
    above * overflow / targetSize
  }

  function Aim(k: Kind, base: real, overflow: real, targetSize: real): real
    requires targetSize > 0.0
  {
    Clamped(k, base + Correction(base - Low(k), overflow, targetSize))
  }

  function Scale(c: Control): (s: real)
    requires Running(c)
    ensures s > 0.0
  {
    var r := c.targetSize / c.avgSize;
    RatioIsPositive(c.targetSize, c.avgSize);
    RatioIsPositive(r * c.targetSize, c.avgSize);
    r * c.targetSize / c.avgSize
  }

  lemma RatioIsPositive(a: real, b: real)
    requires a > 0.0 && b > 0.0
    ensures a / b > 0.0
  {
  }

  /** The quality to aim for, given how far the output is ahead of its rate. */
  function TargetQuality(c: Control): real
    requires Running(c)
  {
    var base := Base(c.kind, Scale(c), c.quality);
    var overflow := -(Deviation(c) as real / c.buffer as real);
    Aim(c.kind, base, overflow, c.targetSize)
  }

  /** The quantiser for that quality, before it is rounded. */
  function Exact(c: Control): (e: real)
    requires Running(c)
    ensures 1.0 <= e <= 2.0 / Low(c.kind)
  {
    ExactRange(TargetQuality(c), Low(c.kind));
    2.0 / TargetQuality(c)
  }

  lemma ExactRange(t: real, low: real)
    requires 0.0 < low <= t <= 2.0
    ensures 1.0 <= 2.0 / t <= 2.0 / low
  {
    Antitone(2.0, low, t);
    Antitone(2.0, t, 2.0);
  }

  lemma Antitone(a: real, x: real, y: real)
    requires a >= 0.0 && 0.0 < x <= y
    ensures a / y <= a / x
  {
    assert a / y * y == a && a / x * x == a;
  }

  // ----- the error-diffusing quantiser -----

  /** The rounded quantiser, and the errors left in the buckets. */
  function Diffused(limit: nat, err: seq<real>, exact: real): (int, seq<real>)
    requires limit <= |err| && exact >= 0.0
  {
    var q := exact.Floor;
    if q < limit then
      var e := err[q] + (exact - q as real);
      if e >= 1.0 then (q + 1, err[q := e - 1.0]) else (q, err[q := e])
    else (q, err)
  }

  ghost predicate Settled(err: seq<real>) { forall b :: 0 <= b < |err| ==> 0.0 <= err[b] < 1.0 }

  /** A frame's rounding is accounted for in its bucket, to the last digit. */
  lemma DiffusionConserves(limit: nat, err: seq<real>, exact: real)
    requires limit <= |err| && 0.0 <= exact && Settled(err)
    ensures var (q, after) := Diffused(limit, err, exact);
            && |after| == |err| && Settled(after)
            && exact.Floor <= q <= exact.Floor + 1
            && (forall b :: 0 <= b < |err| && b != exact.Floor ==> after[b] == err[b])
            && (exact.Floor < limit ==> exact + err[exact.Floor] == q as real + after[exact.Floor])
  {
  }

  /** The quantiser may change by one at a time, and stays in its range. */
  function Limited(prev: int, q: int, lo: int, hi: int): int {
    var s := if q > prev + 1 then prev + 1 else if q < prev - 1 then prev - 1 else q;
    if s > hi then hi else if s < lo then lo else s
  }

  /** It changes by one at most, whatever is asked for, exactly if it starts no further than one outside its range. */
  lemma ChangesByOneExactlyIf(prev: int, lo: int, hi: int)
    requires lo <= hi
    ensures (forall q :: -1 <= Limited(prev, q, lo, hi) - prev <= 1) <==> lo - 1 <= prev <= hi + 1
  {
    if !(lo - 1 <= prev <= hi + 1) {
      assert !(-1 <= Limited(prev, prev, lo, hi) - prev <= 1);
    }
  }

  /** The quantiser after `n` frames that all ask for `q`. */
  function Repeated(prev: int, q: int, lo: int, hi: int, n: nat): int
    decreases n
  {
    if n == 0 then prev else Repeated(Limited(prev, q, lo, hi), q, lo, hi, n - 1)
  }

  /** Inside the range it comes one nearer with every frame, and is reached in as many frames as it is away. */
  lemma {:induction false} AskedIsReached(prev: int, q: int, lo: int, hi: int, n: nat)
    requires lo <= prev <= hi && lo <= q <= hi
    ensures var r := Repeated(prev, q, lo, hi, n);
            r == if prev + n <= q then prev + n else if prev - n >= q then prev - n else q
    decreases n
  {
    if n > 0 {
      AskedIsReached(Limited(prev, q, lo, hi), q, lo, hi, n - 1);
    }
  }

  // ----- a frame -----

  predicate Valid(c: Control, err: seq<real>) { Running(c) && |err| == Buckets(c.kind) }

  /** `H264RateControlUpdate`, `RateControlUpdate` */
  function Update(c: Control, err: seq<real>, size: int, keyframe: bool): (Control, seq<real>)
    requires Valid(c, err) && Running(Averaged(c, size, keyframe))
  {
    var d := Averaged(c, size, keyframe);
    var (q, after) := Diffused(Limit(c.kind), err, Exact(d));
    (d.(quant := Limited(c.quant, q, c.minQuant, c.maxQuant)), after)
  }

  /** Frames of at least no bytes keep the average positive when it has a memory of more than one frame. */
  lemma StaysRunning(c: Control, size: int, keyframe: bool)
    requires Running(c) && size >= 0 && (c.delay >= 2 || size > 0)
    ensures Running(Averaged(c, size, keyframe))
  {
    var p := c.delay as real;
    SmoothedIsPositive(c.avgSize, size as real, p);
    hide Smoothed;
  }

  lemma SmoothedIsPositive(prev: real, sample: real, p: real)
    requires prev > 0.0 && sample >= 0.0 && p >= 1.0 && (p > 1.0 || sample > 0.0)
    ensures Smoothed(prev, sample, p) > 0.0
  {
    assert Smoothed(prev, sample, p) * p == prev * (p - 1.0) + sample;
  }

  // ----- runs -----

  datatype Frame = Frame(size: nat, keyframe: bool)

  /** Frames that keep the divisions defined. */
  predicate Codable(c: Control, frames: seq<Frame>) {
    c.delay >= 2 || forall i :: 0 <= i < |frames| ==> frames[i].size > 0
  }

  lemma UpdateIsValid(c: Control, err: seq<real>, f: Frame)
    requires Valid(c, err) && (c.delay >= 2 || f.size > 0)
    ensures Running(Averaged(c, f.size, f.keyframe))
    ensures var (d, after) := Update(c, err, f.size, f.keyframe);
            Valid(d, after) && d.delay == c.delay && d.kind == c.kind && d.minQuant == c.minQuant && d.maxQuant == c.maxQuant
  {
    StaysRunning(c, f.size, f.keyframe);
    hide Exact, Smoothed;
  }

  /** One frame's quantiser before and after rounding. */
  datatype Rounding = Rounding(exact: real, quant: int)

  function RoundingOf(c: Control, err: seq<real>, f: Frame): Rounding
    requires Valid(c, err) && (c.delay >= 2 || f.size > 0)
  {
    UpdateIsValid(c, err, f);
    var e := Exact(Averaged(c, f.size, f.keyframe));
    Rounding(e, Diffused(Limit(c.kind), err, e).0)
  }

  function After(c: Control, err: seq<real>, f: Frame): (Control, seq<real>)
    requires Valid(c, err) && (c.delay >= 2 || f.size > 0)
  {
    UpdateIsValid(c, err, f);
    Update(c, err, f.size, f.keyframe)
  }

  /** The controller after a run, and the roundings it made. */
  function Run(c: Control, err: seq<real>, frames: seq<Frame>): (Control, seq<real>, seq<Rounding>)
    requires Valid(c, err) && Codable(c, frames)
    decreases |frames|
  {
    if frames == [] then (c, err, [])
    else
      UpdateIsValid(c, err, frames[0]);
      var (d, after) := After(c, err, frames[0]);
      var (e, last, rest) := Run(d, after, frames[1..]);
      (e, last, [RoundingOf(c, err, frames[0])] + rest)
  }

  /** What a bucket was asked for, and what it gave. */
  function Asked(b: int, roundings: seq<Rounding>): real {
    if roundings == [] then 0.0
    else (if roundings[0].exact.Floor == b then roundings[0].exact else 0.0) + Asked(b, roundings[1..])
  }

  function Given(b: int, roundings: seq<Rounding>): int {
    if roundings == [] then 0
    else (if roundings[0].exact.Floor == b then roundings[0].quant else 0) + Given(b, roundings[1..])
  }

  lemma RoundingConserves(c: Control, err: seq<real>, f: Frame, b: nat)
    requires Valid(c, err) && (c.delay >= 2 || f.size > 0) && Settled(err) && b < Limit(c.kind)
    ensures var r := RoundingOf(c, err, f); var after := After(c, err, f).1;
            Settled(after) && |after| == |err| &&
            (if r.exact.Floor == b then r.exact + err[b] == r.quant as real + after[b] else after[b] == err[b])
  {
    UpdateIsValid(c, err, f);
    DiffusionConserves(Limit(c.kind), err, Exact(Averaged(c, f.size, f.keyframe)));
    hide Exact, Averaged, Diffused, Settled;
  }

  /** Over any run, every bucket gives what it was asked for, but for the error it still holds. */
  lemma {:induction false} RunConserves(c: Control, err: seq<real>, frames: seq<Frame>, b: nat)
    requires Valid(c, err) && Codable(c, frames) && Settled(err) && b < Limit(c.kind)
    ensures var (_, last, roundings) := Run(c, err, frames);
            Settled(last) && |last| == |err| && Asked(b, roundings) + err[b] == Given(b, roundings) as real + last[b]
    decreases |frames|
  {
    hide Settled, After, RoundingOf;
    if frames != [] {
      UpdateIsValid(c, err, frames[0]);
      RoundingConserves(c, err, frames[0], b);
      var (d, after) := After(c, err, frames[0]);
      KindStays(c, err, frames[0]);
      RunConserves(d, after, frames[1..], b);
      var (_, _, rest) := Run(d, after, frames[1..]);
      var roundings := Run(c, err, frames).2;
      assert roundings[1..] == rest && roundings[0] == RoundingOf(c, err, frames[0]);
    }
  }

  lemma KindStays(c: Control, err: seq<real>, f: Frame)
    requires Valid(c, err) && (c.delay >= 2 || f.size > 0)
    ensures var (d, after) := After(c, err, f);
            Valid(d, after) && d.delay == c.delay && d.kind == c.kind && d.minQuant == c.minQuant && d.maxQuant == c.maxQuant
  {
    UpdateIsValid(c, err, f);
  }

  /** From empty buckets the sums differ by less than one, in any run. */
  lemma RoundingErrorStaysBelowOne(c: Control, frames: seq<Frame>, b: nat)
    requires Valid(c, seq(Buckets(c.kind), _ => 0.0)) && Codable(c, frames) && b < Limit(c.kind)
    ensures var (_, _, roundings) := Run(c, seq(Buckets(c.kind), _ => 0.0), frames);
            0.0 <= Asked(b, roundings) - Given(b, roundings) as real < 1.0
  {
    var zero := seq(Buckets(c.kind), _ => 0.0);
    assert Settled(zero);
    RunConserves(c, zero, frames, b);
    var (_, last, _) := Run(c, zero, frames);
    assert 0.0 <= last[b] < 1.0;
  }

  /** In every frame of the run the quantiser is in its range and one step from the last at most. */
  ghost predicate Smooth(c: Control, err: seq<real>, frames: seq<Frame>)
    requires Valid(c, err) && Codable(c, frames)
    decreases |frames|
  {
    if frames == [] then true
    else
      KindStays(c, err, frames[0]);
      var (d, after) := After(c, err, frames[0]);
      c.minQuant <= d.quant <= c.maxQuant && -1 <= d.quant - c.quant <= 1 && Smooth(d, after, frames[1..])
  }

  lemma {:induction false} RunIsSmooth(c: Control, err: seq<real>, frames: seq<Frame>)
    requires Valid(c, err) && Codable(c, frames) && c.minQuant <= c.quant <= c.maxQuant
    ensures Smooth(c, err, frames)
    decreases |frames|
  {
    hide Averaged, Exact, Diffused;
    if frames != [] {
      KindStays(c, err, frames[0]);
      var (d, after) := After(c, err, frames[0]);
      RunIsSmooth(d, after, frames[1..]);
    }
  }

  // ----- the sign of the feedback -----

  lemma BaseIsAboveLow(k: Kind, scale: real, quality: real)
    requires scale > 0.0 && quality >= Low(k)
    ensures Base(k, scale, quality) >= Low(k)
  {
    var d := 1.0 - quality;
    if scale >= 1.0 {
      assert d / scale * scale == d;
      if d >= 0.0 { ShareIsSmaller(d, scale); } else { ShareIsNegative(d, scale); }
    } else {
      assert (quality - Low(k)) * scale >= 0.0;
    }
  }

  lemma ShareIsSmaller(d: real, s: real)
    requires d >= 0.0 && s >= 1.0
    ensures d / s <= d
  {
    Antitone(d, 1.0, s);
  }

  lemma ShareIsNegative(d: real, s: real)
    requires d < 0.0 && s >= 1.0
    ensures d / s < 0.0
  {
  }

  lemma CorrectionIsMonotone(a: real, x: real, y: real, t: real)
    requires a >= 0.0 && x <= y && t > 0.0
    ensures Correction(a, x, t) <= Correction(a, y, t)
  {
    assert a * x <= a * y;
  }

  lemma DeviationGrows(c: Control, more: nat)
    requires c.framerate != 0.0
    ensures Deviation(c) <= Deviation(c.(totalSize := c.totalSize + more))
  {
  }

  lemma OverflowShrinks(x: int, y: int, buffer: int)
    requires x <= y && buffer >= 1
    ensures -(y as real / buffer as real) <= -(x as real / buffer as real)
  {
  }

  lemma AimIsMonotone(k: Kind, base: real, o: real, p: real, targetSize: real)
    requires base >= Low(k) && o <= p && targetSize > 0.0
    ensures Aim(k, base, o, targetSize) <= Aim(k, base, p, targetSize)
  {
    hide Clamped, Low, Correction;
    var a := base - Low(k);
    CorrectionIsMonotone(a, o, p, targetSize);
    ClampedIsMonotone(k, base + Correction(a, o, targetSize), base + Correction(a, p, targetSize));
  }

  lemma ClampedIsMonotone(k: Kind, x: real, y: real)
    requires x <= y
    ensures Clamped(k, x) <= Clamped(k, y)
  {
    LowIsPositive(k);
    hide Low;
  }

  /** The more was sent, the coarser the quantiser that is aimed for. */
  lemma FeedbackIsNegative(c: Control, d: Control)
    requires Running(c) && c.quality >= Low(c.kind)
    requires d.totalSize >= c.totalSize && d == c.(totalSize := d.totalSize)
    ensures Exact(c) <= Exact(d)
  {
    hide Base, Scale, Deviation, Aim;
    DeviationGrows(c, d.totalSize - c.totalSize);
    var base := Base(c.kind, Scale(c), c.quality);
    assert Scale(d) == Scale(c) by { SameScale(c, d); }
    BaseIsAboveLow(c.kind, Scale(c), c.quality);
    OverflowShrinks(Deviation(c), Deviation(d), c.buffer);
    AimIsMonotone(c.kind, base, -(Deviation(d) as real / c.buffer as real), -(Deviation(c) as real / c.buffer as real), c.targetSize);
    assert TargetQuality(c) == Aim(c.kind, base, -(Deviation(c) as real / c.buffer as real), c.targetSize);
    assert TargetQuality(d) == Aim(c.kind, base, -(Deviation(d) as real / c.buffer as real), c.targetSize);
    assert TargetQuality(d) <= TargetQuality(c);
    hide *;
    ExactOrder(c, d);
  }

  lemma ExactOrder(c: Control, d: Control)
    requires Running(c) && Running(d) && TargetQuality(d) <= TargetQuality(c)
    ensures Exact(c) <= Exact(d)
  {
    hide TargetQuality, Low;
    LowIsPositive(d.kind);
    AimInRange(c);
    AimInRange(d);
    var x, y := TargetQuality(d), TargetQuality(c);
    Antitone(2.0, x, y);
    assert Exact(c) == 2.0 / y;
    assert Exact(d) == 2.0 / x;
  }

  lemma SameScale(c: Control, d: Control)
    requires Running(c) && Running(d) && c.targetSize == d.targetSize && c.avgSize == d.avgSize
    ensures Scale(c) == Scale(d)
  {
  }

  lemma LowIsPositive(k: Kind)
    ensures 0.0 < Low(k) < 0.1
  {
  }

  lemma AimInRange(c: Control)
    requires Running(c)
    ensures Low(c.kind) <= TargetQuality(c) <= 2.0
  {
    hide Base, Scale, Deviation;
  }

  // ----- the feedback on the averages -----

  /** Frames twice as large quarter the scale, half as large make it four times as large. */
  lemma ScaleIsInverseSquare(c: Control)
    requires Running(c)
    ensures Scale(c) * (c.avgSize * c.avgSize) == c.targetSize * c.targetSize
  {
    var t, a := c.targetSize, c.avgSize;
    var r := t / a;
    assert r * a == t;
    var s := r * t / a;
    assert s * a == r * t;
    assert s * (a * a) == (s * a) * a;
    assert (r * t) * a == (r * a) * t;
  }

  lemma ProductGrows(a: real, b: real, m: real)
    requires a <= b && m >= 0.0
    ensures a * m <= b * m
  {
  }

  lemma ProductIsNegative(a: real, m: real)
    requires a >= 0.0 && m <= 0.0
    ensures a * m <= 0.0
  {
  }

  lemma SquaredRatioFalls(t: real, r: real, q: real, x: real, y: real)
    requires t > 0.0 && 0.0 <= q <= r && 0.0 < x <= y
    ensures q * t / y <= r * t / x
  {
    ProductGrows(q, r, t);
    var a, b := q * t, r * t;
    assert b >= 0.0 by { ProductGrows(0.0, r, t); }
    QuotientGrows(a, b, y);
    Antitone(b, x, y);
  }

  lemma ScaleFalls(c: Control, d: Control)
    requires Running(c) && Running(d) && c.targetSize == d.targetSize && c.avgSize <= d.avgSize
    ensures Scale(d) <= Scale(c)
  {
    Antitone(c.targetSize, c.avgSize, d.avgSize);
    RatioIsPositive(c.targetSize, d.avgSize);
    SquaredRatioFalls(c.targetSize, c.targetSize / c.avgSize, c.targetSize / d.avgSize, c.avgSize, d.avgSize);
  }

  lemma QuotientGrows(a: real, b: real, x: real)
    requires a <= b && x > 0.0
    ensures a / x <= b / x
  {
    assert a / x * x == a && b / x * x == b;
  }

  lemma FractionIsSmaller(s: real, d: real)
    requires s <= 1.0 && d >= 0.0
    ensures s * d <= d
  {
    assert (1.0 - s) * d >= 0.0;
  }

  lemma BaseGrowsWithScale(k: Kind, s: real, t: real, quality: real)
    requires 0.0 < s <= t && Low(k) <= quality <= 1.0
    ensures Base(k, s, quality) <= Base(k, t, quality)
  {
    var up, down := 1.0 - quality, quality - Low(k);
    hide Low;
    if s >= 1.0 {
      Antitone(up, s, t);
    } else if t < 1.0 {
      ProductGrows(s, t, down);
    } else {
      ShareIsSmaller(up, t);
      FractionIsSmaller(s, down);
      var v, w := up / t, s * down;
      assert v <= up && w <= down;
      assert Base(k, s, quality) == Low(k) + w && Base(k, t, quality) == 1.0 - v;
    }
  }

  lemma BaseGrowsWithQuality(k: Kind, s: real, p: real, q: real)
    requires s > 0.0 && p <= q
    ensures Base(k, s, p) <= Base(k, s, q)
  {
    hide Low;
    if s >= 1.0 {
      QuotientGrows(1.0 - q, 1.0 - p, s);
    } else {
      var a, b := p - Low(k), q - Low(k);
      ProductGrows(a, b, s);
      assert Base(k, s, p) == Low(k) + a * s && Base(k, s, q) == Low(k) + b * s;
    }
  }

  lemma CorrectionIsProduct(above: real, overflow: real, targetSize: real)
    requires targetSize > 0.0
    ensures Correction(above, overflow, targetSize) == above * (overflow / targetSize)
  {
    var g := overflow / targetSize;
    assert g * targetSize == overflow;
    assert above * overflow == (above * g) * targetSize;
  }

  lemma FromTheBottom(low: real, x: real, g: real)
    ensures x + (x - low) * g == low + (x - low) * (1.0 + g)
  {
  }

  lemma ClampedBelow(k: Kind, quality: real)
    requires quality <= Low(k)
    ensures Clamped(k, quality) == Low(k)
  {
  }

  /**
   * A better base is never aimed lower, even when the overflow is so large that nothing but the lowest quality is
   * left.
   */
  lemma AimGrowsWithBase(k: Kind, x: real, y: real, overflow: real, targetSize: real)
    requires Low(k) <= x <= y && targetSize > 0.0
    ensures Aim(k, x, overflow, targetSize) <= Aim(k, y, overflow, targetSize)
  {
    hide Correction, Low, Clamped;
    CorrectionIsProduct(x - Low(k), overflow, targetSize);
    CorrectionIsProduct(y - Low(k), overflow, targetSize);
    var g := overflow / targetSize;
    FromTheBottom(Low(k), x, g);
    FromTheBottom(Low(k), y, g);
    if g >= -1.0 {
      ProductGrows(x - Low(k), y - Low(k), 1.0 + g);
      ClampedIsMonotone(k, x + Correction(x - Low(k), overflow, targetSize), y + Correction(y - Low(k), overflow, targetSize));
    } else {
      ProductIsNegative(x - Low(k), 1.0 + g);
      ProductIsNegative(y - Low(k), 1.0 + g);
      ClampedBelow(k, x + Correction(x - Low(k), overflow, targetSize));
      ClampedBelow(k, y + Correction(y - Low(k), overflow, targetSize));
    }
  }

  lemma TargetQualityIs(c: Control, base: real)
    requires Running(c) && base == Base(c.kind, Scale(c), c.quality)
    ensures TargetQuality(c) == Aim(c.kind, base, -(Deviation(c) as real / c.buffer as real), c.targetSize)
  {
    hide Base, Scale, Deviation, Aim;
  }

  lemma SameDeviation(c: Control, d: Control)
    requires Running(c) && Running(d) && d == c.(quality := d.quality, avgSize := d.avgSize)
    ensures Deviation(c) == Deviation(d)
  {
  }

  /** The larger the frames are on average, the coarser the quantiser that is aimed for. */
  lemma AverageFeedbackIsNegative(c: Control, d: Control)
    requires Running(c) && Running(d) && Low(c.kind) <= c.quality <= 1.0
    requires c.avgSize <= d.avgSize && d == c.(avgSize := d.avgSize)
    ensures Exact(c) <= Exact(d)
  {
    var x, y := Base(c.kind, Scale(c), c.quality), Base(d.kind, Scale(d), d.quality);
    hide *;
    SameDeviation(c, d);
    ScaleFalls(c, d);
    BaseGrowsWithScale(c.kind, Scale(d), Scale(c), c.quality);
    BaseIsAboveLow(d.kind, Scale(d), d.quality);
    AimGrowsWithBase(c.kind, y, x, -(Deviation(c) as real / c.buffer as real), c.targetSize);
    TargetQualityIs(c, x);
    TargetQualityIs(d, y);
    ExactOrder(c, d);
  }

  /** The better the quality has been, the finer the quantiser. */
  lemma QualityIsRemembered(c: Control, d: Control)
    requires Running(c) && Running(d) && Low(c.kind) <= c.quality <= d.quality && d == c.(quality := d.quality)
    ensures Exact(d) <= Exact(c)
  {
    var x, y := Base(c.kind, Scale(c), c.quality), Base(d.kind, Scale(d), d.quality);
    hide *;
    SameDeviation(c, d);
    SameScale(c, d);
    BaseGrowsWithQuality(c.kind, Scale(c), c.quality, d.quality);
    BaseIsAboveLow(c.kind, Scale(c), c.quality);
    AimGrowsWithBase(c.kind, x, y, -(Deviation(c) as real / c.buffer as real), c.targetSize);
    TargetQualityIs(c, x);
    TargetQualityIs(d, y);
    ExactOrder(d, c);
  }

  // ----- what the averages remember -----

  lemma SmoothedCloses(prev: real, sample: real, p: real)
    requires p >= 1.0
    ensures (Smoothed(prev, sample, p) - sample) * p == (prev - sample) * (p - 1.0)
  {
    var a, b := prev / p, sample / p;
    assert a * p == prev && b * p == sample;
    assert Smoothed(prev, sample, p) - sample == prev - a + b - sample;
    assert (prev - a + b - sample) * p == prev * p - a * p + b * p - sample * p;
  }

  /**
   * A frame closes a `delay`-th of the distance between the average size and its own, unless it is a key frame,
   * and a `period`-th of that between the average quality and the quantiser's, down to a tenth. Quantiser 1 counts for neither.
   */
  lemma AveragesFollow(c: Control, size: int, keyframe: bool)
    requires Running(c)
    ensures var d := Averaged(c, size, keyframe);
            && d.frames == c.frames + 1 && d.totalSize == c.totalSize + size
            && (c.quant <= 1 || keyframe ==> d.avgSize == c.avgSize)
            && (c.quant > 1 && !keyframe ==>
                  (d.avgSize - size as real) * c.delay as real == (c.avgSize - size as real) * (c.delay - 1) as real)
            && (c.quant <= 1 ==> d.quality == c.quality)
            && (c.quant > 1 ==>
                  var aim := 2.0 / c.quant as real;
                  d.quality >= 0.1 && (d.quality > 0.1 ==>
                    (d.quality - aim) * c.period as real == (c.quality - aim) * (c.period - 1) as real))
  {
    hide Smoothed;
    SmoothedCloses(c.avgSize, size as real, c.delay as real);
    if c.quant > 1 {
      SmoothedCloses(c.quality, 2.0 / c.quant as real, c.period as real);
    }
  }

  /** As long as a quantiser above 1 is in use, the average quality stays between a tenth and one. */
  lemma QualityStaysInRange(c: Control, size: int, keyframe: bool)
    requires Running(c) && c.quant >= 2 && 0.1 <= c.quality <= 1.0
    ensures 0.1 <= Averaged(c, size, keyframe).quality <= 1.0
  {
    var aim := 2.0 / c.quant as real;
    Antitone(2.0, 2.0, c.quant as real);
    assert aim <= 1.0;
    SmoothedIsBetween(c.quality, aim, c.period as real);
    hide Smoothed;
  }

  /** Conversion to an integer drops the fraction, on either side of zero. */
  lemma TruncatedTowardsZero(x: real)
    ensures x >= 0.0 ==> 0 <= Truncated(x) && Truncated(x) as real <= x < Truncated(x) as real + 1.0
    ensures x <= 0.0 ==> Truncated(x) <= 0 && Truncated(x) as real - 1.0 < x <= Truncated(x) as real
  {
  }

  // ----- the ends of the range, and the resting point -----

  /** A quotient too large for a bucket is a whole number, so nothing is lost there either. */
  lemma TopNeedsNoBucket(c: Control)
    requires Running(c)
    ensures Exact(c).Floor < Limit(c.kind) || Exact(c) == Limit(c.kind) as real
  {
    var e := Exact(c);
    assert 1.0 <= e <= 2.0 / Low(c.kind);
    hide Exact;
    assert c.kind.H264? ==> 2.0 / Low(c.kind) == 51.0;
    assert c.kind.Mpeg4? ==> 2.0 / Low(c.kind) < 31.0;
  }

  /** An average moves towards the sample, and never past it. */
  lemma SmoothedIsBetween(prev: real, sample: real, p: real)
    requires p >= 1.0
    ensures prev <= sample ==> prev <= Smoothed(prev, sample, p) <= sample
    ensures sample <= prev ==> sample <= Smoothed(prev, sample, p) <= prev
  {
    var d := sample - prev;
    assert Smoothed(prev, sample, p) == prev + d / p;
    if d >= 0.0 {
      Antitone(d, 1.0, p);
    } else {
      Antitone(-d, 1.0, p);
    }
  }

  /** Everything so far had the target size, and the average quality is that of the present quantiser. */
  predicate AtRest(c: Control) {
    && Running(c) && 1 <= c.quant <= 20 && c.minQuant <= c.quant <= c.maxQuant
    && c.targetSize == c.targetRate as real / 8.0 / c.framerate
    && c.avgSize == c.targetSize && c.quality == 2.0 / (c.quant as real)
    && c.totalSize as real == c.targetSize * c.frames as real
  }

  lemma QualityAtRest(q: int)
    requires 1 <= q <= 20
    ensures 0.1 <= 2.0 / q as real <= 2.0
    ensures 2.0 / (2.0 / q as real) == q as real
  {
    var x := q as real;
    assert 2.0 / x * x == 2.0;
    Antitone(2.0, 1.0, x);
    Antitone(2.0, x, 20.0);
    RatioIsPositive(2.0, x);
    DivideBack(2.0, x);
  }

  lemma DivideBack(a: real, x: real)
    requires a > 0.0 && x > 0.0
    ensures a / x > 0.0 && a / (a / x) == x
  {
    var y := a / x;
    assert y * x == a;
    RatioIsPositive(a, x);
    hide *;
    assert a / y == x by { assert x * y == a; }
  }

  lemma SmoothedAtRest(x: real, p: real)
    requires p >= 1.0
    ensures Smoothed(x, x, p) == x
  {
  }

  lemma AveragedAtRest(c: Control, size: nat, keyframe: bool)
    requires AtRest(c) && size as real == c.targetSize
    ensures Averaged(c, size, keyframe) == c.(frames := c.frames + 1, totalSize := c.totalSize + size)
    ensures AtRest(Averaged(c, size, keyframe))
  {
    SmoothedAtRest(c.quality, c.period as real);
    SmoothedAtRest(c.avgSize, c.delay as real);
    QualityAtRest(c.quant);
    hide Smoothed;
    assert c.targetSize * (c.frames + 1) as real == c.targetSize * c.frames as real + c.targetSize;
  }

  lemma ScaleAtRest(c: Control)
    requires Running(c) && c.avgSize == c.targetSize
    ensures Scale(c) == 1.0
  {
    var t := c.targetSize;
    assert t / t == 1.0;
    assert 1.0 * t == t;
    assert c.targetSize / c.avgSize * c.targetSize == t;
  }

  lemma DeviationAtRest(c: Control)
    requires AtRest(c)
    ensures Deviation(c) == 0
  {
    var x := c.totalSize as real - ((c.targetRate as real) / 8.0 / c.framerate) * c.frames as real;
    assert x == 0.0 by {
      assert c.targetRate as real / 8.0 / c.framerate == c.targetSize;
    }
    assert Deviation(c) == Truncated(x);
    assert Truncated(0.0) == 0;
  }

  lemma ExactAtRest(c: Control)
    requires AtRest(c)
    ensures Exact(c) == c.quant as real
  {
    ScaleAtRest(c);
    DeviationAtRest(c);
    QualityAtRest(c.quant);
    LowIsPositive(c.kind);
    hide Scale, Deviation, Low;
    assert Base(c.kind, 1.0, c.quality) == c.quality;
    assert Correction(c.quality - Low(c.kind), 0.0, c.targetSize) == 0.0;
    assert TargetQuality(c) == c.quality;
  }

  /** At rest the controller stays at rest: same quantiser, same averages, same rounding errors. */
  lemma RestIsKept(c: Control, err: seq<real>, size: nat, keyframe: bool)
    requires AtRest(c) && |err| == Buckets(c.kind) && Settled(err) && size as real == c.targetSize
    ensures Running(Averaged(c, size, keyframe))
    ensures Update(c, err, size, keyframe) == (c.(frames := c.frames + 1, totalSize := c.totalSize + size), err)
    ensures AtRest(Update(c, err, size, keyframe).0)
  {
    AveragedAtRest(c, size, keyframe);
    var d := Averaged(c, size, keyframe);
    ExactAtRest(d);
    DiffusedAtRest(Limit(c.kind), err, c.quant);
    hide Averaged, Exact, Smoothed, Diffused, Settled;
  }

  lemma DiffusedAtRest(limit: nat, err: seq<real>, q: int)
    requires 0 <= q < limit <= |err| && Settled(err)
    ensures Diffused(limit, err, q as real) == (q, err)
  {
    assert err[q := err[q]] == err;
  }
}
