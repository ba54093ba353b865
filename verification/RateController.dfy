/** The controllers as the program runs them, and the loop that reduces a frame rate to lowest terms. */
module RateController {
  import opened RateControl

  class Controller {
    const kind: Kind
    var quant: int
    var frames: int
    var totalSize: int
    var framerate: real
    var targetRate: int
    var maxQuant: int
    var minQuant: int
    var avgSize: real
    var targetSize: real
    var quality: real
    var period: int
    var delay: int
    var buffer: int
    var quantError: array<real>

    function State(): Control
      reads this
    {
      Control(kind, quant, frames, totalSize, framerate, targetRate, maxQuant, minQuant,
              avgSize, targetSize, quality, period, delay, buffer)
    }

    /** `H264RateControlInit`, `RateControlInit`; the latter is given thousandths of frames per second. */
    constructor (k: Kind, rate: nat, delayFactor: nat, averagingPeriod: nat, bufferSize: nat, fps: int, hi: int, lo: int, initial: nat)
      requires rate >= 1 && delayFactor >= 1 && averagingPeriod >= 1 && bufferSize >= 1 && fps >= 1 && initial >= 1
      ensures Valid(State(), quantError[..]) && fresh(quantError) && kind == k
      ensures quantError[..] == seq(Buckets(k), _ => 0.0)
      ensures quant == initial && minQuant == lo && maxQuant == hi && delay == delayFactor
      ensures targetSize == avgSize && targetSize * 8.0 * framerate == rate as real
      ensures framerate == if k.H264? then fps as real else fps as real / 1000.0
      ensures frames == totalSize == 0 && targetRate == rate && quality * initial as real == 2.0
      ensures period == averagingPeriod && buffer == bufferSize
    {
      kind := k;
      frames, totalSize, targetRate := 0, 0, rate;
      var f := if k.H264? then fps as real else fps as real / 1000.0;
      framerate := f;
      quant, maxQuant, minQuant := initial, hi, lo;
      quantError := new real[Buckets(k)](_ => 0.0);
      var t := rate as real / 8.0 / f;
      assert t * 8.0 * f == rate as real;
      RatioIsPositive(rate as real, 8.0);
      RatioIsPositive(rate as real / 8.0, f);
      targetSize, avgSize := t, t;
      quality := 2.0 / initial as real;
      delay, period, buffer := delayFactor, averagingPeriod, bufferSize;
    }

    /** The sums and averages. */
    method Average(frameSize: int, keyframe: bool)
      requires Running(State())
      modifies this
      ensures State() == Averaged(old(State()), frameSize, keyframe) && quantError == old(quantError)
    {
      frames := frames + 1;
      totalSize := totalSize + frameSize;
      if quant >= 2 {
        var p := period as real;
        quality := quality - quality / p;
        quality := quality + 2.0 / quant as real / p;
        if quality < 0.1 {
          quality := 0.1;
        }
        if !keyframe {
          var d := delay as real;
          avgSize := avgSize - avgSize / d;
          avgSize := avgSize + frameSize as real / d;
        }
      }
    }

    /** Rounds a quantiser and keeps the error in its bucket. */
    method Diffuse(exact: real) returns (q: int)
      requires quantError.Length == Buckets(kind) && exact >= 0.0
      modifies quantError
      ensures q == Diffused(Limit(kind), old(quantError[..]), exact).0
      ensures quantError[..] == Diffused(Limit(kind), old(quantError[..]), exact).1
    {
      q := exact.Floor;
      if q < Limit(kind) {
        ghost var b := q;
        quantError[q] := quantError[q] + (exact - q as real);
        if quantError[q] >= 1.0 {
          quantError[q] := quantError[q] - 1.0;
          q := q + 1;
        }
      }
    }

    /** `H264RateControlUpdate`, `RateControlUpdate` */
    method Step(frameSize: int, keyframe: bool)
      requires Valid(State(), quantError[..]) && Running(Averaged(State(), frameSize, keyframe))
      modifies this, quantError
      ensures quantError == old(quantError)
      ensures State() == Update(old(State()), old(quantError[..]), frameSize, keyframe).0
      ensures quantError[..] == Update(old(State()), old(quantError[..]), frameSize, keyframe).1
    {
      hide Exact, Diffused, Averaged;
      AveragedKeeps(State(), frameSize, keyframe);
      Average(frameSize, keyframe);
      var q := Diffuse(Exact(State()));
      if q > quant + 1 {
        q := quant + 1;
      } else if q < quant - 1 {
        q := quant - 1;
      }
      if q > maxQuant {
        q := maxQuant;
      } else if q < minQuant {
        q := minQuant;
      }
      quant := q;
    }
  }

  // ----- `get_framerate` -----

  predicate CommonDivisor(i: int, a: int, b: int) { i > 1 && a % i == 0 && b % i == 0 }

  predicate SameFraction(a: int, b: int, x: int, y: int) { a * y == b * x }

  lemma ProductGrows(d: int, i: int)
    requires d >= 1 && i >= 2
    ensures d * i > d
  {
  }

  lemma PositiveFactor(d: int, i: int)
    requires i > 0 && d * i > 0
    ensures d > 0
  {
  }

  lemma ExactShare(a: int, i: int)
    requires i > 1 && a > 0 && a % i == 0
    ensures a / i * i == a && 0 < a / i < a
  {
    var d := a / i;
    assert a == d * i + a % i;
    hide *;
    PositiveFactor(d, i);
    ProductGrows(d, i);
  }

  lemma RatioIsTransitive(a: int, b: int, x: int, y: int, i: int, u: int, v: int)
    requires a * i == x && b * i == y && i > 0 && x * v == y * u
    ensures a * v == b * u
  {
    assert (a * v) * i == (b * u) * i;
  }

  lemma ReduceBy(a: int, b: int, i: int, u: int, v: int)
    requires a > 0 && b > 0 && CommonDivisor(i, a, b) && SameFraction(a, b, u, v)
    ensures 0 < a / i < a && 0 < b / i < b && SameFraction(a / i, b / i, u, v)
  {
    ExactShare(a, i);
    ExactShare(b, i);
    RatioIsTransitive(a / i, b / i, a, b, i, u, v);
  }

  lemma NoneAbove(j: int, a: int, b: int)
    requires j > a > 0
    ensures !CommonDivisor(j, a, b)
  {
  }

  /** The loop of `get_framerate` finds the same fraction in lowest terms. */
  method Reduce(incr: int, base: int) returns (fincr: int, fbase: int)
    requires incr > 0 && base > 0
    ensures 0 < fincr <= incr && 0 < fbase <= base
    ensures SameFraction(fincr, fbase, incr, base)
    ensures forall i :: !CommonDivisor(i, fincr, fbase)
  {
    fincr, fbase := incr, base;
    var i := fincr;
    assert SameFraction(fincr, fbase, incr, base) by { assert incr * base == base * incr; }
    forall j | j > fincr ensures !CommonDivisor(j, fincr, fbase) { NoneAbove(j, fincr, fbase); }
    assert forall j :: j <= 1 ==> !CommonDivisor(j, fincr, fbase);
    hide SameFraction;
    while i > 1
      invariant 0 < fincr <= incr && 0 < fbase <= base && 1 <= i <= fincr
      invariant SameFraction(fincr, fbase, incr, base)
      invariant forall j :: i < j || j <= 1 ==> !CommonDivisor(j, fincr, fbase)
      decreases fincr, i
    {
      if fincr % i == 0 && fbase % i == 0 {
        assert CommonDivisor(i, fincr, fbase);
        ReduceBy(fincr, fbase, i, incr, base);
        fincr, fbase := fincr / i, fbase / i;
        i := fincr;
        forall j | j > fincr ensures !CommonDivisor(j, fincr, fbase) { NoneAbove(j, fincr, fbase); }
      } else {
        i := i - 1;
      }
    }
  }
}
