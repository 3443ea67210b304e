/** Keyframed animation channels and their piecewise-linear evaluation
    (`getInterpolatedArgs`). */
module Keyframes {
  import opened Wrappers
  import opened Errors
  import opened Vocabulary

  /** The value of a channel at one normalized time: `{time, args}`. */
  datatype Keyframe = Keyframe(time: real, args: seq<real>)

  /** One resolved animation element: the parameter that drives it, what it
      animates, and its keyframes in authored order. */
  datatype Channel = Channel(param: ParamName, kind: Kind, keyframes: seq<Keyframe>)

  /** Every keyframe of the channel carries the same number of args. */
  predicate UniformArity(kfs: seq<Keyframe>) {
    forall i :: 0 <= i < |kfs| ==> |kfs[i].args| == |kfs[0].args|
  }

  /** No keyframe carries more args than a later one. */
  predicate ArityGrows(kfs: seq<Keyframe>) {
    forall i, j :: 0 <= i <= j < |kfs| ==> |kfs[i].args| <= |kfs[j].args|
  }

  /** Key times strictly increase. The source assumes this and never checks it. */
  predicate Ascending(kfs: seq<Keyframe>) {
    forall i, j :: 0 <= i < j < |kfs| ==> kfs[i].time < kfs[j].time
  }

  /** `keyframes.findIndex(k => k.time > t)`: the first index whose time is
      past t, or -1 when there is none. */
  function FindIndex(kfs: seq<Keyframe>, t: real): (i: int)
    ensures -1 <= i < |kfs|
    ensures 0 <= i ==> kfs[i].time > t
    ensures forall j :: 0 <= j < |kfs| && (i == -1 || j < i) ==> kfs[j].time <= t
  {
    if |kfs| == 0 then -1
    else if kfs[0].time > t then 0
    else
      var k := FindIndex(kfs[1..], t);
      if k == -1 then -1 else k + 1
  }

  /** How far t lies along [t0, t1): the `t` of the source's interpolation. */
  function Fraction(t0: real, t1: real, t: real): (f: real)
    requires t0 <= t < t1
    ensures 0.0 <= f < 1.0
    ensures t0 + f * (t1 - t0) == t
    ensures t == t0 <==> f == 0.0
  {
    QuotientBelowOne(t - t0, t1 - t0);
    (t - t0) / (t1 - t0)
  }

  lemma QuotientBelowOne(n: real, d: real)
    requires 0.0 <= n < d
    ensures 0.0 <= n / d < 1.0
    ensures n / d * d == n
    ensures n == 0.0 <==> n / d == 0.0
  {
    var f := n / d;
    assert f * d == n;
    var g := 1.0 - f;
    assert g * d == d - f * d;
    assert 0.0 < g * d;
    PositiveFactor(g, d);
    if f < 0.0 {
      ProductNonnegative(-f, d);
    }
  }

  lemma PositiveFactor(x: real, d: real)
    requires 0.0 < d && 0.0 < x * d
    ensures 0.0 < x
  {
    if x <= 0.0 {
      ProductNonnegative(-x, d);
    }
  }

  lemma ProductNonnegative(x: real, y: real)
    requires 0.0 <= x && 0.0 <= y
    ensures 0.0 <= x * y
  {
  }

  /** The blend (1 - f)·a + f·b. */
  function Blend(a: real, b: real, f: real): real {
    (1.0 - f) * a + f * b
  }

  /** A blend with 0 <= f < 1 stays between a and b, and f = 0 gives a. */
  lemma BlendBetween(a: real, b: real, f: real)
    requires 0.0 <= f < 1.0
    ensures a <= b ==> a <= Blend(a, b, f) <= b
    ensures b <= a ==> b <= Blend(a, b, f) <= a
    ensures f == 0.0 ==> Blend(a, b, f) == a
  {
    var e := f * (b - a);
    assert Blend(a, b, f) == a + e;
    assert (1.0 - f) * (b - a) == (b - a) - e;
    if a <= b {
      ProductNonnegative(f, b - a);
      ProductNonnegative(1.0 - f, b - a);
    } else {
      ProductNonnegative(f, a - b);
      ProductNonnegative(1.0 - f, a - b);
      assert f * (a - b) == -e;
      assert (1.0 - f) * (a - b) == (a - b) + e;
    }
  }

  /** Linear interpolation between two neighbouring keyframes at t: element k
      blends prev's and next's k-th args by the fraction of t along the
      segment. */
  function Lerp(prev: Keyframe, next: Keyframe, t: real): (r: seq<real>)
    requires prev.time <= t < next.time
    requires |prev.args| <= |next.args|
    ensures |r| == |prev.args|
    ensures forall k :: 0 <= k < |r| ==> r[k] == Blend(prev.args[k], next.args[k], Fraction(prev.time, next.time, t))
  {
    var f := Fraction(prev.time, next.time, t);
    seq(|prev.args|, k requires 0 <= k < |prev.args| => Blend(prev.args[k], next.args[k], f))
  }

  /** Every interpolated element lies between the two keyframes' values, and
      at the segment's start the previous keyframe's args come back exactly. */
  lemma LerpBetween(prev: Keyframe, next: Keyframe, t: real)
    requires prev.time <= t < next.time
    requires |prev.args| <= |next.args|
    ensures forall k :: 0 <= k < |prev.args| ==>
      (prev.args[k] <= next.args[k] ==> prev.args[k] <= Lerp(prev, next, t)[k] <= next.args[k]) &&
      (next.args[k] <= prev.args[k] ==> next.args[k] <= Lerp(prev, next, t)[k] <= prev.args[k])
    ensures t == prev.time ==> Lerp(prev, next, t) == prev.args
  {
    var f := Fraction(prev.time, next.time, t);
    var r := Lerp(prev, next, t);
    forall k | 0 <= k < |prev.args|
      ensures (prev.args[k] <= next.args[k] ==> prev.args[k] <= r[k] <= next.args[k])
      ensures (next.args[k] <= prev.args[k] ==> next.args[k] <= r[k] <= prev.args[k])
      ensures f == 0.0 ==> r[k] == prev.args[k]
    {
      BlendBetween(prev.args[k], next.args[k], f);
    }
  }

  /** Some key time lies at or before t and some lies past it: the first
      key time is at most t and a later one exceeds it. */
  predicate HasSegment(kfs: seq<Keyframe>, t: real) {
    |kfs| > 0 && kfs[0].time <= t && exists j :: 0 <= j < |kfs| && kfs[j].time > t
  }

  /** Index i is the first one whose key time is past t, and i - 1 exists:
      the segment [kfs[i - 1].time, kfs[i].time) that `findIndex` picks. */
  predicate FirstSegment(kfs: seq<Keyframe>, t: real, i: int) {
    && 1 <= i < |kfs|
    && kfs[i - 1].time <= t < kfs[i].time
    && forall k :: 0 <= k < i ==> kfs[k].time <= t
  }

  /** The blend at t, if the source makes one, reads only defined args: t
      is exactly 0 or 1, which return a keyframe's args without blending, or
      the segment t falls in, if any, gives every arg of its previous
      keyframe a partner in its next one. Otherwise the source blends with
      an undefined entry and produces NaN, which this real-valued model does
      not represent. */
  predicate SegmentFits(kfs: seq<Keyframe>, t: real) {
    || t == 0.0
    || t == 1.0
    || forall i :: 1 <= i < |kfs| && FirstSegment(kfs, t, i) ==> |kfs[i - 1].args| <= |kfs[i].args|
  }

  /** Growing arities fit every segment. */
  lemma GrowingFitsEverySegment(kfs: seq<Keyframe>, t: real)
    requires ArityGrows(kfs)
    ensures SegmentFits(kfs, t)
  {
  }

  /** The interpolation rule of `getInterpolatedArgs` at time t.
      Exactly 0 and exactly 1 return the first and the last keyframe's args,
      whatever the key times. Any other t uses the segment `findIndex` picks;
      when that index is below 1 the source dereferences undefined, modelled
      as an error. */
  function Interpolate(kfs: seq<Keyframe>, t: real): (r: Result<seq<real>, Error>)
    requires SegmentFits(kfs, t)
    ensures (t == 0.0 || t == 1.0) ==> (r.Ok? <==> |kfs| > 0)
    ensures t == 0.0 && |kfs| > 0 ==> r == Ok(kfs[0].args)
    ensures t == 1.0 && |kfs| > 0 ==> r == Ok(kfs[|kfs| - 1].args)
    ensures t != 0.0 && t != 1.0 ==>
      (r.Ok? <==> HasSegment(kfs, t))
    ensures t != 0.0 && t != 1.0 && r.Ok? ==>
      exists i :: FirstSegment(kfs, t, i) && r.value == Lerp(kfs[i - 1], kfs[i], t)
    ensures r.Ok? && UniformArity(kfs) ==> |r.value| == |kfs[0].args|
    ensures r.Ok? && ArityGrows(kfs) ==> |r.value| >= |kfs[0].args|
    ensures r.Err? ==> r.error == NoKeyframeSegment(t)
  {
    if t == 0.0 then
      if |kfs| == 0 then Err(NoKeyframeSegment(t)) else Ok(kfs[0].args)
    else if t == 1.0 then
      if |kfs| == 0 then Err(NoKeyframeSegment(t)) else Ok(kfs[|kfs| - 1].args)
    else
      var i := FindIndex(kfs, t);
      if i < 1 then Err(NoKeyframeSegment(t))
      else Ok(Lerp(kfs[i - 1], kfs[i], t))
  }

  /** Any t from the first key time up to (not including) the last one
      evaluates, whatever the order of the key times in between. */
  lemma InterpolateWithinRange(kfs: seq<Keyframe>, t: real)
    requires SegmentFits(kfs, t)
    requires |kfs| > 0 && kfs[0].time <= t < kfs[|kfs| - 1].time
    ensures Interpolate(kfs, t).Ok?
  {
  }

  /** Reference reading of the rule for well-formed channels: with strictly
      ascending key times, a t other than 0 and 1 inside segment
      [kfs[j].time, kfs[j+1].time) interpolates between exactly those two
      keyframes, and only their two arities matter. */
  lemma {:induction false} InterpolateOnSegment(kfs: seq<Keyframe>, j: nat, t: real)
    requires Ascending(kfs)
    requires j + 1 < |kfs| && kfs[j].time <= t < kfs[j + 1].time
    requires |kfs[j].args| <= |kfs[j + 1].args|
    requires t != 0.0 && t != 1.0
    ensures SegmentFits(kfs, t)
    ensures Interpolate(kfs, t) == Ok(Lerp(kfs[j], kfs[j + 1], t))
  {
    forall i | FirstSegment(kfs, t, i)
      ensures i == j + 1
    {
    }
    FindIndexOnSegment(kfs, j, t);
  }

  lemma {:induction false} FindIndexOnSegment(kfs: seq<Keyframe>, j: nat, t: real)
    requires Ascending(kfs)
    requires j + 1 < |kfs| && kfs[j].time <= t < kfs[j + 1].time
    ensures FindIndex(kfs, t) == j + 1
  {
    var i := FindIndex(kfs, t);
    assert kfs[j + 1].time > t;
  }

  /** `getInterpolatedArgs(channel, params)`: the channel evaluated at the
      value its parameter has in `params`. A missing parameter is undefined in
      the source, which then fails to find a segment. */
  function GetInterpolatedArgs(ch: Channel, params: map<ParamName, real>): (r: Result<seq<real>, Error>)
    requires ch.param in params ==> SegmentFits(ch.keyframes, params[ch.param])
    ensures ch.param !in params ==> r == Err(MissingParam(ch.param))
    ensures ch.param in params ==> r == Interpolate(ch.keyframes, params[ch.param])
    ensures ch.param in params && params[ch.param] in {0.0, 1.0} ==> (r.Ok? <==> |ch.keyframes| > 0)
    ensures ch.param in params && params[ch.param] == 0.0 && |ch.keyframes| > 0 ==>
      r == Ok(ch.keyframes[0].args)
    ensures ch.param in params && params[ch.param] == 1.0 && |ch.keyframes| > 0 ==>
      r == Ok(ch.keyframes[|ch.keyframes| - 1].args)
    ensures ch.param in params && params[ch.param] !in {0.0, 1.0} ==>
      (r.Ok? <==> HasSegment(ch.keyframes, params[ch.param]))
    ensures ch.param in params && params[ch.param] !in {0.0, 1.0} && r.Ok? ==>
      exists i :: FirstSegment(ch.keyframes, params[ch.param], i) &&
        r.value == Lerp(ch.keyframes[i - 1], ch.keyframes[i], params[ch.param])
    ensures r.Ok? && UniformArity(ch.keyframes) ==> |r.value| == |ch.keyframes[0].args|
    ensures r.Ok? && ArityGrows(ch.keyframes) ==> |r.value| >= |ch.keyframes[0].args|
  {
    if ch.param !in params then Err(MissingParam(ch.param))
    else Interpolate(ch.keyframes, params[ch.param])
  }

  /** The boundary example for the channel [{0, [1]}, {1, [0]}]: 0 gives [1],
      1 gives [0], and 0.5 gives [0.5]. */
  lemma HalfwayExample()
    ensures Interpolate([Keyframe(0.0, [1.0]), Keyframe(1.0, [0.0])], 0.0) == Ok([1.0])
    ensures Interpolate([Keyframe(0.0, [1.0]), Keyframe(1.0, [0.0])], 1.0) == Ok([0.0])
    ensures Interpolate([Keyframe(0.0, [1.0]), Keyframe(1.0, [0.0])], 0.5) == Ok([0.5])
  {
    var kfs := [Keyframe(0.0, [1.0]), Keyframe(1.0, [0.0])];
    assert FindIndex(kfs, 0.5) == 1;
    var r := Lerp(kfs[0], kfs[1], 0.5);
    assert Fraction(0.0, 1.0, 0.5) == 0.5;
    assert r[0] == 0.5;
    assert r == [0.5];
  }

  /** At the exact ends nothing is blended, so arities may shrink: the
      channel [{0, [1, 2]}, {0.5, [3]}, {1, [4]}] gives [1, 2] at 0 and [4]
      at 1. */
  lemma ShrinkingAtEndsExample()
    ensures Interpolate([Keyframe(0.0, [1.0, 2.0]), Keyframe(0.5, [3.0]), Keyframe(1.0, [4.0])], 0.0) == Ok([1.0, 2.0])
    ensures Interpolate([Keyframe(0.0, [1.0, 2.0]), Keyframe(0.5, [3.0]), Keyframe(1.0, [4.0])], 1.0) == Ok([4.0])
  {
  }

  /** A longer next keyframe is fine: the blend reads only as many args as
      the previous keyframe has, so [{0, [1]}, {1, [3, 4]}] gives [2] at 0.5. */
  lemma LongerNextExample()
    ensures Interpolate([Keyframe(0.0, [1.0]), Keyframe(1.0, [3.0, 4.0])], 0.5) == Ok([2.0])
  {
    var kfs := [Keyframe(0.0, [1.0]), Keyframe(1.0, [3.0, 4.0])];
    assert FindIndex(kfs, 0.5) == 1;
    assert Fraction(0.0, 1.0, 0.5) == 0.5;
    var r := Lerp(kfs[0], kfs[1], 0.5);
    assert r[0] == 2.0;
    assert r == [2.0];
  }
}
