/** The evaluation side of the sprite-sheet extractor: `getMappingProps`,
    which evaluates a resolved continuous sprite at a parameter assignment,
    hides it on an exactly-zero opacity or scale, and otherwise folds its
    transform channels into one affine matrix. The conversion of a rotation
    in degrees into a sine and cosine (`deg / 180 * Math.PI` then
    `Math.sin` / `Math.cos`) is the caller-supplied `trig`. */
module SheetMapping {
  import opened Wrappers
  import opened Errors
  import opened Vocabulary
  import opened Affine
  import opened Keyframes
  import opened SheetProps

  /** What `getMappingProps` returns: `{coords, hidden: true}` or
      `{coords, opacity, transform}`, where a null transform means no channel
      and a null opacity means no opacity channel (or one without a value). */
  datatype Mapping =
    | Hidden(coords: Coords)
    | Shown(coords: Coords, opacity: Option<real>, transform: Option<Mat6>)

  /** How many args each kind's matrix operation reads. */
  function Arity(k: Kind): nat {
    match k
    case Opacity => 1
    case Translate => 2
    case Scale => 2
    case Rotate => 3
  }

  /** A channel whose keyframes all carry at least as many numbers as its
      kind reads, none more than a later one. Shorter lists give NaN entries
      in the source, which this real-valued model does not represent. */
  predicate Evaluable(ch: Channel) {
    ArityGrows(ch.keyframes) && (|ch.keyframes| > 0 ==> |ch.keyframes[0].args| >= Arity(ch.kind))
  }

  predicate AllEvaluable(chs: seq<Channel>) {
    forall i :: 0 <= i < |chs| ==> Evaluable(chs[i])
  }

  predicate EvaluableSprite(p: Props) {
    (p.opacity.Some? ==> ArityGrows(p.opacity.value.keyframes)) && AllEvaluable(p.transforms)
  }

  /** `FromTransform[kind](args)`: a fresh matrix for one channel. The table
      has no `opacity` entry, so that kind fails. */
  function FromTransform(k: Kind, args: seq<real>, trig: real -> SinCos): (r: Result<Mat6, Error>)
    requires |args| >= Arity(k)
    ensures r.Ok? <==> k != Opacity
    ensures k == Translate ==> r == Ok(FromTranslation(Vec(args[0], args[1])))
    ensures k == Scale ==> r == Ok(FromScaling(Vec(args[0], args[1])))
    ensures k == Rotate ==> r == Ok(PivotRotation(trig(args[0]), Vec(args[1], args[2])))
  {
    match k
    case Translate => Ok(FromTranslation(Vec(args[0], args[1])))
    case Scale => Ok(FromScaling(Vec(args[0], args[1])))
    case Rotate => Ok(PivotRotation(trig(args[0]), Vec(args[1], args[2])))
    case Opacity => Err(NoMatrixOp("opacity"))
  }

  /** `Transform[kind](m, args)`: one channel applied in place to the matrix
      accumulated so far. It is post-multiplication by the channel's fresh
      matrix, and also fails on `opacity`. */
  function TransformInPlace(k: Kind, m: Mat6, args: seq<real>, trig: real -> SinCos): (r: Result<Mat6, Error>)
    requires |args| >= Arity(k)
    ensures r.Ok? <==> k != Opacity
    ensures r.Ok? ==> r.value == Mul(m, FromTransform(k, args, trig).value)
  {
    match k
    case Translate =>
      TranslateIsPostMultiply(m, Vec(args[0], args[1]));
      Ok(Affine.Translate(m, Vec(args[0], args[1])))
    case Scale =>
      ScaleIsPostMultiply(m, Vec(args[0], args[1]));
      Ok(Affine.Scale(m, Vec(args[0], args[1])))
    case Rotate => Ok(RotateAboutPivot(m, trig(args[0]), Vec(args[1], args[2])))
    case Opacity => Err(NoMatrixOp("opacity"))
  }

  /** A fresh matrix is the in-place operation applied to the identity. */
  lemma FromTransformIsInPlaceOnIdentity(k: Kind, args: seq<real>, trig: real -> SinCos)
    requires |args| >= Arity(k)
    ensures FromTransform(k, args, trig) == TransformInPlace(k, Identity, args, trig)
  {
    if k != Opacity {
      MulIdentity(FromTransform(k, args, trig).value);
    }
  }

  /** The culling test of a scale channel: either factor exactly zero. An
      absent factor is undefined in the source and never equals zero. */
  predicate ZeroScale(k: Kind, args: seq<real>) {
    k == Scale && ((|args| > 0 && args[0] == 0.0) || (|args| > 1 && args[1] == 0.0))
  }

  /** Where the loop stopped: hidden by a zero scale, or the folded matrix
      (None when there was no channel). */
  datatype Folded = ScaleHidden | Composed(transform: Option<Mat6>)

  /** The loop of `getMappingProps` over the transform channels, with the
      matrix accumulated so far (None before the first channel). Each
      channel is interpolated, checked for a zero scale, then turned into a
      fresh matrix (first channel) or applied in place (later channels). */
  function Compose(chs: seq<Channel>, params: map<ParamName, real>, trig: real -> SinCos, acc: Option<Mat6>): Result<Folded, Error>
    requires AllEvaluable(chs)
    decreases |chs|
  {
    if |chs| == 0 then Ok(Composed(acc))
    else
      var args :- GetInterpolatedArgs(chs[0], params);
      if ZeroScale(chs[0].kind, args) then Ok(ScaleHidden)
      else
        var m :- if acc.None? then FromTransform(chs[0].kind, args, trig)
                 else TransformInPlace(chs[0].kind, acc.value, args, trig);
        Compose(chs[1..], params, trig, Some(m))
  }

  /** A channel the loop gets past: it interpolates, is not a zero scale and
      has a matrix operation. */
  predicate Passes(ch: Channel, params: map<ParamName, real>)
    requires Evaluable(ch)
  {
    var args := GetInterpolatedArgs(ch, params);
    args.Ok? && !ZeroScale(ch.kind, args.value) && ch.kind != Opacity
  }

  /** A channel that hides the sprite when the loop reaches it. */
  predicate HidesByScale(ch: Channel, params: map<ParamName, real>)
    requires Evaluable(ch)
  {
    var args := GetInterpolatedArgs(ch, params);
    args.Ok? && ZeroScale(ch.kind, args.value)
  }

  /** Every channel's own fresh matrix at these parameters (the reference
      the fold is compared against). */
  function ChannelMatrices(chs: seq<Channel>, params: map<ParamName, real>, trig: real -> SinCos): Result<seq<Mat6>, Error>
    requires AllEvaluable(chs)
    decreases |chs|
  {
    if |chs| == 0 then Ok([])
    else
      var args :- GetInterpolatedArgs(chs[0], params);
      var m :- FromTransform(chs[0].kind, args, trig);
      var rest :- ChannelMatrices(chs[1..], params, trig);
      Ok([m] + rest)
  }

  /** identity·M0·M1·…: the map applying the last matrix first. */
  function Product(ms: seq<Mat6>): Mat6 {
    if |ms| == 0 then Identity else Mul(ms[0], Product(ms[1..]))
  }

  /** A point pushed through the matrices from the last one to the first. */
  function Through(ms: seq<Mat6>, p: Vec): Vec {
    if |ms| == 0 then p else Apply(ms[0], Through(ms[1..], p))
  }

  /** The product moves a point through the last matrix first. */
  lemma {:induction false} ProductMovesThrough(ms: seq<Mat6>, p: Vec)
    ensures Apply(Product(ms), p) == Through(ms, p)
  {
    if |ms| > 0 {
      ProductMovesThrough(ms[1..], p);
      ApplyMul(ms[0], Product(ms[1..]), p);
    }
  }

  /** The fold composes: when every channel passes, the loop's matrix is the
      product of the channels' own matrices, multiplied onto the matrix it
      started from. */
  lemma {:induction false} ComposeIsProduct(chs: seq<Channel>, params: map<ParamName, real>, trig: real -> SinCos, acc: Option<Mat6>)
    requires AllEvaluable(chs)
    requires PassBefore(chs, params, |chs|)
    ensures ChannelMatrices(chs, params, trig).Ok?
    ensures var ms := ChannelMatrices(chs, params, trig).value;
      Compose(chs, params, trig, acc) ==
        Ok(Composed(if acc.Some? then Some(Mul(acc.value, Product(ms)))
                    else if |chs| == 0 then None else Some(Product(ms))))
    decreases |chs|
  {
    if |chs| == 0 {
      if acc.Some? {
        MulIdentity(acc.value);
      }
    } else {
      var ch := chs[0];
      var rest := chs[1..];
      assert Passes(ch, params);
      assert forall i :: 0 <= i < |rest| ==> rest[i] == chs[i + 1];
      var args := GetInterpolatedArgs(ch, params).value;
      var m0 := FromTransform(ch.kind, args, trig).value;
      var m := if acc.None? then m0 else Mul(acc.value, m0);
      ComposeIsProduct(rest, params, trig, Some(m));
      var restMs := ChannelMatrices(rest, params, trig).value;
      assert ChannelMatrices(chs, params, trig) == Ok([m0] + restMs);
      var ms := [m0] + restMs;
      assert ms[1..] == restMs;
      assert Product(ms) == Mul(m0, Product(restMs));
      assert Compose(chs, params, trig, acc) == Compose(rest, params, trig, Some(m));
      if acc.Some? {
        MulAssociative(acc.value, m0, Product(restMs));
      }
    }
  }

  /** Every channel before position k passes. */
  predicate PassBefore(chs: seq<Channel>, params: map<ParamName, real>, k: int)
    requires AllEvaluable(chs)
    requires k <= |chs|
  {
    forall j :: 0 <= j < k ==> Passes(chs[j], params)
  }

  /** The loop reaches channel k and that channel is a zero scale. */
  predicate HiddenAt(chs: seq<Channel>, params: map<ParamName, real>, k: int)
    requires AllEvaluable(chs)
  {
    0 <= k < |chs| && HidesByScale(chs[k], params) && PassBefore(chs, params, k)
  }

  /** Past a passing first channel, positions shift by one. */
  lemma HiddenAtShift(chs: seq<Channel>, params: map<ParamName, real>, k: int)
    requires AllEvaluable(chs) && |chs| > 0 && Passes(chs[0], params)
    ensures AllEvaluable(chs[1..])
    ensures HiddenAt(chs, params, k + 1) <==> HiddenAt(chs[1..], params, k)
  {
    var rest := chs[1..];
    assert forall i :: 0 <= i < |rest| ==> rest[i] == chs[i + 1];
    if 0 <= k < |rest| {
      assert PassBefore(chs, params, k + 1) <==> PassBefore(rest, params, k) by {
        if PassBefore(rest, params, k) {
          forall j | 0 <= j < k + 1 ensures Passes(chs[j], params) {
            if j > 0 { assert chs[j] == rest[j - 1]; }
          }
        }
      }
    }
  }

  /** The loop hides the sprite exactly when some channel is a zero scale
      and every channel before it passes, whatever the matrix built so far. */
  lemma {:induction false} ComposeHidesIff(chs: seq<Channel>, params: map<ParamName, real>, trig: real -> SinCos, acc: Option<Mat6>)
    requires AllEvaluable(chs)
    ensures Compose(chs, params, trig, acc) == Ok(ScaleHidden) <==> exists k :: HiddenAt(chs, params, k)
    decreases |chs|
  {
    if |chs| > 0 {
      var ch := chs[0];
      var args := GetInterpolatedArgs(ch, params);
      if Passes(ch, params) {
        var m := if acc.None? then FromTransform(ch.kind, args.value, trig).value
                 else TransformInPlace(ch.kind, acc.value, args.value, trig).value;
        assert Compose(chs, params, trig, acc) == Compose(chs[1..], params, trig, Some(m));
        ComposeHidesIff(chs[1..], params, trig, Some(m));
        if k :| HiddenAt(chs[1..], params, k) {
          HiddenAtShift(chs, params, k);
        }
        if k :| HiddenAt(chs, params, k) {
          assert k != 0;
          HiddenAtShift(chs, params, k - 1);
        }
      } else if HidesByScale(ch, params) {
        assert HiddenAt(chs, params, 0);
      }
    }
  }

  /** The loop finishes with a matrix exactly when every channel passes. */
  lemma {:induction false} ComposeFinishesIff(chs: seq<Channel>, params: map<ParamName, real>, trig: real -> SinCos, acc: Option<Mat6>)
    requires AllEvaluable(chs)
    ensures (Compose(chs, params, trig, acc).Ok? && Compose(chs, params, trig, acc).value.Composed?) <==>
      PassBefore(chs, params, |chs|)
    decreases |chs|
  {
    if |chs| > 0 {
      var ch := chs[0];
      var rest := chs[1..];
      assert forall i :: 0 <= i < |rest| ==> rest[i] == chs[i + 1];
      var args := GetInterpolatedArgs(ch, params);
      if Passes(ch, params) {
        var m := if acc.None? then FromTransform(ch.kind, args.value, trig).value
                 else TransformInPlace(ch.kind, acc.value, args.value, trig).value;
        assert Compose(chs, params, trig, acc) == Compose(rest, params, trig, Some(m));
        ComposeFinishesIff(rest, params, trig, Some(m));
        if PassBefore(rest, params, |rest|) {
          forall j | 0 <= j < |chs| ensures Passes(chs[j], params) {
            if j > 0 { assert chs[j] == rest[j - 1]; }
          }
        }
      } else {
        assert !PassBefore(chs, params, |chs|);
      }
    }
  }

  /** `sprite.opacity && getInterpolatedArgs(sprite.opacity, params)[0]`:
      null without an opacity channel, undefined when the interpolated list is
      empty. */
  function OpacityValue(sprite: Props, params: map<ParamName, real>): (r: Result<Option<real>, Error>)
    requires sprite.opacity.Some? && sprite.opacity.value.param in params ==>
      SegmentFits(sprite.opacity.value.keyframes, params[sprite.opacity.value.param])
    ensures sprite.opacity.None? ==> r == Ok(None)
    ensures sprite.opacity.Some? ==>
      var args := GetInterpolatedArgs(sprite.opacity.value, params);
      && (r.Ok? <==> args.Ok?)
      && (r.Ok? ==> (r.value.Some? <==> |args.value| > 0))
      && (r.Ok? && r.value.Some? ==> r.value.value == args.value[0])
    ensures sprite.opacity.Some? && sprite.opacity.value.param !in params ==>
      r == Err(MissingParam(sprite.opacity.value.param))
    ensures sprite.opacity.Some? && sprite.opacity.value.param in params &&
            params[sprite.opacity.value.param] == 0.0 && |sprite.opacity.value.keyframes| > 0 ==>
      r == Ok(FirstArg(sprite.opacity.value.keyframes[0].args))
    ensures sprite.opacity.Some? && sprite.opacity.value.param in params &&
            params[sprite.opacity.value.param] == 1.0 && |sprite.opacity.value.keyframes| > 0 ==>
      r == Ok(FirstArg(sprite.opacity.value.keyframes[|sprite.opacity.value.keyframes| - 1].args))
    ensures sprite.opacity.Some? && sprite.opacity.value.param in params &&
            params[sprite.opacity.value.param] !in {0.0, 1.0} && r.Ok? && r.value.Some? ==>
      exists i :: FirstSegment(sprite.opacity.value.keyframes, params[sprite.opacity.value.param], i) &&
        Between(r.value.value, sprite.opacity.value.keyframes[i - 1].args[0], sprite.opacity.value.keyframes[i].args[0])
  {
    match sprite.opacity
    case None => Ok(None)
    case Some(ch) =>
      var args :- GetInterpolatedArgs(ch, params);
      if |args| > 0 && params[ch.param] !in {0.0, 1.0} then
        var kfs, t := ch.keyframes, params[ch.param];
        var i :| FirstSegment(kfs, t, i) && args == Lerp(kfs[i - 1], kfs[i], t);
        BlendBetween(kfs[i - 1].args[0], kfs[i].args[0], Fraction(kfs[i - 1].time, kfs[i].time, t));
        Ok(Some(args[0]))
      else
        Ok(FirstArg(args))
  }

  /** The first element of an args list: `args[0]`, undefined when empty. */
  function FirstArg(args: seq<real>): (r: Option<real>)
    ensures r.Some? <==> |args| > 0
    ensures r.Some? ==> r.value == args[0]
  {
    if |args| > 0 then Some(args[0]) else None
  }

  /** v lies between a and b, in whichever order they come. */
  predicate Between(v: real, a: real, b: real) {
    (a <= b ==> a <= v <= b) && (b <= a ==> b <= v <= a)
  }

  /** `getMappingProps`. The coordinates always come back unchanged. An
      opacity of exactly 0 hides the sprite before any transform is looked
      at; otherwise the transform loop either hides it (zero scale) or yields
      the folded matrix, which is null exactly when there are no transform
      channels. */
  function GetMappingProps(sprite: Props, params: map<ParamName, real>, trig: real -> SinCos): (r: Result<Mapping, Error>)
    requires EvaluableSprite(sprite)
    ensures r.Ok? ==> r.value.coords == sprite.coords
    ensures OpacityValue(sprite, params) == Ok(Some(0.0)) ==> r == Ok(Hidden(sprite.coords))
    ensures r.Ok? && r.value.Shown? ==>
      && OpacityValue(sprite, params) == Ok(r.value.opacity)
      && r.value.opacity != Some(0.0)
      && (r.value.transform.None? <==> |sprite.transforms| == 0)
  {
    var opacity :- OpacityValue(sprite, params);
    if opacity == Some(0.0) then Ok(Hidden(sprite.coords))
    else
      var folded :- Compose(sprite.transforms, params, trig, None);
      match folded
      case ScaleHidden => Ok(Hidden(sprite.coords))
      case Composed(m) =>
        ComposedIsNoneIff(sprite.transforms, params, trig, None);
        Ok(Shown(sprite.coords, opacity, m))
  }

  /** The fold yields no matrix exactly when it started without one and had
      no channel. */
  lemma {:induction false} ComposedIsNoneIff(chs: seq<Channel>, params: map<ParamName, real>, trig: real -> SinCos, acc: Option<Mat6>)
    requires AllEvaluable(chs)
    ensures var r := Compose(chs, params, trig, acc);
      r.Ok? && r.value.Composed? ==> (r.value.transform.None? <==> acc.None? && |chs| == 0)
    decreases |chs|
  {
    if |chs| > 0 {
      var args := GetInterpolatedArgs(chs[0], params);
      if args.Ok? && !ZeroScale(chs[0].kind, args.value) && chs[0].kind != Opacity {
        var m := if acc.None? then FromTransform(chs[0].kind, args.value, trig).value
                 else TransformInPlace(chs[0].kind, acc.value, args.value, trig).value;
        ComposedIsNoneIff(chs[1..], params, trig, Some(m));
      }
    }
  }

  /** When is a sprite hidden: exactly when its opacity is 0, or, with a
      usable opacity that is not 0, when some scale channel is zero and every
      channel before it passes. An absent opacity channel never hides. */
  lemma HiddenIff(sprite: Props, params: map<ParamName, real>, trig: real -> SinCos)
    requires EvaluableSprite(sprite)
    ensures GetMappingProps(sprite, params, trig) == Ok(Hidden(sprite.coords)) <==>
      || OpacityValue(sprite, params) == Ok(Some(0.0))
      || (&& OpacityValue(sprite, params).Ok?
          && OpacityValue(sprite, params) != Ok(Some(0.0))
          && exists k :: HiddenAt(sprite.transforms, params, k))
  {
    ComposeHidesIff(sprite.transforms, params, trig, None);
  }

  /** The matrix `getMappingProps` returns is the product of the channels'
      own matrices in list order, identity·M0·M1·…, so a point passes
      through the last channel (the first one authored) first. */
  lemma ShownTransformIsProduct(sprite: Props, params: map<ParamName, real>, trig: real -> SinCos)
    requires EvaluableSprite(sprite)
    requires GetMappingProps(sprite, params, trig).Ok?
    requires GetMappingProps(sprite, params, trig).value.Shown?
    requires |sprite.transforms| > 0
    ensures ChannelMatrices(sprite.transforms, params, trig).Ok?
    ensures GetMappingProps(sprite, params, trig).value.transform ==
      Some(Product(ChannelMatrices(sprite.transforms, params, trig).value))
  {
    ComposeFinishesIff(sprite.transforms, params, trig, None);
    ComposeIsProduct(sprite.transforms, params, trig, None);
  }

  /** A channel holding the same args at both ends of the parameter range. */
  function Constant(kind: Kind, args: seq<real>): Channel {
    Channel("rotation", kind, [Keyframe(0.0, args), Keyframe(1.0, args)])
  }

  /** At either end of the range a constant channel gives its args. */
  lemma ConstantArgs(kind: Kind, args: seq<real>, t: real)
    requires t == 0.0 || t == 1.0
    ensures UniformArity(Constant(kind, args).keyframes)
    ensures GetInterpolatedArgs(Constant(kind, args), map["rotation" := t]) == Ok(args)
  {
  }

  /** A concrete sprite with no opacity channel and the given channels. */
  function Sample(chs: seq<Channel>): Props {
    Props("FLAG", None, false, Coords(Vec(0.0, 0.0), BBox(0, 0, 0, 0)), chs, None)
  }

  /** The mapping is shown with a matrix that sends p to q. */
  predicate MovesPoint(r: Result<Mapping, Error>, p: Vec, q: Vec) {
    r.Ok? && r.value.Shown? && r.value.transform.Some? && Apply(r.value.transform.value, p) == q
  }

  /** Reading a point's image off a shown mapping, with the matrix kept
      abstract so that no arithmetic on its entries is needed. */
  lemma ShownMovesPoint(r: Result<Mapping, Error>, m: Mat6, p: Vec, q: Vec)
    requires r.Ok? && r.value.Shown? && r.value.transform == Some(m)
    requires Apply(m, p) == q
    ensures MovesPoint(r, p, q)
  {
  }

  /** A product sends p where its right factor sends it and then where its
      left factor sends that. */
  lemma ProductMovesPoint(m: Mat6, n: Mat6, p: Vec, q: Vec, u: Vec)
    requires Apply(n, p) == q && Apply(m, q) == u
    ensures Apply(Mul(m, n), p) == u
  {
    ApplyMul(m, n, p);
  }

  /** A sprite that rotates by deg about the origin, stored first, and
      translates by v, stored second: as authored, the translate came first. */
  function OrderChannels(deg: real, v: Vec): seq<Channel> {
    [Constant(Rotate, [deg, 0.0, 0.0]), Constant(Translate, [v.x, v.y])]
  }

  /** A constant translate channel applied in place to whatever matrix the
      loop has so far. */
  lemma TranslateStep(trig: real -> SinCos, m: Mat6, v: Vec, t: real)
    requires t == 0.0 || t == 1.0
    ensures AllEvaluable([Constant(Translate, [v.x, v.y])])
    ensures Compose([Constant(Translate, [v.x, v.y])], map["rotation" := t], trig, Some(m)) ==
      Ok(Composed(Some(Mul(m, FromTranslation(v)))))
  {
    var chs := [Constant(Translate, [v.x, v.y])];
    ConstantArgs(Translate, [v.x, v.y], t);
    assert Evaluable(chs[0]);
    assert chs[1..] == [];
  }

  /** A constant rotate channel, first in the list, starts the loop with its
      pivot rotation. */
  lemma RotateStep(trig: real -> SinCos, deg: real, pivot: Vec, rest: seq<Channel>, t: real)
    requires t == 0.0 || t == 1.0
    requires AllEvaluable(rest)
    ensures AllEvaluable([Constant(Rotate, [deg, pivot.x, pivot.y])] + rest)
    ensures Compose([Constant(Rotate, [deg, pivot.x, pivot.y])] + rest, map["rotation" := t], trig, None) ==
      Compose(rest, map["rotation" := t], trig, Some(PivotRotation(trig(deg), pivot)))
  {
    var args := [deg, pivot.x, pivot.y];
    var chs := [Constant(Rotate, args)] + rest;
    ConstantArgs(Rotate, args, t);
    assert Evaluable(chs[0]);
    assert Vec(args[1], args[2]) == pivot;
    assert forall i :: 0 <= i < |rest| ==> chs[i + 1] == rest[i];
    assert chs[1..] == rest;
  }

  /** On the two-channel sprite the loop yields rotation·translation. */
  lemma OrderFold(trig: real -> SinCos, deg: real, v: Vec)
    ensures EvaluableSprite(Sample(OrderChannels(deg, v)))
    ensures GetMappingProps(Sample(OrderChannels(deg, v)), map["rotation" := 0.0], trig) ==
      Ok(Shown(Sample(OrderChannels(deg, v)).coords, None,
               Some(Mul(PivotRotation(trig(deg), Vec(0.0, 0.0)), FromTranslation(v)))))
  {
    var rest := [Constant(Translate, [v.x, v.y])];
    TranslateStep(trig, PivotRotation(trig(deg), Vec(0.0, 0.0)), v, 0.0);
    RotateStep(trig, deg, Vec(0.0, 0.0), rest, 0.0);
    assert OrderChannels(deg, v) == [Constant(Rotate, [deg, 0.0, 0.0])] + rest;
  }

  /** Composition order: on the two-channel sprite the returned matrix
      moves a point by the authored translate first and turns it second. */
  lemma CompositionOrder(trig: real -> SinCos, deg: real, v: Vec, p: Vec)
    ensures EvaluableSprite(Sample(OrderChannels(deg, v)))
    ensures MovesPoint(GetMappingProps(Sample(OrderChannels(deg, v)), map["rotation" := 0.0], trig),
                       p, Turn(trig(deg), Shift(p, v)))
  {
    OrderFold(trig, deg, v);
    var r := PivotRotation(trig(deg), Vec(0.0, 0.0));
    var t := FromTranslation(v);
    FromTranslationMoves(v, p);
    PivotAtOrigin(trig(deg), Shift(p, v));
    ProductMovesPoint(r, t, p, Shift(p, v), Turn(trig(deg), Shift(p, v)));
    ShownMovesPoint(GetMappingProps(Sample(OrderChannels(deg, v)), map["rotation" := 0.0], trig),
                    Mul(r, t), p, Turn(trig(deg), Shift(p, v)));
  }

  /** The composition example with numbers: authored translate(1, 0) then
      rotate(90), the point (1, 0) goes to (2, 0) and then to (0, 2). */
  lemma CompositionOrderExample(trig: real -> SinCos)
    requires trig(90.0) == SinCos(1.0, 0.0)
    ensures MovesPoint(GetMappingProps(Sample(OrderChannels(90.0, Vec(1.0, 0.0))), map["rotation" := 0.0], trig),
                       Vec(1.0, 0.0), Vec(0.0, 2.0))
  {
    CompositionOrder(trig, 90.0, Vec(1.0, 0.0), Vec(1.0, 0.0));
    assert Turn(trig(90.0), Vec(2.0, 0.0)) == Vec(0.0, 2.0);
  }

  /** The one channel of a rotation by deg about pivot. */
  function PivotChannels(deg: real, pivot: Vec): seq<Channel> {
    [Constant(Rotate, [deg, pivot.x, pivot.y])]
  }

  /** Pivot direction: a rotate channel with pivot (x, y) shifts by +pivot,
      turns and shifts back, so the point it keeps still is (-x, -y). */
  lemma PivotDirection(trig: real -> SinCos, deg: real, pivot: Vec, q: Vec)
    ensures EvaluableSprite(Sample(PivotChannels(deg, pivot)))
    ensures MovesPoint(GetMappingProps(Sample(PivotChannels(deg, pivot)), map["rotation" := 1.0], trig),
                       q, Shift(Turn(trig(deg), Shift(q, pivot)), Neg(pivot)))
    ensures MovesPoint(GetMappingProps(Sample(PivotChannels(deg, pivot)), map["rotation" := 1.0], trig),
                       Neg(pivot), Neg(pivot))
  {
    var chs := PivotChannels(deg, pivot);
    var params: map<ParamName, real> := map["rotation" := 1.0];
    var m := PivotRotation(trig(deg), pivot);
    RotateStep(trig, deg, pivot, [], 1.0);
    assert chs == [Constant(Rotate, [deg, pivot.x, pivot.y])] + [];
    assert OpacityValue(Sample(chs), params) == Ok(None);
    var r := GetMappingProps(Sample(chs), params, trig);
    assert r == Ok(Shown(Sample(chs).coords, None, Some(m)));
    PivotRotationFixesNegatedPivot(trig(deg), pivot, q);
    ShownMovesPoint(r, m, q, Shift(Turn(trig(deg), Shift(q, pivot)), Neg(pivot)));
    ShownMovesPoint(r, m, Neg(pivot), Neg(pivot));
  }

  /** The pivot example with numbers: rotate(180, 2, 0) keeps (-2, 0) where
      it is and sends (3, 0) to (-7, 0). */
  lemma PivotExample(trig: real -> SinCos)
    requires trig(180.0) == SinCos(0.0, -1.0)
    ensures MovesPoint(GetMappingProps(Sample(PivotChannels(180.0, Vec(2.0, 0.0))), map["rotation" := 1.0], trig),
                       Vec(-2.0, 0.0), Vec(-2.0, 0.0))
    ensures MovesPoint(GetMappingProps(Sample(PivotChannels(180.0, Vec(2.0, 0.0))), map["rotation" := 1.0], trig),
                       Vec(3.0, 0.0), Vec(-7.0, 0.0))
  {
    PivotDirection(trig, 180.0, Vec(2.0, 0.0), Vec(3.0, 0.0));
    assert Turn(trig(180.0), Vec(5.0, 0.0)) == Vec(-5.0, 0.0);
  }
}
