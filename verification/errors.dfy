/** Every way the two pipelines stop: the `throw new Error(...)` sites of the
    source, and the places where it dereferences null or undefined and so dies
    with a TypeError. */
module Errors {
  import opened Wrappers

  datatype Error =
      /** `unknown point: ...` */
    | UnknownPoint(point: Option<string>)
      /** `unknown param: ...` */
    | UnknownParam(param: Option<string>)
      /** `unsupported transform type: ...` */
    | UnsupportedTransformType(transformType: Option<string>)
      /** `unsupported animated attribute: ...` */
    | UnsupportedAttribute(attributeName: Option<string>)
      /** `keyTimes[i]` is undefined: fewer key times than values */
    | MissingKeyTime(index: nat)
      /** `getElementById(copy)` returned null */
    | MissingCopyTarget(id: string)
      /** a copy chain longer than the fuel the caller allowed (the source has no guard) */
    | CopyChainTooLong
      /** `querySelector('.lr-anchor')` or `'.lr-bbox'` returned null */
    | MissingMarker(className: string)
      /** `params[param]` is undefined, so no keyframe segment can be found */
    | MissingParam(paramName: string)
      /** `findIndex` landed below 1, so `prev` (or the keyframe list itself) is undefined */
    | NoKeyframeSegment(time: real)
      /** `FromTransform[type]` / `Transform[type]` has no entry for this type */
    | NoMatrixOp(kindName: string)
}
