/** The closed vocabularies both extractors validate against, and the
    validators themselves. Both source files declare identical POINTS and
    PARAMS lists; they are defined once here. */
module Vocabulary {
  import opened Wrappers
  import opened Errors

  /** Named skeletal landmarks an anchor or look-at may refer to. */
  const POINTS: seq<string> := [
    "FLAG", "START_FLAG", "PEG", "TAIL", "NOSE", "STRING", "BUTT", "SHOULDER",
    "RHAND", "LHAND", "LFOOT", "RFOOT",
    "SCARF_0", "SCARF_1", "SCARF_2", "SCARF_3", "SCARF_4", "SCARF_5", "SCARF_6"]

  /** Animation parameters a sprite may depend on. */
  const PARAMS: seq<string> := ["rotation", "blinking", "broken", "crashed"]

  /** Transform types an animation element may declare. */
  const TRANSFORM_TYPES: seq<string> := ["opacity", "translate", "scale", "rotate"]

  type PointName = s: string | s in POINTS witness "FLAG"

  type ParamName = s: string | s in PARAMS witness "rotation"

  /** The transform types as a tagged variant instead of string keys. */
  datatype Kind = Opacity | Translate | Scale | Rotate {

    /** The string the source uses for this kind. */
    function Name(): (s: string)
      ensures s in TRANSFORM_TYPES
    {
      match this
      case Opacity => "opacity"
      case Translate => "translate"
      case Scale => "scale"
      case Rotate => "rotate"
    }
  }

  /** The kind a type string names, if it is one of TRANSFORM_TYPES. */
  function KindNamed(s: string): (r: Option<Kind>)
    ensures r.Some? <==> s in TRANSFORM_TYPES
    ensures r.Some? ==> r.value.Name() == s
    ensures forall k: Kind :: k.Name() == s ==> r == Some(k)
  {
    if s == "opacity" then Some(Opacity)
    else if s == "translate" then Some(Translate)
    else if s == "scale" then Some(Scale)
    else if s == "rotate" then Some(Rotate)
    else None
  }

  /** validatePoint: a point is accepted when it names a landmark, or when it
      is null and the caller allows null. On success the value is returned
      unchanged, now known to be in the vocabulary. */
  function ValidatePoint(point: Option<string>, nullable: bool): (r: Result<Option<PointName>, Error>)
    ensures r.Ok? <==> (point.Some? && point.value in POINTS) || (nullable && point.None?)
    ensures r.Ok? ==> r.value == point
    ensures r.Err? ==> r.error == UnknownPoint(point)
  {
    if point.Some? && point.value in POINTS then Ok(Some(point.value))
    else if nullable && point.None? then Ok(None)
    else Err(UnknownPoint(point))
  }

  /** A non-nullable validation never lets null through: an accepted anchor is
      always present. */
  lemma AnchorIsRequired(point: Option<string>)
    ensures ValidatePoint(point, false).Ok? ==> point.Some? && ValidatePoint(point, false).value.Some?
    ensures ValidatePoint(None, false) == Err(UnknownPoint(None))
  {
  }

  /** The parameter check of createTransform and getParamNames: a name is
      accepted exactly when it is one of PARAMS. */
  function ValidateParam(param: Option<string>): (r: Result<ParamName, Error>)
    ensures r.Ok? <==> param.Some? && param.value in PARAMS
    ensures r.Ok? ==> param == Some(r.value)
    ensures r.Err? ==> r.error == UnknownParam(param)
  {
    if param.Some? && param.value in PARAMS then Ok(param.value)
    else Err(UnknownParam(param))
  }
}
