/** The discrete sprite extractor: every sprite group of the drawing becomes
    an anchor and look-at point plus a table of coordinates keyed by the
    values of its discrete parameters, and a lookup picks the entry for a
    parameter assignment. Coordinates stay the raw attribute text the
    drawing holds. */
module Sprites {
  import opened Wrappers
  import opened Errors
  import opened Vocabulary
  import opened Text
  import opened Tables
  import opened Dom

  /** An element of the drawing: its class list, its attributes in the
      LineRider namespace (named without the `lr:` prefix), its plain
      attributes and its child elements in document order. */
  datatype Node = Node(classes: set<string>, lr: map<string, string>, attrs: map<string, string>, children: seq<Node>)

  /** An attribute as `Array.prototype.join` writes it: null becomes "". */
  function AttrOrEmpty(m: map<string, string>, name: string): string {
    if name in m then m[name] else ""
  }

  /** One coordinate: the number 0 of a null sprite, or the raw text of an
      attribute (null when the marker lacks it). */
  datatype Value = Zero | Raw(text: Option<string>)

  datatype Point = Point(x: Value, y: Value)

  datatype Box = Box(x: Value, y: Value, width: Value, height: Value)

  datatype Coords = Coords(anchor: Point, bbox: Box)

  /** The coordinates of an `lr-null` sprite: everything 0. */
  const NullCoords := Coords(Point(Zero, Zero), Box(Zero, Zero, Zero, Zero))

  /** The elements at and below the given ones in document order: each
      node, then its descendants, then its following siblings. */
  function Preorder(ns: seq<Node>): (r: seq<Node>)
    ensures |ns| > 0 ==> |r| > 0 && r[0] == ns[0]
    decreases ns
  {
    if |ns| == 0 then []
    else [ns[0]] + Preorder(ns[0].children) + Preorder(ns[1..])
  }

  /** The position of the first node carrying the class, if any. */
  function FirstWithClass(xs: seq<Node>, cls: string): (r: Option<nat>)
    ensures r.Some? ==> r.value < |xs| && cls in xs[r.value].classes
    ensures r.Some? ==> forall j :: 0 <= j < r.value ==> cls !in xs[j].classes
    ensures r.None? ==> forall j :: 0 <= j < |xs| ==> cls !in xs[j].classes
  {
    if |xs| == 0 then None
    else if cls in xs[0].classes then Some(0)
    else
      match FirstWithClass(xs[1..], cls)
      case None => None
      case Some(i) => Some(i + 1)
  }

  /** `node.querySelector('.' + cls)`: the first strict descendant in
      document order that carries the class. */
  function QuerySelector(n: Node, cls: string): (r: Option<Node>)
    ensures r.Some? ==> cls in r.value.classes
    ensures r.Some? <==> exists j :: 0 <= j < |Preorder(n.children)| && cls in Preorder(n.children)[j].classes
    ensures r.Some? ==> exists j :: (0 <= j < |Preorder(n.children)| && Preorder(n.children)[j] == r.value &&
      forall i :: 0 <= i < j ==> cls !in Preorder(n.children)[i].classes)
  {
    var below := Preorder(n.children);
    match FirstWithClass(below, cls)
    case None => None
    case Some(i) => Some(below[i])
  }

  /** `createCoords`: an `lr-null` sprite gets all-zero coordinates whatever
      it contains; otherwise the anchor is the `cx`/`cy` text of the first
      `lr-anchor` marker below it and the box the `x`/`y`/`width`/`height`
      text of the first `lr-bbox` marker. A missing marker is the error the
      source hits on reading its attribute; the anchor is read first. */
  function CreateCoords(n: Node): (r: Result<Coords, Error>)
    ensures "lr-null" in n.classes ==> r == Ok(NullCoords)
    ensures "lr-null" !in n.classes ==>
      (r.Ok? <==> QuerySelector(n, "lr-anchor").Some? && QuerySelector(n, "lr-bbox").Some?)
    ensures "lr-null" !in n.classes && QuerySelector(n, "lr-anchor").None? ==>
      r == Err(MissingMarker("lr-anchor"))
    ensures "lr-null" !in n.classes && QuerySelector(n, "lr-anchor").Some? && QuerySelector(n, "lr-bbox").None? ==>
      r == Err(MissingMarker("lr-bbox"))
    ensures r.Ok? && "lr-null" !in n.classes ==>
      var a := QuerySelector(n, "lr-anchor").value.attrs;
      var b := QuerySelector(n, "lr-bbox").value.attrs;
      && r.value.anchor == Point(Raw(Attribute(a, "cx")), Raw(Attribute(a, "cy")))
      && r.value.bbox == Box(Raw(Attribute(b, "x")), Raw(Attribute(b, "y")), Raw(Attribute(b, "width")), Raw(Attribute(b, "height")))
  {
    if "lr-null" in n.classes then Ok(NullCoords)
    else
      match QuerySelector(n, "lr-anchor")
      case None => Err(MissingMarker("lr-anchor"))
      case Some(anchor) =>
        match QuerySelector(n, "lr-bbox")
        case None => Err(MissingMarker("lr-bbox"))
        case Some(bbox) =>
          Ok(Coords(Point(Raw(Attribute(anchor.attrs, "cx")), Raw(Attribute(anchor.attrs, "cy"))),
                    Box(Raw(Attribute(bbox.attrs, "x")), Raw(Attribute(bbox.attrs, "y")),
                        Raw(Attribute(bbox.attrs, "width")), Raw(Attribute(bbox.attrs, "height")))))
  }

  /** `getAttributeNS(LR, 'params') || ''`. */
  function ParamsText(n: Node): string {
    AttrOrEmpty(n.lr, "params")
  }

  /** Checks one piece of the `params` attribute against PARAMS. */
  function CheckParam(s: string): (r: Result<ParamName, Error>)
    ensures r.Ok? <==> s in PARAMS
    ensures r.Ok? ==> r.value == s
    ensures r.Err? ==> r.error == UnknownParam(Some(s))
  {
    ValidateParam(Some(s))
  }

  /** `getParamNames`: no names for an absent or empty `params` attribute;
      otherwise its space-separated pieces in order, each of which must be a
      known parameter (an empty piece from a doubled or trailing space is
      not). The first unknown piece is the one reported. */
  function GetParamNames(n: Node): (r: Result<seq<ParamName>, Error>)
    ensures ParamsText(n) == "" ==> r == Ok([])
    ensures ParamsText(n) != "" ==>
      (r.Ok? <==> forall i :: 0 <= i < |Split(ParamsText(n))| ==> Split(ParamsText(n))[i] in PARAMS)
    ensures ParamsText(n) != "" && r.Ok? ==> Join(r.value) == ParamsText(n)
    ensures r.Ok? ==> SpaceFree(r.value)
    ensures r.Err? ==> exists i :: (0 <= i < |Split(ParamsText(n))| &&
      Split(ParamsText(n))[i] !in PARAMS && r.error == UnknownParam(Some(Split(ParamsText(n))[i])) &&
      forall j :: 0 <= j < i ==> Split(ParamsText(n))[j] in PARAMS)
  {
    var text := ParamsText(n);
    if text == "" then Ok([])
    else
      var parts := Split(text);
      var checked := MapResult(parts, CheckParam);
      if checked.Ok? then
        assert checked.value == parts by {
          forall i | 0 <= i < |parts| ensures checked.value[i] == parts[i] {
            assert CheckParam(parts[i]) == Ok(checked.value[i]);
          }
        }
        JoinSplit(text);
        checked
      else
        var i :| 0 <= i < |parts| && CheckParam(parts[i]) == Err(checked.error) &&
          (forall j :: 0 <= j < i ==> CheckParam(parts[j]).Ok?);
        assert parts[i] !in PARAMS;
        checked
  }

  /** What `getSpriteProps` returns: the copy-able part (`stretch`,
      `paramNames`, `coords`) plus the sprite's own anchor and look-at. */
  datatype Props = Props(anchor: PointName, lookAt: Option<PointName>, stretch: bool,
                         paramNames: seq<ParamName>, coords: map<string, Coords>)

  /** The values a child authors for the parameters, in order; a missing
      `param-<name>` attribute reads as "". */
  function ChildValues(child: Node, names: seq<ParamName>): (vs: seq<string>)
    ensures |vs| == |names|
  {
    seq(|names|, i requires 0 <= i < |names| => AttrOrEmpty(child.lr, "param-" + names[i]))
  }

  /** The key a child is filed under: its values joined with single spaces. */
  function ChildKey(child: Node, names: seq<ParamName>): string {
    Join(ChildValues(child, names))
  }

  /** Every child's key, in document order. */
  function ChildKeys(children: seq<Node>, names: seq<ParamName>): (keys: seq<string>)
    ensures |keys| == |children|
    ensures forall i :: 0 <= i < |children| ==> keys[i] == ChildKey(children[i], names)
  {
    seq(|children|, i requires 0 <= i < |children| => ChildKey(children[i], names))
  }

  /** The part of `getSpriteProps` after the copy test: parameter names,
      then either one table entry under "" for the sprite itself or one
      entry per child under its key. */
  function OwnProps(n: Node, anchor: PointName, lookAt: Option<PointName>): (r: Result<Props, Error>)
    ensures GetParamNames(n).Err? ==> r == Err(GetParamNames(n).error)
    ensures r.Ok? ==> GetParamNames(n) == Ok(r.value.paramNames)
    ensures r.Ok? ==> r.value.anchor == anchor && r.value.lookAt == lookAt
    ensures r.Ok? ==> r.value.stretch == ("lr-stretch" in n.classes)
    ensures GetParamNames(n) == Ok([]) ==>
      (r.Ok? <==> CreateCoords(n).Ok?) &&
      (r.Ok? ==> r.value.coords == map["" := CreateCoords(n).value])
    ensures GetParamNames(n).Ok? && GetParamNames(n).value != [] ==>
      (r.Ok? <==> forall i :: 0 <= i < |n.children| ==> CreateCoords(n.children[i]).Ok?)
    ensures r.Ok? && r.value.paramNames != [] ==>
      && MapResult(n.children, CreateCoords).Ok?
      && r.value.coords == FileAll(ChildKeys(n.children, r.value.paramNames), MapResult(n.children, CreateCoords).value, map[])
  {
    var names :- GetParamNames(n);
    var stretch := "lr-stretch" in n.classes;
    if |names| == 0 then
      var c :- CreateCoords(n);
      Ok(Props(anchor, lookAt, stretch, names, map["" := c]))
    else
      var cs :- MapResult(n.children, CreateCoords);
      Ok(Props(anchor, lookAt, stretch, names, FileAll(ChildKeys(n.children, names), cs, map[])))
  }

  /** `getSpriteProps`. The anchor must name a point and the look-at must
      name one or be absent; an empty look-at is present and rejected. A
      non-empty `copy` resolves the target (at most `fuel` links deep: the
      source recurses without bound on a cycle) and keeps only this
      sprite's anchor and look-at; otherwise the sprite's own table is
      built. */
  function GetSpriteProps(n: Node, byId: map<string, Node>, fuel: nat): (r: Result<Props, Error>)
    ensures ValidatePoint(Attribute(n.lr, "anchor"), false).Err? ==> r == Err(UnknownPoint(Attribute(n.lr, "anchor")))
    ensures ValidatePoint(Attribute(n.lr, "anchor"), false).Ok? && ValidatePoint(Attribute(n.lr, "lookAt"), true).Err? ==>
      r == Err(UnknownPoint(Attribute(n.lr, "lookAt")))
    ensures r.Ok? ==> Attribute(n.lr, "anchor") == Some(r.value.anchor) && Attribute(n.lr, "lookAt") == r.value.lookAt
    ensures AttrOrEmpty(n.lr, "copy") != "" && ValidatePoint(Attribute(n.lr, "anchor"), false).Ok? &&
            ValidatePoint(Attribute(n.lr, "lookAt"), true).Ok? ==>
      (fuel == 0 ==> r == Err(CopyChainTooLong)) &&
      (fuel > 0 && n.lr["copy"] !in byId ==> r == Err(MissingCopyTarget(n.lr["copy"])))
    ensures AttrOrEmpty(n.lr, "copy") == "" && r.Ok? ==> OwnProps(n, r.value.anchor, r.value.lookAt) == r
    ensures AttrOrEmpty(n.lr, "copy") == "" && ValidatePoint(Attribute(n.lr, "anchor"), false).Ok? &&
            ValidatePoint(Attribute(n.lr, "lookAt"), true).Ok? ==>
      r == OwnProps(n, Attribute(n.lr, "anchor").value, ValidatePoint(Attribute(n.lr, "lookAt"), true).value)
    decreases fuel
  {
    var anchor :- ValidatePoint(Attribute(n.lr, "anchor"), false);
    var lookAt :- ValidatePoint(Attribute(n.lr, "lookAt"), true);
    var copy := AttrOrEmpty(n.lr, "copy");
    if copy != "" then
      if fuel == 0 then Err(CopyChainTooLong)
      else if copy !in byId then Err(MissingCopyTarget(copy))
      else
        var base :- GetSpriteProps(byId[copy], byId, fuel - 1);
        Ok(base.(anchor := anchor.value, lookAt := lookAt))
    else OwnProps(n, anchor.value, lookAt)
  }

  /** A copy with valid points resolves exactly when its target exists
      within the fuel and resolves; it then takes stretch, parameter names
      and coordinate table from the target and puts its own anchor and
      look-at over them (an absent look-at overwrites the target's). */
  lemma CopyOverlay(n: Node, byId: map<string, Node>, fuel: nat)
    requires AttrOrEmpty(n.lr, "copy") != ""
    requires ValidatePoint(Attribute(n.lr, "anchor"), false).Ok?
    requires ValidatePoint(Attribute(n.lr, "lookAt"), true).Ok?
    ensures GetSpriteProps(n, byId, fuel).Ok? <==>
      fuel > 0 && n.lr["copy"] in byId && GetSpriteProps(byId[n.lr["copy"]], byId, fuel - 1).Ok?
    ensures GetSpriteProps(n, byId, fuel).Ok? ==>
      var base := GetSpriteProps(byId[n.lr["copy"]], byId, fuel - 1).value;
      var r := GetSpriteProps(n, byId, fuel).value;
      && r.stretch == base.stretch && r.paramNames == base.paramNames && r.coords == base.coords
      && Attribute(n.lr, "anchor") == Some(r.anchor) && Attribute(n.lr, "lookAt") == r.lookAt
  {
  }

  /** A copying sprite's own classes, parameter names and children play no
      part: two sprites with the same anchor, look-at and copy attributes
      resolve alike. */
  lemma CopyIgnoresOwnContent(n: Node, m: Node, byId: map<string, Node>, fuel: nat)
    requires AttrOrEmpty(n.lr, "copy") != ""
    requires Attribute(n.lr, "anchor") == Attribute(m.lr, "anchor")
    requires Attribute(n.lr, "lookAt") == Attribute(m.lr, "lookAt")
    requires Attribute(n.lr, "copy") == Attribute(m.lr, "copy")
    ensures GetSpriteProps(n, byId, fuel) == GetSpriteProps(m, byId, fuel)
  {
  }

  /** `getCoords`: the parameter values in the sprite's name order, an
      unassigned one read as "", joined with single spaces. */
  function LookupValues(params: map<ParamName, string>, names: seq<ParamName>): (vs: seq<string>)
    ensures |vs| == |names|
  {
    seq(|names|, i requires 0 <= i < |names| => if names[i] in params then params[names[i]] else "")
  }

  /** `getCoords`: the table entry under the assignment's key, or nothing
      (undefined) when the table has no such key. */
  function GetCoords(params: map<ParamName, string>, props: Props): (r: Option<Coords>)
    ensures r.Some? <==> Join(LookupValues(params, props.paramNames)) in props.coords
    ensures r.Some? ==> r.value == props.coords[Join(LookupValues(params, props.paramNames))]
    ensures props.paramNames == [] ==> (r.Some? <==> "" in props.coords) && (r.Some? ==> r.value == props.coords[""])
  {
    var key := Join(LookupValues(params, props.paramNames));
    if key in props.coords then Some(props.coords[key]) else None
  }

  /** Only the parameters the sprite names matter: two assignments that
      agree on those (an unassigned one included) look up the same entry. */
  lemma GetCoordsReadsOnlyNamedParams(params: map<ParamName, string>, other: map<ParamName, string>, props: Props)
    requires forall i :: 0 <= i < |props.paramNames| ==>
      (props.paramNames[i] in params <==> props.paramNames[i] in other)
    requires forall i :: 0 <= i < |props.paramNames| && props.paramNames[i] in params ==>
      params[props.paramNames[i]] == other[props.paramNames[i]]
    ensures GetCoords(params, props) == GetCoords(other, props)
  {
    assert LookupValues(params, props.paramNames) == LookupValues(other, props.paramNames);
  }

  /** A sprite without parameters has exactly one coordinate entry, under
      "", and every assignment looks it up, whatever its values. */
  lemma NoParamsSingleEntry(n: Node, byId: map<string, Node>, fuel: nat, params: map<ParamName, string>)
    requires AttrOrEmpty(n.lr, "copy") == ""
    requires GetParamNames(n) == Ok([])
    requires GetSpriteProps(n, byId, fuel).Ok?
    ensures CreateCoords(n).Ok?
    ensures GetSpriteProps(n, byId, fuel).value.coords.Keys == {""}
    ensures GetCoords(params, GetSpriteProps(n, byId, fuel).value) == Some(CreateCoords(n).value)
  {
    var p := GetSpriteProps(n, byId, fuel).value;
    assert LookupValues(params, p.paramNames) == [];
  }

  /** With parameters, the table has one key per child, each the child's
      authored values joined; a key used by several children holds the
      coordinates of the last of them. */
  lemma ChildTable(n: Node, byId: map<string, Node>, fuel: nat)
    requires AttrOrEmpty(n.lr, "copy") == ""
    requires GetSpriteProps(n, byId, fuel).Ok?
    requires GetSpriteProps(n, byId, fuel).value.paramNames != []
    ensures var p := GetSpriteProps(n, byId, fuel).value;
      && (forall i :: 0 <= i < |n.children| ==> CreateCoords(n.children[i]).Ok?)
      && p.coords.Keys == (set i | 0 <= i < |n.children| :: ChildKey(n.children[i], p.paramNames))
      && forall i :: 0 <= i < |n.children| && LastWithKey(ChildKeys(n.children, p.paramNames), i) ==>
           p.coords[ChildKey(n.children[i], p.paramNames)] == CreateCoords(n.children[i]).value
  {
    var p := GetSpriteProps(n, byId, fuel).value;
    assert OwnProps(n, p.anchor, p.lookAt) == Ok(p);
    OwnTable(n, p.anchor, p.lookAt);
  }

  /** The table part of ChildTable, stated on OwnProps. */
  lemma OwnTable(n: Node, anchor: PointName, lookAt: Option<PointName>)
    requires OwnProps(n, anchor, lookAt).Ok?
    requires OwnProps(n, anchor, lookAt).value.paramNames != []
    ensures var p := OwnProps(n, anchor, lookAt).value;
      && (forall i :: 0 <= i < |n.children| ==> CreateCoords(n.children[i]).Ok?)
      && p.coords.Keys == (set i | 0 <= i < |n.children| :: ChildKey(n.children[i], p.paramNames))
      && forall i :: 0 <= i < |n.children| && LastWithKey(ChildKeys(n.children, p.paramNames), i) ==>
           p.coords[ChildKey(n.children[i], p.paramNames)] == CreateCoords(n.children[i]).value
  {
    var p := OwnProps(n, anchor, lookAt).value;
    var names := p.paramNames;
    var cs := MapResult(n.children, CreateCoords).value;
    var keys := ChildKeys(n.children, names);
    FileAllFacts(keys, cs, map[]);
    var all := set i | 0 <= i < |keys| :: keys[i];
    var named := set i | 0 <= i < |n.children| :: ChildKey(n.children[i], names);
    assert all == named by {
      forall k | k in named ensures k in all {
        var i :| 0 <= i < |n.children| && ChildKey(n.children[i], names) == k;
        assert keys[i] == k;
      }
    }
    forall i | 0 <= i < |n.children| && LastWithKey(keys, i)
      ensures p.coords[ChildKey(n.children[i], names)] == CreateCoords(n.children[i]).value
    {
      assert CreateCoords(n.children[i]) == Ok(cs[i]);
    }
  }

  /** The round trip: an assignment whose values are exactly the ones child
      i authors finds child i's coordinates, provided no later child uses
      the same key. */
  lemma RoundTrip(n: Node, byId: map<string, Node>, fuel: nat, params: map<ParamName, string>, i: nat)
    requires AttrOrEmpty(n.lr, "copy") == ""
    requires GetSpriteProps(n, byId, fuel).Ok?
    requires GetSpriteProps(n, byId, fuel).value.paramNames != []
    requires i < |n.children|
    requires LookupValues(params, GetSpriteProps(n, byId, fuel).value.paramNames) ==
             ChildValues(n.children[i], GetSpriteProps(n, byId, fuel).value.paramNames)
    requires LastWithKey(ChildKeys(n.children, GetSpriteProps(n, byId, fuel).value.paramNames), i)
    ensures CreateCoords(n.children[i]).Ok?
    ensures GetCoords(params, GetSpriteProps(n, byId, fuel).value) == Some(CreateCoords(n.children[i]).value)
  {
    ChildTable(n, byId, fuel);
  }

  /** An assignment whose key no child authored finds nothing. */
  lemma UnauthoredKeyFindsNothing(n: Node, byId: map<string, Node>, fuel: nat, params: map<ParamName, string>)
    requires AttrOrEmpty(n.lr, "copy") == ""
    requires GetSpriteProps(n, byId, fuel).Ok?
    requires GetSpriteProps(n, byId, fuel).value.paramNames != []
    requires forall i :: 0 <= i < |n.children| ==>
      ChildKey(n.children[i], GetSpriteProps(n, byId, fuel).value.paramNames) !=
      Join(LookupValues(params, GetSpriteProps(n, byId, fuel).value.paramNames))
    ensures GetCoords(params, GetSpriteProps(n, byId, fuel).value) == None
  {
    ChildTable(n, byId, fuel);
  }

  /** When no value contains a space, keys compare exactly as the value
      lists do, so the lookup matches a child exactly when every parameter
      value equals the one the child authors. */
  lemma KeyMatchesValues(params: map<ParamName, string>, child: Node, names: seq<ParamName>)
    requires names != []
    requires SpaceFree(LookupValues(params, names)) && SpaceFree(ChildValues(child, names))
    ensures Join(LookupValues(params, names)) == ChildKey(child, names) <==>
            LookupValues(params, names) == ChildValues(child, names)
  {
    JoinInjective(LookupValues(params, names), ChildValues(child, names));
  }

  /** A parameter list of two names gives both, in order. */
  lemma ParamNamesInOrder(n: Node)
    requires ParamsText(n) == "broken crashed"
    ensures GetParamNames(n) == Ok(["broken", "crashed"])
  {
    var good: seq<string> := ["broken", "crashed"];
    assert Join(good) == "broken crashed" by {
      assert good[1..] == ["crashed"];
    }
    assert SpaceFree(good);
    SplitJoin(good);
    assert "broken" in PARAMS && "crashed" in PARAMS;
    var r := GetParamNames(n);
    assert r.Ok?;
    assert |r.value| >= 1;
    JoinInjective(r.value, good);
  }

  /** A doubled space leaves an empty piece, which is reported as the
      unknown parameter. */
  lemma ParamNamesDoubledSpace(n: Node)
    requires ParamsText(n) == "broken  crashed"
    ensures GetParamNames(n) == Err(UnknownParam(Some("")))
  {
    SplitDoubledSpace(ParamsText(n));
    var parts := Split(ParamsText(n));
    assert parts[0] in PARAMS && parts[1] !in PARAMS;
    var r := GetParamNames(n);
    assert r.Err?;
    var i :| 0 <= i < |parts| && parts[i] !in PARAMS && r.error == UnknownParam(Some(parts[i])) &&
      forall j :: 0 <= j < i ==> parts[j] in PARAMS;
    assert i == 1;
  }

  lemma SplitDoubledSpace(s: string)
    requires s == "broken  crashed"
    ensures Split(s) == ["broken", "", "crashed"]
  {
    var bad: seq<string> := ["broken", "", "crashed"];
    assert Join(bad) == "broken  crashed" by {
      assert bad[1..] == ["", "crashed"];
      assert bad[1..][1..] == ["crashed"];
    }
    assert SpaceFree(bad);
    SplitJoin(bad);
  }
}
