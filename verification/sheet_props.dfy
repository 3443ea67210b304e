/** The build side of the sprite-sheet extractor (spriteSheetMappings.js):
    validating animation elements into channels, resolving a sprite's
    properties through `copy` references, and grouping sprites by entity.
    Document access is replaced by records: a sprite node carries its
    namespaced attributes, class list, already-parsed geometry and its
    descendant `<animate>` / `<animateTransform>` elements in document order;
    `getElementById` is a map from id to node. */
module SheetProps {
  import opened Wrappers
  import opened Errors
  import opened Vocabulary
  import opened Affine
  import opened Keyframes
  import opened Tables
  import opened Dom

  /** An `<animate>` or `<animateTransform>` element: plain attributes
      (`attributeName`, `type`), attributes in the linerider namespace
      (`param`), and its `values` / `keyTimes` lists already split on ';' and
      parsed to numbers. */
  datatype AnimElem = AnimElem(
    attrs: map<string, string>,
    lr: map<string, string>,
    values: seq<seq<real>>,
    keyTimes: seq<real>)

  /** Integer pixel box. */
  datatype BBox = BBox(x: int, y: int, width: int, height: int)

  /** The geometry of one sprite: anchor point and bounding box. */
  datatype Coords = Coords(anchor: Vec, bbox: BBox)

  /** A sprite node. `anchorMarker` and `bboxMarker` are what the node's
      first `.lr-anchor` and `.lr-bbox` descendants parse to, or None when
      the node has no such descendant. */
  datatype SpriteNode = SpriteNode(
    lr: map<string, string>,
    classes: set<string>,
    anchorMarker: Option<Vec>,
    bboxMarker: Option<BBox>,
    animates: seq<AnimElem>,
    animateTransforms: seq<AnimElem>)

  /** The resolved properties of a continuous sprite. `transforms` is in
      application order: authored order reversed. */
  datatype Props = Props(
    anchor: PointName,
    lookAt: Option<PointName>,
    stretch: bool,
    coords: Coords,
    transforms: seq<Channel>,
    opacity: Option<Channel>)

  /** `getLRAttribute`: a namespaced attribute, where an empty value reads as
      null just like a missing one. */
  function LRAttribute(lr: map<string, string>, name: string): (r: Option<string>)
    ensures r.Some? <==> name in lr && lr[name] != ""
    ensures r.Some? ==> r.value == lr[name]
  {
    if name in lr && lr[name] != "" then Some(lr[name]) else None
  }

  /** `getTransformType`: an `opacity` attribute animates opacity; a
      `transform` attribute animates the kind its `type` names, which must be
      one of TRANSFORM_TYPES (so `opacity` is accepted there too); anything
      else is unsupported. */
  function GetTransformType(e: AnimElem): (r: Result<Kind, Error>)
    ensures Attribute(e.attrs, "attributeName") == Some("opacity") ==> r == Ok(Opacity)
    ensures Attribute(e.attrs, "attributeName") == Some("transform") ==>
      var ty := Attribute(e.attrs, "type");
      && (r.Ok? <==> ty.Some? && ty.value in TRANSFORM_TYPES)
      && (r.Ok? ==> r.value.Name() == ty.value)
      && (r.Err? ==> r.error == UnsupportedTransformType(ty))
    ensures Attribute(e.attrs, "attributeName") !in {Some("opacity"), Some("transform")} ==>
      r == Err(UnsupportedAttribute(Attribute(e.attrs, "attributeName")))
    ensures r.Ok? ==> r.value.Name() in TRANSFORM_TYPES
  {
    var attributeName := Attribute(e.attrs, "attributeName");
    if attributeName == Some("opacity") then Ok(Opacity)
    else if attributeName == Some("transform") then
      var ty := Attribute(e.attrs, "type");
      if ty.Some? && KindNamed(ty.value).Some? then Ok(KindNamed(ty.value).value)
      else Err(UnsupportedTransformType(ty))
    else Err(UnsupportedAttribute(attributeName))
  }

  /** `createTransform`: the `param` is checked first, then the kind; then
      the i-th value entry is paired with the i-th key time. Extra key times
      are ignored; a missing one is undefined in the source and fails. */
  function CreateTransform(e: AnimElem): (r: Result<Channel, Error>)
    ensures ValidateParam(LRAttribute(e.lr, "param")).Err? ==>
      r == Err(UnknownParam(LRAttribute(e.lr, "param")))
    ensures ValidateParam(LRAttribute(e.lr, "param")).Ok? && GetTransformType(e).Err? ==>
      r == Err(GetTransformType(e).error)
    ensures r.Ok? <==>
      ValidateParam(LRAttribute(e.lr, "param")).Ok? && GetTransformType(e).Ok? && |e.values| <= |e.keyTimes|
    ensures r.Ok? ==>
      && Some(r.value.param) == LRAttribute(e.lr, "param")
      && r.value.kind == GetTransformType(e).value
      && |r.value.keyframes| == |e.values|
      && forall i :: 0 <= i < |e.values| ==> r.value.keyframes[i] == Keyframe(e.keyTimes[i], e.values[i])
    ensures r.Err? && ValidateParam(LRAttribute(e.lr, "param")).Ok? && GetTransformType(e).Ok? ==>
      r.error == MissingKeyTime(|e.keyTimes|)
  {
    var param :- ValidateParam(LRAttribute(e.lr, "param"));
    var kind :- GetTransformType(e);
    if |e.keyTimes| < |e.values| then Err(MissingKeyTime(|e.keyTimes|))
    else Ok(Channel(param, kind, seq(|e.values|, i requires 0 <= i < |e.values| => Keyframe(e.keyTimes[i], e.values[i]))))
  }

  /** `[...nodes].map(createTransform)`: the first failure aborts. */
  function CreateTransforms(es: seq<AnimElem>): (r: Result<seq<Channel>, Error>)
    ensures r.Ok? <==> forall i :: 0 <= i < |es| ==> CreateTransform(es[i]).Ok?
    ensures r.Ok? ==> |r.value| == |es| && forall i :: 0 <= i < |es| ==> CreateTransform(es[i]) == Ok(r.value[i])
    ensures r.Err? ==>
      exists i :: 0 <= i < |es| && CreateTransform(es[i]) == Err(r.error) &&
        forall j :: 0 <= j < i ==> CreateTransform(es[j]).Ok?
  {
    MapResult(es, CreateTransform)
  }

  /** `Array.prototype.reverse`. */
  function Reverse<T>(s: seq<T>): (r: seq<T>)
    ensures |r| == |s|
    ensures forall i :: 0 <= i < |s| ==> r[i] == s[|s| - 1 - i]
  {
    if |s| == 0 then [] else Reverse(s[1..]) + [s[0]]
  }

  /** `createCoords` of the sprite-sheet extractor: the anchor and bounding
      box markers' geometry. There is no null-sprite case here: a missing
      marker is dereferenced as null, the anchor marker first. */
  function CreateCoords(node: SpriteNode): (r: Result<Coords, Error>)
    ensures r.Ok? <==> node.anchorMarker.Some? && node.bboxMarker.Some?
    ensures r.Ok? ==> r.value.anchor == node.anchorMarker.value && r.value.bbox == node.bboxMarker.value
    ensures node.anchorMarker.None? ==> r == Err(MissingMarker("lr-anchor"))
    ensures node.anchorMarker.Some? && node.bboxMarker.None? ==> r == Err(MissingMarker("lr-bbox"))
  {
    match (node.anchorMarker, node.bboxMarker)
    case (None, _) => Err(MissingMarker("lr-anchor"))
    case (Some(_), None) => Err(MissingMarker("lr-bbox"))
    case (Some(a), Some(b)) => Ok(Coords(a, b))
  }

  /** The id a node copies its properties from, if any. */
  function CopyOf(node: SpriteNode): Option<string> {
    LRAttribute(node.lr, "copy")
  }

  /** The properties a node without `copy` gets from its own content: its
      geometry, which is read first, the transform channels built in order
      and then reversed, the first `<animate>` element, if any, as the
      opacity channel, and the stretch flag. */
  function OwnProps(node: SpriteNode, anchor: PointName, lookAt: Option<PointName>): (r: Result<Props, Error>)
    ensures r.Ok? <==>
      CreateCoords(node).Ok? &&
      (forall i :: 0 <= i < |node.animateTransforms| ==> CreateTransform(node.animateTransforms[i]).Ok?) &&
      (|node.animates| > 0 ==> CreateTransform(node.animates[0]).Ok?)
    ensures CreateCoords(node).Err? ==> r == Err(CreateCoords(node).error)
    ensures r.Ok? ==>
      && r.value.anchor == anchor && r.value.lookAt == lookAt
      && r.value.stretch == ("lr-stretch" in node.classes)
      && Ok(r.value.coords) == CreateCoords(node)
      && |r.value.transforms| == |node.animateTransforms|
      && (forall i :: 0 <= i < |node.animateTransforms| ==>
            CreateTransform(node.animateTransforms[|node.animateTransforms| - 1 - i]) == Ok(r.value.transforms[i]))
      && (r.value.opacity.None? <==> |node.animates| == 0)
      && (|node.animates| > 0 ==> CreateTransform(node.animates[0]) == Ok(r.value.opacity.value))
  {
    match CreateCoords(node)
    case Err(e) => Err(e)
    case Ok(coords) => WithChannels(node, coords, anchor, lookAt)
  }

  /** The rest of a node's own properties once its geometry is read. */
  function WithChannels(node: SpriteNode, coords: Coords, anchor: PointName, lookAt: Option<PointName>): (r: Result<Props, Error>)
    ensures r.Ok? <==>
      (forall i :: 0 <= i < |node.animateTransforms| ==> CreateTransform(node.animateTransforms[i]).Ok?) &&
      (|node.animates| > 0 ==> CreateTransform(node.animates[0]).Ok?)
    ensures r.Ok? ==>
      && r.value.anchor == anchor && r.value.lookAt == lookAt
      && r.value.stretch == ("lr-stretch" in node.classes)
      && r.value.coords == coords
      && |r.value.transforms| == |node.animateTransforms|
      && (forall i :: 0 <= i < |node.animateTransforms| ==>
            CreateTransform(node.animateTransforms[|node.animateTransforms| - 1 - i]) == Ok(r.value.transforms[i]))
      && (r.value.opacity.None? <==> |node.animates| == 0)
      && (|node.animates| > 0 ==> CreateTransform(node.animates[0]) == Ok(r.value.opacity.value))
  {
    var channels :- CreateTransforms(node.animateTransforms);
    var opacity :- if |node.animates| == 0 then Ok(None)
                   else var ch :- CreateTransform(node.animates[0]); Ok(Some(ch));
    Ok(Props(anchor, lookAt, "lr-stretch" in node.classes, coords, Reverse(channels), opacity))
  }

  /** `getSpriteProps` (continuous form). The node's own anchor (required)
      and lookAt (nullable) are validated first. With a `copy` reference the
      referenced sprite is resolved and only anchor and lookAt are overlaid;
      otherwise the node's own content gives the rest. `fuel` bounds the copy
      chain, which the source does not guard. */
  function GetSpriteProps(node: SpriteNode, byId: map<string, SpriteNode>, fuel: nat): (r: Result<Props, Error>)
    ensures ValidatePoint(LRAttribute(node.lr, "anchor"), false).Err? ==>
      r == Err(UnknownPoint(LRAttribute(node.lr, "anchor")))
    ensures ValidatePoint(LRAttribute(node.lr, "anchor"), false).Ok? &&
            ValidatePoint(LRAttribute(node.lr, "lookAt"), true).Err? ==>
      r == Err(UnknownPoint(LRAttribute(node.lr, "lookAt")))
    ensures r.Ok? ==>
      Some(r.value.anchor) == LRAttribute(node.lr, "anchor") && r.value.lookAt == LRAttribute(node.lr, "lookAt")
    ensures CopyOf(node).None? && r.Ok? ==> OwnProps(node, r.value.anchor, r.value.lookAt) == r
    ensures CopyOf(node).None? && ValidatePoint(LRAttribute(node.lr, "anchor"), false).Ok? &&
            ValidatePoint(LRAttribute(node.lr, "lookAt"), true).Ok? ==>
      r == OwnProps(node, LRAttribute(node.lr, "anchor").value, ValidatePoint(LRAttribute(node.lr, "lookAt"), true).value)
    decreases fuel
  {
    var anchor :- ValidatePoint(LRAttribute(node.lr, "anchor"), false);
    var lookAt :- ValidatePoint(LRAttribute(node.lr, "lookAt"), true);
    var copy := CopyOf(node);
    if copy.Some? then
      if fuel == 0 then Err(CopyChainTooLong)
      else if copy.value !in byId then Err(MissingCopyTarget(copy.value))
      else
        var base :- GetSpriteProps(byId[copy.value], byId, fuel - 1);
        Ok(base.(anchor := anchor.value, lookAt := lookAt))
    else
      OwnProps(node, anchor.value, lookAt)
  }

  /** Copy inheritance: a copier with valid points resolves exactly when its
      target exists within the fuel and resolves, and then it is the target's
      properties with the copier's anchor and lookAt (a null lookAt included). */
  lemma CopyOverlay(node: SpriteNode, byId: map<string, SpriteNode>, fuel: nat)
    requires CopyOf(node).Some?
    requires ValidatePoint(LRAttribute(node.lr, "anchor"), false).Ok?
    requires ValidatePoint(LRAttribute(node.lr, "lookAt"), true).Ok?
    ensures GetSpriteProps(node, byId, fuel).Ok? <==>
      fuel > 0 && CopyOf(node).value in byId && GetSpriteProps(byId[CopyOf(node).value], byId, fuel - 1).Ok?
    ensures GetSpriteProps(node, byId, fuel).Ok? ==>
      var base := GetSpriteProps(byId[CopyOf(node).value], byId, fuel - 1).value;
      && GetSpriteProps(node, byId, fuel).value.(anchor := base.anchor, lookAt := base.lookAt) == base
      && Some(GetSpriteProps(node, byId, fuel).value.anchor) == LRAttribute(node.lr, "anchor")
      && GetSpriteProps(node, byId, fuel).value.lookAt == LRAttribute(node.lr, "lookAt")
  {
  }

  /** A copier's own children, classes and geometry are ignored: two copiers
      that agree on their namespaced attributes resolve identically. */
  lemma CopyIgnoresOwnContent(node: SpriteNode, other: SpriteNode, byId: map<string, SpriteNode>, fuel: nat)
    requires CopyOf(node).Some? && other.lr == node.lr
    ensures GetSpriteProps(node, byId, fuel) == GetSpriteProps(other, byId, fuel)
  {
  }

  /** Without `copy`, a node with valid points resolves exactly when it has
      both markers and every animation element it uses builds a channel;
      a missing marker is reported before any channel is looked at. */
  lemma OwnChannelsResolve(node: SpriteNode, byId: map<string, SpriteNode>, fuel: nat)
    requires CopyOf(node).None?
    requires ValidatePoint(LRAttribute(node.lr, "anchor"), false).Ok?
    requires ValidatePoint(LRAttribute(node.lr, "lookAt"), true).Ok?
    ensures node.anchorMarker.None? ==> GetSpriteProps(node, byId, fuel) == Err(MissingMarker("lr-anchor"))
    ensures node.anchorMarker.Some? && node.bboxMarker.None? ==>
      GetSpriteProps(node, byId, fuel) == Err(MissingMarker("lr-bbox"))
    ensures GetSpriteProps(node, byId, fuel).Ok? <==>
      node.anchorMarker.Some? && node.bboxMarker.Some? &&
      (forall i :: 0 <= i < |node.animateTransforms| ==> CreateTransform(node.animateTransforms[i]).Ok?) &&
      (|node.animates| > 0 ==> CreateTransform(node.animates[0]).Ok?)
  {
  }

  /** An attribute written as "" reads exactly like one that is not there,
      and no read ever yields "". */
  lemma EmptyReadsAsMissing(lr: map<string, string>, name: string)
    ensures LRAttribute(lr, name) != Some("")
    ensures name in lr && lr[name] == "" ==> LRAttribute(lr, name) == LRAttribute(lr - {name}, name)
    ensures LRAttribute(lr, name).None? <==> name !in lr || lr[name] == ""
  {
  }

  /** The two ways of reading an attribute differ only on "": the namespaced
      read turns it into null, the plain read keeps it. */
  lemma ReadersAgreeExceptEmpty(lr: map<string, string>, name: string)
    ensures LRAttribute(lr, name) == (if Attribute(lr, name) == Some("") then None else Attribute(lr, name))
  {
  }

  /** So an empty `copy` is no copy, and an empty `lookAt` is a null one: the
      sprite resolves as if neither attribute had been written. */
  lemma EmptyAttributesAreAbsent(node: SpriteNode, byId: map<string, SpriteNode>, fuel: nat)
    requires "copy" in node.lr && node.lr["copy"] == ""
    requires "lookAt" in node.lr && node.lr["lookAt"] == ""
    ensures GetSpriteProps(node, byId, fuel) == GetSpriteProps(node.(lr := node.lr - {"copy", "lookAt"}), byId, fuel)
  {
    var other := node.(lr := node.lr - {"copy", "lookAt"});
    assert LRAttribute(node.lr, "anchor") == LRAttribute(other.lr, "anchor");
    assert LRAttribute(node.lr, "copy") == None == LRAttribute(other.lr, "copy");
    assert LRAttribute(node.lr, "lookAt") == None == LRAttribute(other.lr, "lookAt");
  }

  /** A group of sprites under one `.lr-entity` node. */
  datatype EntityNode = EntityNode(lr: map<string, string>, sprites: seq<SpriteNode>)

  /** The document: its entity nodes in document order and the id index. */
  datatype SheetDocument = SheetDocument(entities: seq<EntityNode>, byId: map<string, SpriteNode>)

  /** The property key `entityMappings[entityName]` writes to: a missing or
      empty `entity` attribute is null, which a JavaScript object key turns
      into the string "null". */
  function EntityKey(e: EntityNode): string {
    var name := LRAttribute(e.lr, "entity");
    if name.Some? then name.value else "null"
  }

  /** The sprites of one entity resolved in order; the first failure aborts. */
  function ResolveAll(sprites: seq<SpriteNode>, byId: map<string, SpriteNode>, fuel: nat): (r: Result<seq<Props>, Error>)
    ensures r.Ok? <==> forall i :: 0 <= i < |sprites| ==> GetSpriteProps(sprites[i], byId, fuel).Ok?
    ensures r.Ok? ==> |r.value| == |sprites|
    ensures r.Ok? ==> forall i :: 0 <= i < |sprites| ==> GetSpriteProps(sprites[i], byId, fuel) == Ok(r.value[i])
    ensures r.Err? ==>
      exists i :: 0 <= i < |sprites| && GetSpriteProps(sprites[i], byId, fuel) == Err(r.error) &&
        forall j :: 0 <= j < i ==> GetSpriteProps(sprites[j], byId, fuel).Ok?
  {
    MapResult(sprites, (s: SpriteNode) => GetSpriteProps(s, byId, fuel))
  }

  /** Every entity's sprites resolved, in document order; the first failure
      aborts, as the loop of `getSpriteSheetMappings` does. */
  function ResolveEntities(entities: seq<EntityNode>, byId: map<string, SpriteNode>, fuel: nat): (r: Result<seq<seq<Props>>, Error>)
    ensures r.Ok? <==> forall i :: 0 <= i < |entities| ==> ResolveAll(entities[i].sprites, byId, fuel).Ok?
    ensures r.Ok? ==> |r.value| == |entities|
    ensures r.Ok? ==> forall i :: 0 <= i < |entities| ==> ResolveAll(entities[i].sprites, byId, fuel) == Ok(r.value[i])
    ensures r.Err? ==>
      exists i :: 0 <= i < |entities| && ResolveAll(entities[i].sprites, byId, fuel) == Err(r.error) &&
        forall j :: 0 <= j < i ==> ResolveAll(entities[j].sprites, byId, fuel).Ok?
  {
    MapResult(entities, (e: EntityNode) => ResolveAll(e.sprites, byId, fuel))
  }

  /** The key each entity is filed under, in document order. */
  function EntityKeys(entities: seq<EntityNode>): (keys: seq<string>)
    ensures |keys| == |entities|
    ensures forall i :: 0 <= i < |entities| ==> keys[i] == EntityKey(entities[i])
  {
    seq(|entities|, i requires 0 <= i < |entities| => EntityKey(entities[i]))
  }

  /** `getSpriteSheetMappings`: every entity's sprites resolved and filed
      under its name; a name used twice keeps the later entity's sprites. */
  function GetSpriteSheetMappings(doc: SheetDocument, fuel: nat): (r: Result<map<string, seq<Props>>, Error>)
    ensures r.Ok? <==> forall i :: 0 <= i < |doc.entities| ==> ResolveAll(doc.entities[i].sprites, doc.byId, fuel).Ok?
    ensures r.Err? ==>
      exists i :: 0 <= i < |doc.entities| && ResolveAll(doc.entities[i].sprites, doc.byId, fuel) == Err(r.error) &&
        forall j :: 0 <= j < i ==> ResolveAll(doc.entities[j].sprites, doc.byId, fuel).Ok?
    ensures r.Ok? ==> r.value.Keys == set i | 0 <= i < |doc.entities| :: EntityKey(doc.entities[i])
    ensures r.Ok? ==> forall i :: 0 <= i < |doc.entities| && LastWithKey(EntityKeys(doc.entities), i) ==>
      ResolveAll(doc.entities[i].sprites, doc.byId, fuel) == Ok(r.value[EntityKey(doc.entities[i])])
  {
    var resolved :- ResolveEntities(doc.entities, doc.byId, fuel);
    var keys := EntityKeys(doc.entities);
    FileAllFacts(keys, resolved, map[]);
    assert (set i | 0 <= i < |keys| :: keys[i]) == set i | 0 <= i < |doc.entities| :: EntityKey(doc.entities[i]);
    Ok(FileAll(keys, resolved, map[]))
  }
}
