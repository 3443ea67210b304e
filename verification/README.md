# bosh-builder sprite resolution, modelled in Dafny

bosh-builder turns an annotated SVG drawing of the LineRider rider into
sprite data. Two extractors do that, and this project models both:

- **The sprite-sheet extractor** (`spriteSheetMappings.js`) first builds
  *continuous* sprites. Each sprite group:
  - carries an anchor and an optional look-at point;
  - may `copy` another sprite;
  - has animation elements, which become keyframed channels (opacity,
    translate, scale, rotate).

  `getMappingProps` then evaluates a sprite at a parameter assignment:
  1. The sprite is hidden when its opacity is exactly 0.
  2. It is also hidden when a scale channel has a zero factor.
  3. Otherwise the channels fold into one glMatrix `mat2d` affine matrix
     `[a, b, c, d, tx, ty]`.
- **The discrete extractor** (`getSprites.js`) builds *discrete* sprites.
  Each one gets a table of raw coordinate attributes, keyed by the
  space-joined values its children author for the sprite's declared
  parameters. `getCoords` looks an assignment up in that table.

Everything is a pure function over immutable records:

- An element's attributes are a map from name to text.
- A discrete sprite node (`Sprites.Node`) is a record holding its
  namespaced attributes, plain attributes, class set and children.
- A sheet sprite node (`SheetProps.SpriteNode`) holds its namespaced
  attributes, its class set, its `.lr-anchor` and `.lr-bbox` markers
  already parsed (each absent when the node has none), and its
  `<animate>` and `<animateTransform>` descendants collected in document
  order.
- `getElementById` is a map from id to node.
- Numbers are `real`.
- A thrown `Error` or a TypeError from dereferencing null/undefined is an
  `Err` value of `Errors.Error`.

Modules:

| module | file | contents |
|---|---|---|
| `Wrappers` | wrappers.dfy | `Option`, `Result`, and `MapResult`: a `map` whose first failure aborts |
| `Errors` | errors.dfy | every way the two pipelines stop |
| `Dom` | dom.dfy | reading an element's attribute |
| `Vocabulary` | vocabulary.dfy | POINTS, PARAMS, TRANSFORM_TYPES, the `Kind` enum, `validatePoint`, the param check |
| `Text` | text.dfy | `split(' ')` and `join(' ')`, with their round trips |
| `Tables` | tables.dfy | filling a plain object key by key (the last write wins) |
| `Affine` | affine.dfy | the glMatrix `mat2d` operations `translate`, `scale`, `rotate` and `from*`, and their algebra |
| `Keyframes` | keyframes.dfy | keyframes, channels, `getInterpolatedArgs` |
| `SheetProps` | sheet_props.dfy | `getTransformType`, `createTransform`, `getSpriteProps`, `getSpriteSheetMappings` |
| `SheetMapping` | sheet_mapping.dfy | `Transform`, `FromTransform`, `getMappingProps` |
| `Sprites` | sprites.dfy | `getParamNames`, `getSpriteProps`, `createCoords`, `getCoords` of the discrete extractor |

### Behaviour worth knowing

The model proves the following about the code:

- **Pivot.** A `rotate` channel with args `[deg, x, y]` builds
  `T(-p)·R·T(p)`. A point is shifted by `+p`, turned, then shifted back,
  so the point held still is `(-x, -y)`. For example, `rotate(180, 2, 0)`
  keeps `(-2, 0)` in place and sends `(3, 0)` to `(-7, 0)`.
- **Order.** The transform channels are stored in authored order
  reversed. The in-place operations post-multiply, so the matrix that
  comes out is `M0·M1·…` and applies the first-authored channel first.
  Authored `translate(1, 0)` then `rotate(90)` sends `(1, 0)` to `(0, 2)`.
- **Opacity type.** `'opacity'` passes `getTransformType` as the `type` of
  a `transform` attribute. It has no matrix operation, so evaluating such
  a channel fails.
- **Interpolation.** Only the exact parameter values 0 and 1 are clamped.
  Any other value below the first key time, or with no key time past it
  (with ascending times: at or past the last key time), has no keyframe
  segment and fails.
- **The two copy rules differ.**
  - The sheet extractor reads namespaced attributes through a helper that
    turns `''` into null. An empty `lookAt` is therefore absent, and an
    empty `copy` is no copy.
  - The discrete extractor reads `''` as a present value. An empty
    `lookAt` is rejected there.
  - In both extractors, a copier keeps only its own anchor and look-at
    and ignores its own children.
- **Duplicate keys.**
  - An entity name used twice keeps the later entity's sprites.
  - A missing entity name files under `"null"`.
  - Children with equal keys keep the last child's coordinates.
- **Lookup misses.** A discrete lookup whose key no child authored returns
  undefined (`None` here); it is not an error.

## Model

| member | source | states |
|---|---|---|
| Wrappers.MapResult | spriteSheetMappings.js:44 | a map with a throwing callback succeeds iff every element does; it keeps order and length, and otherwise reports the error of the first failing element |
| Vocabulary.KindNamed | spriteSheetMappings.js:4 | a type string names a kind iff it is in TRANSFORM_TYPES, and the kind's name is that string |
| Vocabulary.ValidatePoint | spriteSheetMappings.js:22-26 | accepted iff the point is in POINTS or (nullable and null); the value passes through unchanged; otherwise the error names the point; getSprites.js:34-38 is the identical validator of the discrete extractor |
| Vocabulary.AnchorIsRequired | spriteSheetMappings.js:30-31 | a non-nullable check never accepts null, so an accepted anchor is always present |
| Vocabulary.ValidateParam | spriteSheetMappings.js:65-68 | a param is accepted iff it is present and in PARAMS; otherwise `unknown param` names it |
| Affine.Translate | spriteSheetMappings.js:211-221 | in-place translate changes only tx and ty |
| Affine.Scale | spriteSheetMappings.js:199-209 | in-place scale keeps tx and ty |
| Affine.Rotate | spriteSheetMappings.js:186-197 | in-place rotate keeps tx and ty |
| Affine.ApplyInPlace | spriteSheetMappings.js:186-221 | each in-place operation first moves, scales or turns the point, then hands it to the old matrix |
| Affine.FromTranslation | spriteSheetMappings.js:244-252 | the fresh translation is in-place translate applied to the identity |
| Affine.FromScaling | spriteSheetMappings.js:234-242 | the fresh scaling is in-place scale applied to the identity |
| Affine.FromRotation | spriteSheetMappings.js:223-232 | the fresh rotation is in-place rotate applied to the identity |
| Affine.TranslateIsPostMultiply | spriteSheetMappings.js:211-221 | in-place translate equals post-multiplication by the fresh translation |
| Affine.ScaleIsPostMultiply | spriteSheetMappings.js:199-209 | in-place scale equals post-multiplication by the fresh scaling |
| Affine.RotateIsPostMultiply | spriteSheetMappings.js:186-197 | in-place rotate equals post-multiplication by the fresh rotation |
| Affine.MulAssociative | spriteSheetMappings.js:150-154 | matrix composition is associative, so the fold can be read as a product |
| Affine.MulIdentity | spriteSheetMappings.js:150-151 | the identity is neutral on both sides |
| Affine.PivotRotationFixesNegatedPivot | spriteSheetMappings.js:114-119 | the pivot rotation maps q to (R(q + p)) - p; it holds -p still |
| Affine.PivotAtOrigin | spriteSheetMappings.js:114-119 | with pivot (0, 0) the rotation is a plain turn |
| Affine.FromTranslationMoves | spriteSheetMappings.js:112 | a fresh translation moves every point by its vector |
| Affine.RotateAboutPivot | spriteSheetMappings.js:105-109 | the three in-place steps of `Transform.rotate` equal post-multiplication by the fresh pivot rotation |
| Text.Split | getSprites.js:26 | `split(' ')` yields at least one piece, and no piece contains a space |
| Text.JoinSplit | getSprites.js:26 | joining the pieces of a split with single spaces gives back the original text |
| Text.SplitJoin | getSprites.js:26 | splitting the join of space-free pieces gives the pieces back |
| Text.JoinInjective | getSprites.js:56 | two non-empty lists of space-free pieces join to the same key iff they are equal |
| Tables.FileAllFacts | spriteSheetMappings.js:168 | after a sequence of key assignments, the keys are the old keys plus the assigned ones, the last assignment to a key wins, and untouched keys keep their values |
| Keyframes.FindIndex | spriteSheetMappings.js:129 | `findIndex(k => k.time > t)` is the first index past t, or -1 when every time is at most t |
| Keyframes.Fraction | spriteSheetMappings.js:133 | the segment fraction lies in [0, 1), reconstructs t, and is 0 exactly at the segment's start |
| Keyframes.LerpBetween | spriteSheetMappings.js:129-134 | each interpolated element lies between its two keyframe values; at the segment's start time the result is exactly prev.args |
| Keyframes.Interpolate | spriteSheetMappings.js:123-134 | asks a blend of only defined args: at t other than exactly 0 and 1, the segment t falls in must have no shorter next keyframe; at exactly 0 or 1: the first or last args verbatim, failing only with no keyframes; other t: succeeds iff the first key time is at most t and some key time is past t, and then blends the segment ending at the first key time past t (every earlier time is at most t), even with unsorted times; with uniform arity the result keeps it, with growing arities it is at least the first keyframe's |
| Keyframes.InterpolateWithinRange | spriteSheetMappings.js:129-133 | any t from the first key time up to (not including) the last has a segment |
| Keyframes.GrowingFitsEverySegment | spriteSheetMappings.js:129-134 | when no keyframe has more args than a later one, every segment's blend finds all its partners |
| Keyframes.InterpolateOnSegment | spriteSheetMappings.js:129-134 | with ascending times, t on segment j gives the blend of keyframes j and j + 1, whatever the arities of the other keyframes |
| Keyframes.FindIndexOnSegment | spriteSheetMappings.js:129 | with ascending times, t on segment j makes findIndex land on j + 1 |
| Keyframes.GetInterpolatedArgs | spriteSheetMappings.js:121-134 | asks a blend of only defined args: at a param value other than exactly 0 and 1, the segment it falls in must have no shorter next keyframe; the channel's param missing from the assignment fails; a param value of exactly 0 or 1 gives the first or last keyframe's args verbatim (failing only with no keyframes); any other value succeeds iff a segment straddles it, and then gives the blend of the segment ending at the first key time past it |
| Keyframes.HalfwayExample | spriteSheetMappings.js:123-134 | the channel [{0,[1]},{1,[0]}] gives [1] at 0, [0] at 1 and [0.5] at 0.5 |
| Keyframes.LongerNextExample | spriteSheetMappings.js:134 | the channel [{0,[1]},{1,[3,4]}] gives [2] at 0.5: the blend maps over the previous keyframe's args only |
| Keyframes.ShrinkingAtEndsExample | spriteSheetMappings.js:124-127 | the channel [{0,[1,2]},{0.5,[3]},{1,[4]}] gives [1,2] at 0 and [4] at 1: the exact ends return args without blending, whatever the arities |
| SheetProps.ReadersAgreeExceptEmpty | spriteSheetMappings.js:16-20 | the namespaced read `getLRAttribute` equals the plain read except that "" becomes null; the discrete extractor's plain `getAttributeNS` (getSprites.js:40-45) keeps "", which is why the two copy rules differ |
| SheetProps.EmptyReadsAsMissing | spriteSheetMappings.js:16-20 | a namespaced attribute written as "" reads exactly as if it were absent, and a read never yields "" |
| SheetProps.EmptyAttributesAreAbsent | spriteSheetMappings.js:28-34 | a sprite with an empty `copy` and an empty `lookAt` resolves exactly as the same sprite without those attributes: no copy and a null lookAt |
| SheetProps.GetTransformType | spriteSheetMappings.js:49-63 | `opacity` gives Opacity; `transform` gives the kind its type names iff the type is in TRANSFORM_TYPES, else an unsupported-type error; any other attribute is an unsupported-attribute error |
| SheetProps.CreateTransform | spriteSheetMappings.js:64-83 | the param is checked first, then the type; it succeeds iff both pass and there are at least as many key times as values; keyframe i pairs keyTimes[i] with values[i] |
| SheetProps.CreateTransforms | spriteSheetMappings.js:44 | all channels built in order iff every element builds; otherwise the error of the first element that fails |
| SheetProps.Reverse | spriteSheetMappings.js:44 | `reverse` puts element i at position n - 1 - i |
| SheetProps.CreateCoords | spriteSheetMappings.js:85-100 | succeeds iff the node has both an anchor and a bbox marker, with their geometry; a missing anchor marker is reported first, then a missing bbox marker |
| SheetProps.OwnProps | spriteSheetMappings.js:38-46 | a missing marker fails first, before any channel is built; otherwise succeeds iff every animateTransform and the first animate build; transforms are the channels in reverse authored order; opacity is absent iff there is no animate; stretch comes from the classes and coords from the markers |
| SheetProps.GetSpriteProps | spriteSheetMappings.js:27-47 | a bad anchor, then a bad lookAt, is reported first; a success carries the node's own anchor and lookAt; without copy and with valid points the result is exactly the node's own props (so it succeeds iff they do) |
| SheetProps.CopyOverlay | spriteSheetMappings.js:33-37 | a copier resolves iff its target exists and resolves; the result is the target's props with the copier's anchor and lookAt (a null lookAt included) |
| SheetProps.CopyIgnoresOwnContent | spriteSheetMappings.js:33-37 | a copier's children, classes and geometry do not affect the result |
| SheetProps.OwnChannelsResolve | spriteSheetMappings.js:38-46 | without copy, a node with valid points resolves iff it has both markers and every animation element it uses builds a channel; a missing anchor marker, then a missing bbox marker, is the error |
| SheetProps.ResolveAll | spriteSheetMappings.js:165-166 | an entity's sprites resolve in order iff each one does; otherwise the error of the first sprite that fails |
| SheetProps.ResolveEntities | spriteSheetMappings.js:162-169 | the loop over entities succeeds iff every entity's sprites resolve; otherwise the error of the first entity that fails |
| SheetProps.GetSpriteSheetMappings | spriteSheetMappings.js:159-172 | succeeds iff every entity resolves, and otherwise reports the first entity's failure; the keys are exactly the entity names; each name holds the sprites of the last entity with that name |
| SheetMapping.FromTransform | spriteSheetMappings.js:111-120 | a fresh matrix exists iff the kind is not opacity; translate gives fromTranslation(args), scale gives fromScaling(args), rotate gives the pivot rotation |
| SheetMapping.TransformInPlace | spriteSheetMappings.js:102-110 | the in-place step exists iff the kind is not opacity, and it is post-multiplication by the channel's fresh matrix |
| SheetMapping.FromTransformIsInPlaceOnIdentity | spriteSheetMappings.js:102-120 | the fresh matrix of a channel is its in-place step applied to the identity |
| SheetMapping.ProductMovesThrough | spriteSheetMappings.js:150-156 | the product M0·M1·… moves a point through the last matrix first |
| SheetMapping.ComposeIsProduct | spriteSheetMappings.js:143-155 | when every channel passes, the loop's matrix is the starting matrix times the product of the channels' fresh matrices |
| SheetMapping.ComposeHidesIff | spriteSheetMappings.js:144-149 | the loop hides the sprite iff some scale channel is zero and every channel before it passes, whatever the matrix built so far |
| SheetMapping.ComposeFinishesIff | spriteSheetMappings.js:144-155 | the loop ends with a matrix iff every channel passes |
| SheetMapping.ComposedIsNoneIff | spriteSheetMappings.js:143-156 | the loop yields a null matrix iff it had no channel and started without one |
| SheetMapping.OpacityValue | spriteSheetMappings.js:138 | asks a blend of only defined args: at a param value other than exactly 0 and 1, the segment it falls in must have no shorter next keyframe; null without an opacity channel; a missing param fails; at exactly 0 or 1 the first arg of the first or last keyframe; otherwise the opacity lies between the first args of the two keyframes of the segment it falls in |
| SheetMapping.GetMappingProps | spriteSheetMappings.js:136-157 | coords are returned unchanged; an opacity of exactly 0 hides the sprite; a shown sprite carries the interpolated non-zero opacity, and its transform is null iff there are no transform channels |
| SheetMapping.HiddenIff | spriteSheetMappings.js:138-149 | hidden iff the opacity is exactly 0, or the opacity is usable and non-zero and some zero scale is reached; an absent opacity channel never hides |
| SheetMapping.ShownTransformIsProduct | spriteSheetMappings.js:150-156 | a shown sprite's matrix is the product of its channels' fresh matrices in list order |
| SheetMapping.OrderFold | spriteSheetMappings.js:150-154 | rotate-then-translate in list order evaluates to rotation·translation |
| SheetMapping.CompositionOrder | spriteSheetMappings.js:150-154 | that matrix moves a point by the first-authored translate first and turns it second |
| SheetMapping.CompositionOrderExample | spriteSheetMappings.js:150-154 | authored translate(1, 0) then rotate(90) sends (1, 0) to (0, 2) |
| SheetMapping.PivotDirection | spriteSheetMappings.js:114-119 | a single rotate channel maps q to R(q + p) - p and holds -p still |
| SheetMapping.PivotExample | spriteSheetMappings.js:114-119 | rotate(180, 2, 0) keeps (-2, 0) and sends (3, 0) to (-7, 0) |
| Sprites.QuerySelector | getSprites.js:75-76 | the first strict descendant in document order that carries the class; none iff no descendant has it |
| Sprites.CreateCoords | getSprites.js:68-89 | lr-null gives all zeros; otherwise succeeds iff both markers exist (a missing anchor marker is reported first); the coordinates are the markers' raw cx/cy and x/y/width/height texts |
| Sprites.CheckParam | getSprites.js:28-30 | a name is accepted iff it is in PARAMS; otherwise the error names it |
| Sprites.GetParamNames | getSprites.js:24-33 | an absent or empty attribute gives []; otherwise succeeds iff every space-separated piece is in PARAMS, and the names join back to the attribute; the first unknown piece is reported |
| Sprites.OwnProps | getSprites.js:50-65 | with no names, one entry under "" from the sprite itself; with names, succeeds iff every child has coordinates, and the table is the children filed under their keys in order |
| Sprites.GetSpriteProps | getSprites.js:39-66 | a bad anchor, then a bad lookAt, is reported first; a non-empty copy fails with no fuel or no target; a success carries the sprite's own anchor and lookAt; without copy and with valid points the result is exactly the sprite's own props (so it succeeds iff they do) |
| Sprites.CopyOverlay | getSprites.js:45-49 | a copier with valid points resolves iff its target exists within the fuel and resolves; it then has its target's stretch, paramNames and coords, with its own anchor and lookAt |
| Sprites.CopyIgnoresOwnContent | getSprites.js:45-49 | a copier's classes, params and children do not affect the result |
| Sprites.GetCoords | getSprites.js:91-94 | with no parameter names the lookup finds the "" entry whatever the assignment; otherwise it finds an entry iff the assignment's joined values are a key (see RoundTrip and UnauthoredKeyFindsNothing for what that key holds) |
| Sprites.GetCoordsReadsOnlyNamedParams | getSprites.js:92 | two assignments that agree on the sprite's named parameters look up the same entry; other parameters are ignored |
| Sprites.NoParamsSingleEntry | getSprites.js:52-53 | with no parameter names the table has exactly the key "", and every assignment finds the sprite's own coordinates |
| Sprites.OwnTable | getSprites.js:54-58 | the table's keys are exactly the children's keys; a key holds the coordinates of the last child with that key |
| Sprites.ChildTable | getSprites.js:54-58 | the same, for a resolved non-copying sprite |
| Sprites.RoundTrip | getSprites.js:91-94 | an assignment equal to child i's authored values finds child i's coordinates when no later child has the same key |
| Sprites.UnauthoredKeyFindsNothing | getSprites.js:93 | an assignment whose key no child authored finds nothing |
| Sprites.KeyMatchesValues | getSprites.js:56 | with space-free values, the assignment's key equals a child's key iff every value matches |
| Sprites.ParamNamesInOrder | getSprites.js:24-33 | `"broken crashed"` gives both names, in order |
| Sprites.ParamNamesDoubledSpace | getSprites.js:26-29 | a doubled space leaves an empty piece, reported as the unknown param |

## Left out

- **DOM access.** This covers `querySelectorAll` of entities, sprites and
  animation elements, `getElementById`, `classList`, and the IE
  `containsClass` polyfill (spriteSheetMappings.js:8-15). Nodes are
  records whose animation elements and sprites are pre-collected lists.
  The descendant search by class is modelled only in the discrete
  extractor (`Sprites.QuerySelector`).
- **Number parsing.** The model leaves out `parseFloat`/`parseInt` and the
  `;`/whitespace splitting of `values` and `keyTimes`
  (spriteSheetMappings.js:70-78). Keyframe values and times arrive
  already parsed as reals.
- **Marker parsing.** The `parseFloat`/`parseInt` of the sheet markers'
  x, y, width and height (spriteSheetMappings.js:88-98) is left out. A
  marker arrives parsed; only its presence is modelled.
- **Trigonometry.** `Math.sin`/`Math.cos` of `deg / 180 * Math.PI` are
  the caller-supplied `trig: real -> SinCos`. No trigonometry is verified.
- **Floating point.** IEEE doubles are modelled as exact reals, and the
  `=== 0` tests are exact equality. Rounding, infinities and NaN are not
  modelled.
- Keyframes.Interpolate: requires `SegmentFits`: at a t other than exactly 0 and 1, the segment t falls in must not have a next keyframe with fewer args than the previous one. There the source blends with undefined and yields NaN entries, which reals cannot hold. Every other mix of arities is accepted, and any at exactly 0 or 1.
- Keyframes.GetInterpolatedArgs: the same `SegmentFits` requirement, at the param's value, for the same reason.
- SheetMapping.OpacityValue: the same `SegmentFits` requirement. It also excludes a shorter but non-empty next keyframe, whose NaN entries come after the first one; the source's opacity reads only the first one and stays a number there.
- SheetMapping.GetMappingProps: requires `EvaluableSprite`, a condition on all parameter values at once. Every channel's keyframes must have growing arities (no keyframe with more args than a later one), and a transform channel's first keyframe must carry at least as many args as its kind reads. Missing args give NaN matrices in the source. The condition also excludes channels the source evaluates without NaN: arities that shrink only on a segment the assignment does not use, or only at the exact ends 0 and 1.
- SheetProps.GetSpriteProps: stops after `fuel` copy links with `CopyChainTooLong`; the source recurses without bound on a copy cycle.
- Sprites.GetSpriteProps: the same fuel bound on copy chains, for the same reason.
- Sprites.GetCoords: treats the coordinate table as a plain map. The source's table is a JavaScript object, so a key naming an inherited member (`"constructor"`, `"toString"`, `"__proto__"`, …) finds that member instead of undefined; the parameter values the drawing documents are small integers (getSprites.js:14-17), which never name one.
- Sprites.OwnProps: a child key `"__proto__"` sets the table object's prototype in the source instead of adding an entry; the model adds the entry.
- SheetProps.GetSpriteSheetMappings: an entity named `"__proto__"` sets the prototype of the result object in the source instead of adding a key; the model adds the key.
- **Keyframe order.** Ascending key times are assumed only by
  `InterpolateOnSegment` and `FindIndexOnSegment`. The source never checks
  the order.
- **Non-string values in `getCoords`.** The discrete lookup takes its
  parameter values as strings. The number-to-string conversion `join`
  performs (getSprites.js:92) is not modelled.
- **Top-level code.** The top-level run and `console.log` calls are left
  out (spriteSheetMappings.js:174-175, getSprites.js:96-98).
- **generateBoundingBoxes.js.** This file is not part of this model. It is
  DOM geometry, serialization and UI glue.
