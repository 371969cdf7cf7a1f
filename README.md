# brd2svg in Dafny

A model of the conversion core of `brd2svg/brd2svg.py`. The script turns an
Eagle board file (`.brd`) into a breadboard SVG for Fritzing, in these steps:

1. The board outline is the list of distinct endpoints of the `<wire>`s under
   `<plain>`, in first-seen order (`extract_board_outline`).
2. Its bounding box gives the canvas extents. A board without an outline gets
   a default 2000 x 2000 mil canvas.
3. Each `<element>` with a name and a package becomes a placed part. Its y is
   flipped about the board's maximum Y, because Eagle's y axis points up and
   SVG's points down (`extract_components`).
4. Each part's orientation code (`R90`, `MR180`, `M0`, ...) becomes an SVG
   transform list (`build_transform`).
5. The drawing (`combine_svgs`) has:
   - a root sized in inches, with a viewBox in mils;
   - the outline wires as flipped `<line>`s;
   - one `<g id=name transform=...>` per part whose artwork is found, holding
     that artwork's content.

Modules, one per concern of the script:

| module | models |
|---|---|
| `Wrappers` | `Option`, `Result`, and the two Python exceptions that can escape: `TypeError` and `ValueError` |
| `PyNum` | `float()` on attribute text (missing gives `TypeError`, non-numeric gives `ValueError`); `int()` on the angle text (whitespace, sign, digits with single underscores, at most 4300 digits), with `str()` as its partner |
| `Distinct` | the seen-set deduplication of `extract_board_outline`, generic, with its characterisation |
| `Geometry` | points, segments, `bounding_box`, the y flip |
| `Outline` | `extract_board_outline`, both loops as methods proved against `BoardOutline` |
| `Components` | `extract_components`, its loop as a method proved against `ExtractedComponents` |
| `Transform` | `build_transform`, and what a transform list does to a point for whole quarter turns |
| `Canvas` | the extents choice, `create_svg_root`, and `combine_svgs` (method proved against `Composite`) |
| `Pipeline` | `main` from the parsed document on: outline, reference height, parts, early exit, drawing |

Every exception the script can raise on a well-formed XML document is modelled
as an `Err` that ends the run. Examples are a missing `x1` on a wire, a
non-numeric `x` on a part, and a `rot` such as `R` or `Rx` that `int()`
rejects.

Two behaviours of the code that a reader might not expect:

- A document without any named part ends with the early exit at
  `brd2svg/brd2svg.py:193-195`. No default canvas is written
  (`Pipeline.EmptyDocumentStops`).
- No margin is added around the outline's bounding box.

## Model

| member | source | states |
|---|---|---|
| `PyNum.ReadFloat` | brd2svg/brd2svg.py:30-33 | `float()` of a present numeric attribute is its value; a missing attribute raises TypeError, non-numeric text ValueError |
| `PyNum.ReadFloatOr` | brd2svg/brd2svg.py:61-62 | `float(elem.get(k, "0"))`: a missing attribute reads as 0; only non-numeric text raises, with ValueError |
| `PyNum.ParseInt` | brd2svg/brd2svg.py:108-113 | `int()` on the angle text accepts only a digit run (optionally signed, whitespace around) of at most 4300 digits: every character between the sign and the end is a digit or an underscore, the last is a digit, and a negative result comes from a leading "-" |
| `PyNum.ParseDecimal` | brd2svg/brd2svg.py:108-113 | `int()` reads back every angle `str()` writes, negative ones included, up to 4300 digits; beyond that it raises |
| `Distinct.Dedup` | brd2svg/brd2svg.py:41-46 | the deduplicated list holds exactly the input's elements, each once |
| `Distinct.DedupOrder` | brd2svg/brd2svg.py:41-46 | elements appear in the order of their first occurrence in the input |
| `Distinct.DedupCharacterized` | brd2svg/brd2svg.py:41-46 | any duplicate-free list with the input's elements in first-occurrence order is the deduplicated list, so the loop's result is determined by those three properties |
| `Distinct.DedupOfDistinct` | brd2svg/brd2svg.py:41-46 | a list without duplicates passes through unchanged |
| `Distinct.DedupIdempotent` | brd2svg/brd2svg.py:41-46 | deduplicating twice is deduplicating once |
| `Distinct.DedupLength` | brd2svg/brd2svg.py:41-46 | the result is never longer than the input, and as long exactly when the input has no duplicates |
| `Distinct.DedupAbsorbs` | brd2svg/brd2svg.py:41-46 | appending elements already seen changes nothing |
| `Distinct.DedupSelfConcat` | brd2svg/brd2svg.py:41-46 | a list followed by itself deduplicates like the list |
| `Geometry.FlipY` | brd2svg/brd2svg.py:65 | a coordinate and its flip add up to the height, and the flip is non-negative exactly when the coordinate is at most the height |
| `Geometry.BoundingBox` | brd2svg/brd2svg.py:50-52 | every point lies in the box, min does not exceed max, and each of the four bounds is a coordinate of some point |
| `Outline.ParseWire` | brd2svg/brd2svg.py:30-33 | a wire reads exactly when all four coordinates are present and numeric, and then gives the segment from (x1, y1) to (x2, y2) |
| `Outline.ParseWires` | brd2svg/brd2svg.py:29-33 | the wires read exactly when every wire does; then the k-th segment is the k-th wire's |
| `Outline.Endpoints` | brd2svg/brd2svg.py:34-35 | two points per wire, its first then its second endpoint, in wire order |
| `Outline.CollectEndpoints` | brd2svg/brd2svg.py:28-35 | the first loop yields the endpoints of the parsed wires, or the first wire's error |
| `Outline.DedupPoints` | brd2svg/brd2svg.py:41-48 | the seen-set loop yields the deduplicated list |
| `Outline.ExtractBoardOutline` | brd2svg/brd2svg.py:22-48 | the method computes `BoardOutline`: None without `<plain>` or wires, the error of a bad wire, else the distinct endpoints |
| `Outline.OutlineAbsent` | brd2svg/brd2svg.py:23-39 | the outline is None exactly when there is no `<plain>` or it holds no wire |
| `Outline.OutlineError` | brd2svg/brd2svg.py:29-33 | the run aborts here exactly when some wire has a missing or non-numeric coordinate |
| `Outline.OutlineShape` | brd2svg/brd2svg.py:37-48 | a present outline is non-empty, has at most two points per wire (exactly two when all endpoints differ), no duplicates, exactly the endpoints, in first-seen order |
| `Outline.OutlineStable` | brd2svg/brd2svg.py:29-48 | listing every wire twice leaves the outline unchanged |
| `Components.ToComponent` | brd2svg/brd2svg.py:61-66 | a named element becomes a part exactly when its x and y read |
| `Components.NamedElements` | brd2svg/brd2svg.py:57-60 | the elements kept are exactly those with a non-empty name and package |
| `Components.NamedElementsConcat` | brd2svg/brd2svg.py:56-60 | filtering a document split in two gives the filtered first part followed by the filtered second, so the order of elements is kept |
| `Components.ExtractComponents` | brd2svg/brd2svg.py:54-67 | the loop computes `ExtractedComponents` |
| `Components.ExtractedError` | brd2svg/brd2svg.py:57-62 | extraction fails exactly when a named element has a non-numeric x or y; skipped elements are never read |
| `Components.ExtractedMatchesNamed` | brd2svg/brd2svg.py:54-67 | one part per named element in order, with its name, package, x, y flipped about the board height (flipping again gives the element's y) and rot defaulting to R0 |
| `Components.DefaultPlacement` | brd2svg/brd2svg.py:61-63 | an element with only name and package sits at (0, board height) with orientation R0 |
| `Transform.ReadOrientation` | brd2svg/brd2svg.py:104-114 | a code is mirrored exactly when it starts with "M", turned when it starts with "R" otherwise |
| `Transform.BuildTransform` | brd2svg/brd2svg.py:100-115 | every list starts with the translation to the anchor; it fails, with ValueError, exactly when a mirrored or turned code's angle text is rejected by `int()` |
| `Transform.BuildTransformShape` | brd2svg/brd2svg.py:100-115 | mirrored: translate, scale(-1,1), rotate; turned: translate, rotate; other codes: translate only |
| `Transform.RotateCode` | brd2svg/brd2svg.py:112-114 | `"R" + str(n)` gives translate, rotate(n) for every integer n of at most 4300 digits, and raises ValueError otherwise |
| `Transform.MirrorRotateCode` | brd2svg/brd2svg.py:104-111 | `"MR" + str(n)` gives translate, scale(-1,1), rotate(n), with the same digit limit |
| `Transform.MirrorCode` | brd2svg/brd2svg.py:109-111 | `"M" + str(n)` gives the same list as `"MR" + str(n)` |
| `Transform.LongAngleFails` | brd2svg/brd2svg.py:112-113 | an "R" code whose angle has more than 4300 digits raises ValueError |
| `Transform.FractionalAngleFails` | brd2svg/brd2svg.py:112-113 | a fractional angle such as "R22.5" raises ValueError, since `int()` does not read a decimal point |
| `Transform.SpinCodeIgnored` | brd2svg/brd2svg.py:104-115 | a code starting with "S" (Eagle's spin flag) places the part without turning it |
| `Transform.EmptyAngleFails` | brd2svg/brd2svg.py:107-114 | "R", "M" and "MR" raise, since `int("")` does |
| `Transform.MirrorRotate90` | brd2svg/brd2svg.py:100-111 | "MR90" at (100,200) gives translate(100,200) scale(-1,1) rotate(90) |
| `Transform.MirrorRotate90Point` | brd2svg/brd2svg.py:111 | that list maps (1,0) to (100,201); with rotate and mirror swapped it would give (100,199) |
| `Transform.MirrorOrderMatters` | brd2svg/brd2svg.py:111 | for every odd number of quarter turns, swapping mirror and rotate moves some point, so the order written is part of the meaning |
| `Canvas.Extents` | brd2svg/brd2svg.py:118-120 | the extents hold every outline point, min does not exceed max, each of the four bounds is a coordinate of some outline point, and an absent or empty outline gets the default 0 0 2000 2000 |
| `Canvas.CreateSvgRoot` | brd2svg/brd2svg.py:84-98 | the viewBox starts at 0,0 and spans the extents; width and height are the same spans in inches; version 1.1 |
| `Canvas.StripDimensions` | brd2svg/brd2svg.py:160-163 | width, height and viewBox are removed, every other attribute and all children kept |
| `Canvas.OutlineLines` | brd2svg/brd2svg.py:139-146 | one styled line per wire, in order, its y coordinates flipped about the given height |
| `Canvas.ResolvedParts` | brd2svg/brd2svg.py:149-158 | the parts drawn are exactly the parts whose package has a library entry that parses, never more than the parts listed |
| `Canvas.ResolvedPartsConcat` | brd2svg/brd2svg.py:149-158 | skipping parts of a list split in two gives the kept parts of the first half followed by those of the second, so the order of parts is kept |
| `Canvas.PlacementGroups` | brd2svg/brd2svg.py:149-172 | the component loop yields one group per resolved part, never more groups than parts, and fails only with ValueError |
| `Canvas.CombineSvgs` | brd2svg/brd2svg.py:117-174 | the method computes `Composite`: extents, lines when an outline is given (ValueError for an empty one), then one group per resolved part or the first transform error |
| `Canvas.GroupsMatchResolved` | brd2svg/brd2svg.py:149-172 | exactly one group per part whose artwork resolves, in order, with the part's name, `build_transform`'s list and the artwork's children |
| `Canvas.GroupsError` | brd2svg/brd2svg.py:149-168 | drawing fails exactly when a resolved part's orientation has a bad angle; unresolved parts never reach `build_transform` |
| `Canvas.SkippedPartChangesNothing` | brd2svg/brd2svg.py:150-158 | a part with missing or unparseable artwork can be removed from the list without changing any group or error |
| `Canvas.DefaultCanvas` | brd2svg/brd2svg.py:118-134 | without an outline the canvas is 2in x 2in with viewBox 0 0 2000 2000 and has no line |
| `Canvas.OutlineWithinViewBox` | brd2svg/brd2svg.py:84-146 | flipped outline lines always lie within the viewBox height; the outline lies within its width exactly when its minimum x is 0 |
| `Pipeline.ReferenceHeight` | brd2svg/brd2svg.py:189 | main's flip height is the outline's highest y, attained by an outline point, or 2000 without an outline |
| `Pipeline.DefaultReferenceHeight` | brd2svg/brd2svg.py:189 | without an outline the parts are flipped about 2000, the default canvas height |
| `Pipeline.RunConversion` | brd2svg/brd2svg.py:186-199 | main's steps compute `Convert`: a crash, the early exit, or the drawing |
| `Pipeline.OutlineNonEmpty` | brd2svg/brd2svg.py:188-189 | an outline main obtains is non-empty, and main's reference height is its bounding box's max Y |
| `Pipeline.ConvertedLayout` | brd2svg/brd2svg.py:188-199 | a drawing's canvas spans the outline's extents, and its lines and its parts are flipped about the same height |
| `Pipeline.ConvertedLinesOnCanvas` | brd2svg/brd2svg.py:134-146 | in every drawing main makes, each outline line lies within the canvas height |
| `Pipeline.NoComponentsExactly` | brd2svg/brd2svg.py:191-195 | main exits early exactly when the outline reads and no element has both a name and a package |
| `Pipeline.BoardExampleOutline` | brd2svg/brd2svg.py:22-52 | wires (0,0)-(1000,0) and (1000,0)-(1000,500) give the outline of three corners, spanning (0,0)-(1000,500) |
| `Pipeline.ResistorOnBoard` | brd2svg/brd2svg.py:186-199 | that board with R1 (RES_0805) at (500,250), R0, and its artwork: a 1in x 0.5in canvas, viewBox 0 0 1000 500, both wires flipped, one group R1 at translate(500,250) rotate(0) |
| `Pipeline.EmptyDocumentStops` | brd2svg/brd2svg.py:188-195 | a document without `<plain>` and without elements ends in the early exit |
| `Pipeline.MissingArtworkSkipped` | brd2svg/brd2svg.py:149-153 | the same board whose part has no artwork is drawn, without any group |

## Left out

- Reading and writing files is not modelled: `parse_brd_file`, `parse_svg` and `tree.write`. The document arrives as its `<plain>` wires and `<elements>`. A part's artwork arrives through a `Library` map: no entry means `match_svg` found no file; `None` means `parse_svg` failed.
- `usage`, the command-line and `.brd` extension checks, the output path and every printed message or warning are not modelled: they are I/O.
- The syntax of number texts is not modelled. An attribute is either a number or text that `float()` rejects. `float()` values are exact reals: binary rounding, NaN, infinities and negative zero are left out.
- The decimal formatting of numbers in attributes (`f"{width_in}in"`, `str(x1)`, the transform string) is not modelled. Numbers stay reals and transforms stay lists of operations, since Python's float formatting is not part of this model.
- `PyNum.ParseInt` uses `int()`'s default limit of 4300 digits. A limit changed with `sys.set_int_max_str_digits` or `PYTHONINTMAXSTRDIGITS` is not modelled, and neither are older Python releases that have no limit.
- `int()` on non-ASCII Unicode digits is not modelled: `int()` accepts them, while `PyNum.ParseInt` accepts ASCII digits only.
- `combine_svgs` re-reads the `<plain>` wires through the global `root`. The model passes those wires in (`Pipeline.PlainSegments`), which is what `main` arranges.
- The XML nesting (`<svg>`, `<g id="breadboard">`, the inner `<g>`), the namespace, and the order of lines before groups are kept only as the `Svg` record's fields. The copy made by `copy.deepcopy` is not modelled: values cannot alias.
- `Transform.Apply`: a point is mapped only for whole quarter turns. Other angles give `None`, since they need trigonometry.
