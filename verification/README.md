# IDML-to-PDF shape rendering, modelled in Dafny

This project models three pure parts of an IDML-to-PDF converter written in
Rust and proves properties about them.

- **Affine transforms** (`transforms.dfy`, module `Transforms`). A transform
  is a 3×3 matrix in the row-vector convention: a point maps as
  `[x y 1] · M`, and the translation sits in the third row. Each transform
  also carries an optional cached inverse. The module builds transforms from
  the six `ItemTransform` values, composes them, applies them to points, and
  reverses them. It also models the single-coefficient builders
  (`with_a` … `with_f`, `with_transpose`, `with_scale`). All arithmetic is
  exact, over `real`. The methods `apply_to_point`, `combine_with` and
  `reverse` only forward to `transform_point`, `combine` and `reverse`, so
  each pair is modelled by one function.
- **Shape rendering** (`polygon.dfy`, module `Polygon`). This is the generic
  `render` shared by rectangles, polygons, ovals and text frames. It:
  - flattens the path points into left-handle, anchor, right-handle order;
  - maps each point through the item transform and then the parent transform;
  - resolves fill, stroke and line width through the object style and the
    shape's own attributes;
  - decides whether the path is closed;
  - issues the PDF library calls.

  The calls are recorded as a trace of `DrawCall` values. `Shape` is the
  accessor record that `IsPolygon` exposes; all four shape kinds expose it
  the same way.
- **Attribute decoders** (`formats.dfy`, module `Formats`). These are the
  space-separated number-list decoder, its optional variant, and the
  object-id normaliser, which maps `""` and `"n"` to "no object".

`wrappers.dfy` holds the `Option` and `Result` types shared by the modules.

## Behaviour of the code worth knowing

- **Empty point list.** The code saves the graphics state and sets the
  colours, then calls `rotate_right(1)` on the empty vector. Rust panics
  there, so the state is never restored. See "Findings" below.
- **Rotation.** For `[L1, A1, R1, L2, A2, R2]` the code moves to A2, then
  draws curve (R2, L1, A1) and curve (R1, L2, A2). In general the move-to
  target is the second-to-last point, or the only point when there is just
  one (`Polygon.PathCalls`, `Polygon.RotationExample`).
- **Trailing points.** `chunks(3)` yields a final chunk of one or two points
  that the code does not draw: only full triples become curves
  (`Polygon.CurveCalls`).
- **Panics.** The code panics in four places:
  - a number token that does not parse;
  - a singular matrix in `reverse`;
  - a coordinate vector with fewer than two entries;
  - `rotate_right(1)` on an empty point list.

  The model handles each one:
  - the number token becomes `Failure(ParseFailure(token))`;
  - the singular matrix becomes the precondition `CanReverse`;
  - the short coordinate vector becomes `None` from `ExtractPoints`, and
    both renderings return `Panicked` with no calls issued;
  - the empty point list makes `RenderAsWritten` return `Panicked` with the
    prologue as its trace, while the corrected `Render` skips the rotation.

## Model

| member | source | states |
|---|---|---|
| Transforms.Identity | src/pdf_printer/transforms.rs:10-22 | The identity has 1 on the diagonal and 0 elsewhere, no cached inverse, and maps every point to itself. |
| Transforms.FromValues | src/pdf_printer/transforms.rs:24-36 | The rows are `[a b 0]`, `[c d 0]`, `[e f 1]`, with no cached inverse. Applying it to (x, y) gives (a·x + c·y + e, b·x + d·y + f). |
| Transforms.FromVec | src/pdf_printer/transforms.rs:38-47 | `Some` of a six-element vector gives `FromValues` of its elements. Any other length, or `None`, gives the identity. The result is always affine and has no cached inverse. |
| Transforms.TransformPoint | src/pdf_printer/transforms.rs:49-54 | The image of (x, y) is (a·x + c·y + e, b·x + d·y + f), read from the first two columns of the matrix. The third column and the cached inverse play no part. |
| Transforms.TransformPointUsesTwoColumns | src/pdf_printer/transforms.rs:49-54 | Two transforms whose matrices agree in the first two columns map every point to the same place. |
| Transforms.Combine | src/pdf_printer/transforms.rs:79-85 | Composition drops the cached inverse. Composing two affine matrices gives an affine matrix (third column 0, 0, 1). |
| Transforms.CombineIdentity | src/pdf_printer/transforms.rs:80-85 | The identity is a left and a right neutral element of `Combine` on matrices. |
| Transforms.CombineAssociative | src/pdf_printer/transforms.rs:80-85 | `Combine` is associative on matrices. |
| Transforms.CombineSequential | src/pdf_printer/transforms.rs:49-54 | When the first transform is affine, applying `Combine(t1, t2)` to a point equals applying t1 and then t2. |
| Transforms.Inverse | src/pdf_printer/transforms.rs:67-71 | A matrix with nonzero determinant has a two-sided inverse. This stands in for `inv()`. |
| Transforms.Reverse | src/pdf_printer/transforms.rs:60-77 | The original matrix becomes the new cached inverse. A cached inverse becomes the new matrix. Without a cache, the new matrix is the two-sided inverse. Reversing requires a cache or an invertible matrix, because the code panics otherwise. |
| Transforms.ReverseReverse | src/pdf_printer/transforms.rs:60-77 | Reversing twice gives back the original matrix, with the first reverse cached. |
| Transforms.ReverseCacheConsistent | src/pdf_printer/transforms.rs:60-77 | If the cached inverse of t really is an inverse, so is the cache of `Reverse(t)`. |
| Transforms.ReverseUndoes | src/pdf_printer/transforms.rs:60-77 | For an affine transform with a consistent cache, mapping a point through it and then through its reverse gives the point back. |
| Transforms.TransformPointReverse | src/pdf_printer/transforms.rs:56-58 | For an affine transform with a consistent cache, mapping the result forward through the transform gives back the input point. |
| Transforms.ReverseThenForward | src/pdf_printer/transforms.rs:49-77 | For an affine transform with a consistent cache, mapping a point through the reverse and then through the transform gives the point back. |
| Transforms.TransformPointReverseUndoes | src/pdf_printer/transforms.rs:56-58 | `_transform_point_reverse` undoes `transform_point` for an affine transform with a consistent cache. |
| Transforms.With | src/pdf_printer/transforms.rs:100-107 | The result has the given value at (i, j), the other eight entries unchanged, and no cached inverse. Changing an entry outside the third column keeps an affine matrix affine. |
| Transforms.WithA | src/pdf_printer/transforms.rs:109-111 | Sets entry (0, 0) and changes nothing else. Clears the cache and keeps an affine matrix affine. |
| Transforms.WithB | src/pdf_printer/transforms.rs:113-115 | Sets entry (0, 1) and changes nothing else. Clears the cache and keeps an affine matrix affine. |
| Transforms.WithC | src/pdf_printer/transforms.rs:117-119 | Sets entry (1, 0) and changes nothing else. Clears the cache and keeps an affine matrix affine. |
| Transforms.WithD | src/pdf_printer/transforms.rs:121-123 | Sets entry (1, 1) and changes nothing else. Clears the cache and keeps an affine matrix affine. |
| Transforms.WithE | src/pdf_printer/transforms.rs:125-127 | Sets entry (2, 0) and changes nothing else. Clears the cache and keeps an affine matrix affine. |
| Transforms.WithF | src/pdf_printer/transforms.rs:129-131 | Sets entry (2, 1) and changes nothing else. Clears the cache and keeps an affine matrix affine. |
| Transforms.WithTranspose | src/pdf_printer/transforms.rs:133-135 | Sets (2, 0) = x and (2, 1) = y and leaves the other seven entries unchanged. Clears the cache. |
| Transforms.WithScale | src/pdf_printer/transforms.rs:137-139 | Sets (0, 0) = sx and (1, 1) = sy and leaves the other seven entries unchanged. Clears the cache. |
| Formats.Trim | src/idml_parser/formats.rs:9 | The trimmed string neither starts nor ends with Unicode whitespace. |
| Formats.TrimIsInfix | src/idml_parser/formats.rs:9 | The trimmed string is an infix of the input. Only whitespace lies before and after it. |
| Formats.TrimUnique | src/idml_parser/formats.rs:9 | A trimmed string with whitespace on both sides trims to exactly that string. |
| Formats.TrimIgnoresSurroundingWhitespace | src/idml_parser/formats.rs:47 | Adding whitespace around the input does not change the trimmed string. |
| Formats.Split | src/idml_parser/formats.rs:16 | There is one more token than there are separators. No token contains the separator. Joining the tokens with the separator gives back the input. |
| Formats.SplitJoin | src/idml_parser/formats.rs:16 | Splitting a join of separator-free tokens gives back the tokens. |
| Formats.AdjacentSeparatorsGiveEmptyToken | src/idml_parser/formats.rs:16 | Two adjacent separators produce an empty token. |
| Formats.ParseAll | src/idml_parser/formats.rs:15-22 | Succeeds iff every token parses, giving the parsed values in order. Otherwise it fails with the first token that does not parse. |
| Formats.DecodeNumberList | src/idml_parser/formats.rs:2-25 | Blank text gives the empty list. Otherwise it succeeds iff every space-separated token of the trimmed text parses. On success it has 1 + (number of spaces) elements, the k-th being the parse of the k-th token. On failure it names the first token that does not parse: every earlier token parses. |
| Formats.DoubleSpaceFails | src/idml_parser/formats.rs:15-22 | When the empty string is not a number, two adjacent spaces inside the trimmed text make decoding fail. |
| Formats.DecodeJoinedTokens | src/idml_parser/formats.rs:15-22 | Decoding number tokens joined by single spaces gives back their values in order. |
| Formats.DecodeOptNumberList | src/idml_parser/formats.rs:27-40 | Gives `Some` of exactly the plain decoder's list, or passes its error through unchanged. |
| Formats.DecodeIdString | src/idml_parser/formats.rs:42-54 | Gives none iff the trimmed text is `""` or `"n"`. Otherwise gives the trimmed text, which is non-empty, has no surrounding whitespace and is not `"n"`. |
| Formats.NumberListIgnoresSurroundingWhitespace | src/idml_parser/formats.rs:2-40 | The number-list decoder and its optional variant give the same result on `ws + s + ws` as on `s`. |
| Formats.IdStringIgnoresSurroundingWhitespace | src/idml_parser/formats.rs:42-54 | The id decoder gives the same result on `ws + s + ws` as on `s`. |
| Formats.DecodeIdStringRoundTrip | src/idml_parser/formats.rs:42-54 | An id that is non-empty, trimmed and not `"n"` decodes to itself, whatever whitespace surrounds it. |
| Polygon.Handles | src/pdf_printer/page_items/polygon.rs:130-137 | A path point contributes one vector per present entry, absent ones dropped rather than substituted. The left handle, when present, comes first. The anchor follows it, or comes first without a left handle. The right handle, when present, comes last. |
| Polygon.PointsOfArray | src/pdf_printer/page_items/polygon.rs:128-137 | A run of path points contributes at most three vectors per point. |
| Polygon.PointsOfArrayCount | src/pdf_printer/page_items/polygon.rs:128-137 | A run of path points contributes exactly as many vectors as it has present handles and anchors, summed over the points. |
| Polygon.PointsOfArrayAppend | src/pdf_printer/page_items/polygon.rs:128-137 | Path points are read in document order: the points of a concatenation are the concatenated points. |
| Polygon.PointsOfArraysAppend | src/pdf_printer/page_items/polygon.rs:122-142 | Path-point arrays are read one after another in document order. |
| Polygon.PointsOfArrayLayout | src/pdf_printer/page_items/polygon.rs:128-137 | When every handle is present, point i gives entries 3i, 3i+1 and 3i+2 as left handle, anchor and right handle. |
| Polygon.ExtractPoints | src/pdf_printer/page_items/polygon.rs:119-142 | Points are extracted iff every coordinate vector has at least x and y. There is then one page-space point per raw vector. |
| Polygon.ExtractedPointsAreComposed | src/pdf_printer/page_items/polygon.rs:138 | Each extracted point is its raw (x, y) mapped by the item transform and then by the parent transform. |
| Polygon.ClosedPath | src/pdf_printer/page_items/polygon.rs:177-186 | Only a shape with a path geometry can be closed. With one, the path is closed iff the geometry is not marked open. |
| Polygon.ResolvePaint | src/pdf_printer/page_items/polygon.rs:144-175 | Fill and stroke are the lookup of the shape's own colour if set, else the resolved style's colour if set, else `"Swatch/None"`. Weight is the shape's own if set, else the resolved style's (possibly none), else none. |
| Polygon.UnresolvedStyleChangesNothing | src/pdf_printer/page_items/polygon.rs:150-160 | An object-style id that does not resolve has the same effect as no style. |
| Polygon.ShapeAttributesWin | src/pdf_printer/page_items/polygon.rs:162-175 | A shape that sets fill, stroke and weight itself is painted with exactly those, whatever its object style. |
| Polygon.FillColorCalls | src/pdf_printer/page_items/polygon.rs:197-206 | One fill-colour call when the lookup succeeded, none when it failed. The call carries the looked-up colour: CMYK channels for a CMYK colour, RGB channels for an RGB colour. |
| Polygon.StrokeColorCalls | src/pdf_printer/page_items/polygon.rs:208-217 | One stroke-colour call when the lookup succeeded, none when it failed. The call carries the looked-up colour: CMYK channels for a CMYK colour, RGB channels for an RGB colour. |
| Polygon.Prologue | src/pdf_printer/page_items/polygon.rs:188-217 | The prologue saves the graphics state first. Every later call sets width or colour. There is one such call per resolved weight and per successful colour lookup, in the order width, fill, stroke. The width call sets the resolved weight, and each colour call sets the looked-up colour. |
| Polygon.TerminalOp | src/pdf_printer/page_items/polygon.rs:235-242 | The call ends the path. It fills iff the fill resolved and strokes iff the stroke resolved. It closes the path iff the path is closed and the stroke resolved. |
| Polygon.TerminalOpUnique | src/pdf_printer/page_items/polygon.rs:235-242 | Any path-ending call with those fill, stroke and close properties is the one chosen. |
| Polygon.TerminalOpTable | src/pdf_printer/page_items/polygon.rs:235-242 | The eight cases of (closed, fill ok, stroke ok) and the call each selects. |
| Polygon.RotateRight | src/pdf_printer/page_items/polygon.rs:219-221 | The last element moves to the front and the others shift one place right. The length is kept. |
| Polygon.RotateRightIsRotation | src/pdf_printer/page_items/polygon.rs:221 | Element i lands at index (i + 1) mod n. |
| Polygon.RotateRightAsWritten | src/pdf_printer/page_items/polygon.rs:221 | Panics (none) exactly on the empty sequence; otherwise agrees with `RotateRight`. |
| Polygon.CurveCalls | src/pdf_printer/page_items/polygon.rs:228-233 | There are n / 3 curves, the i-th through points 3i, 3i+1 and 3i+2. A trailing chunk of one or two points is dropped. |
| Polygon.PathCalls | src/pdf_printer/page_items/polygon.rs:219-233 | No points give no path calls. Otherwise there is one move-to, to the second-to-last point (or the only point), followed by n / 3 curve calls. The first curve goes through the last, first and second points. Curve i ≥ 1 goes through points 3i − 1, 3i and 3i + 1. |
| Polygon.RotationExample | src/pdf_printer/page_items/polygon.rs:219-233 | `[L1, A1, R1, L2, A2, R2]` gives move-to A2, then curves (R2, L1, A1) and (R1, L2, A2). |
| Polygon.Trace | src/pdf_printer/page_items/polygon.rs:188-246 | A trace has 3 fixed calls (save, path end, restore), plus one per resolved weight and per successful colour lookup, one move-to when there are points, and one curve per full chunk of three points. |
| Polygon.RenderAsWritten | src/pdf_printer/page_items/polygon.rs:110-248 | `render` as written completes iff every coordinate vector has x and y and there is at least one point. A short coordinate vector panics before any call is made. |
| Polygon.Render | src/pdf_printer/page_items/polygon.rs:110-248 | The corrected rendering, with the rotation skipped for an empty point list (see "Findings"). It completes iff every coordinate vector has x and y. A failed extraction issues no calls. The trace is the prologue, the path and the terminal call for the extracted points, resolved paint and closed flag. |
| Polygon.ClosingNeedsClosedGeometry | src/pdf_printer/page_items/polygon.rs:177-242 | The rendered path is closed before painting iff the shape has a path geometry that is not open and the stroke colour resolved. |
| Polygon.TraceBracketed | src/pdf_printer/page_items/polygon.rs:188-246 | The first call saves the graphics state and the last restores it. The terminal call, chosen from the closed flag and the two lookups, comes just before the restore. |
| Polygon.TraceLineWidth | src/pdf_printer/page_items/polygon.rs:192-195 | The second call sets the line width iff a weight was resolved, and then sets it to that weight. |
| Polygon.TraceFillColorIsResolved | src/pdf_printer/page_items/polygon.rs:192-206 | When the fill lookup succeeded, the call right after the save and the optional width call sets exactly the looked-up fill colour. |
| Polygon.TraceStrokeColorIsResolved | src/pdf_printer/page_items/polygon.rs:192-217 | When the stroke lookup succeeded, the call right after the save, the optional width call and the optional fill call sets exactly the looked-up stroke colour. |
| Polygon.TraceStateBeforePath | src/pdf_printer/page_items/polygon.rs:188-233 | Every width or colour call lies in the prologue, and every move-to or curve call after it. |
| Polygon.TraceSavesOnce | src/pdf_printer/page_items/polygon.rs:190 | The graphics state is saved exactly once. |
| Polygon.TraceRestoresOnce | src/pdf_printer/page_items/polygon.rs:245 | The graphics state is restored exactly once. |
| Polygon.TraceEndsPathOnce | src/pdf_printer/page_items/polygon.rs:235-242 | Exactly one call ends the path, including for an empty point list. |
| Polygon.TraceLineWidthCount | src/pdf_printer/page_items/polygon.rs:193-195 | The line width is set once if a weight was resolved and not at all otherwise. |
| Polygon.TraceFillColorCount | src/pdf_printer/page_items/polygon.rs:197-206 | The fill colour is set once if its lookup succeeded and not at all otherwise. |
| Polygon.TraceStrokeColorCount | src/pdf_printer/page_items/polygon.rs:208-217 | The stroke colour is set once if its lookup succeeded and not at all otherwise. |
| Polygon.TraceCountsPath | src/pdf_printer/page_items/polygon.rs:223-233 | There is one move-to iff there are points, and n / 3 curve calls. |
| Polygon.RenderAgreesWithPoints | src/pdf_printer/page_items/polygon.rs:219-233 | With at least one point, the rendering as written and the corrected rendering give the same result. |
| Polygon.RenderAsWrittenPanicsWithoutPoints | src/pdf_printer/page_items/polygon.rs:221 | As written, a shape without points panics after the prologue, with no terminal call and no restore. |
| Polygon.RenderAsWrittenPanicsOnShortVector | src/pdf_printer/page_items/polygon.rs:138 | As written, a coordinate vector without x and y panics before any call is made. |
| Polygon.NoPropertiesPanicsAsWritten | src/pdf_printer/page_items/polygon.rs:177-221 | As written, a shape without properties panics. |
| Polygon.RenderWithoutPoints | src/pdf_printer/page_items/polygon.rs:188-247 | Corrected, a shape without points saves the state, sets width and colours, ends the path and restores the state. |

## Left out

- Floating point. `f64` arithmetic and the `as f32` casts of coordinates,
  line width and colour components are modelled as exact `real` arithmetic.
- Transforms.Inverse: the LAPACK inversion behind `inv()` is replaced by the
  closed-form adjugate inverse, which needs a nonzero determinant. The case
  where LAPACK reports a numerically singular matrix whose determinant is
  nonzero is not modelled.
- Transforms.CombineIdentity: the neutral-element law holds only on the
  matrix. `combine` always clears the cached inverse, so
  `combine(identity, t)` and `t` differ whenever `t` has a cached inverse.
- Transforms.CombineSequential: requires the first transform to be affine.
  `transform_point` drops the third homogeneous coordinate, so for a
  non-affine first matrix the two sides differ.
- The PDF library. `HPDF_*` calls are recorded as `DrawCall` values, not
  performed, and the page handle is not modelled.
- The colour manager. `color_from_id` and `object_style_from_id` are the
  two lookup functions of `Resources`. The colour manager is not part of
  this model.
- The XML deserializer. The `Deserializer` plumbing and its own errors are
  left out: the decoders start from the attribute text, and
  `Formats.DecodeIdString` returns an `Option` rather than a `Result` that
  can fail.
- Number parsing. `str::parse::<N>` is a parameter that returns none for a
  token that is not a number. Its panic, whose message names the token,
  becomes `Failure(ParseFailure(token))`.
- Polygon.ExtractPoints: the transform is the same for every point, so it is
  computed once. `render` recomputes it per point, to the same value.
- Font management, spread and graphic parsing, and file reading. These are
  filesystem, XML and FFI work outside the rendering core; their records
  appear only as the datatypes the renderer reads.

## Findings

| source | as written | input that shows it | evidently intended | confidence | as-written member | corrected member |
|---|---|---|---|---|---|---|
| src/pdf_printer/page_items/polygon.rs:221 | `points.rotate_right(1)` runs even when no points were extracted. The standard library asserts that the rotation does not exceed the length, so it panics after the graphics state is saved and the colours are set, and the state is never restored. | Any shape whose `properties` is absent, whose path geometry is absent, or whose path-point arrays are empty. | Skip the rotation for an empty list. The later `if let Some(last)` and the `chunks(3)` loop already handle an empty list as "no path calls". Rendering would then end the path and restore the state. | not executed | Polygon.RenderAsWritten (shown by Polygon.RenderAsWrittenPanicsWithoutPoints and Polygon.NoPropertiesPanicsAsWritten) | Polygon.Render (shown by Polygon.RenderWithoutPoints and Polygon.TraceEndsPathOnce) |
