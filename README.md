# Wallpaper-group symmetry engine, modelled in Dafny

The page `src/pages/index.js` draws a motif tiled under one of the
wallpaper groups. This project models the page's symmetry engine
and proves properties of the model. The engine has three parts:

- **Point operators** (`translate`, `rotate`, `reflect`, `glide`). Each maps
  a point `(x, y)` and a `relative` flag to a new point. Relative points
  ignore the operator's anchor: the offset of a translation, the centre of a
  rotation, and the constant term of a mirror line.
  - Module `Geometry` holds them as one datatype `Op`, interpreted by
    `Apply`.
  - A rotation carries the cosine and sine of its angle instead of the
    angle in degrees. The catalog only uses half-turns, where they are
    exactly -1 and 0.
- **The path transformer** `applyTransform` with its inner `getTransformed`.
  - It cuts an SVG path before every command letter and normalises the
    separators in each command.
  - It parses the operands and transforms 0, 1, 2 or 3 coordinate pairs,
    depending on the letter. An arc's five leading scalars pass through.
  - It prints each command as its letter followed by comma-joined numbers,
    and joins the commands with spaces.
  - Module `PathSyntax` models the string operations: the look-ahead
    `split`, `replaceAll`, `trim`, `split(" ")` and `join`.
  - Module `PathTransform` models the transform itself. `parseFloat` and
    `toString` are the two fields of a `NumberFormat` value. The model does
    not fix their text format. It only assumes that a printed number is a
    non-empty token with no separator and no command letter.
- **The tiling** (module `Motif`) and **the group table** (module `Catalog`).
  - The `Motif` component lists the nine lattice translations of the
    100 x 100 cell, with the identity first.
  - It then pushes, for the motif and for each of its images under the
    group's operators, the nine translated copies onto the tile list `tor`.
    This nested loop is the method `Motif.BuildOrbit`, with the inner loop in
    `Motif.PushRow`.
  - The specification of both methods is the function `Motif.Orbit`.
  - The `groups` table is data: `Catalog.Groups` maps the names p1, p2, pm,
    pg, cm, pmm and pmg to their operator lists, in the page's order.

Module `Geometry` proves what the operators compute:
- relative behaviour;
- the half-turn formula;
- involutions;
- fixed points;
- distances preserved;
- affinity;
- how pairs of operators compose.

Module `PathTransform` proves the structural invariants of `applyTransform`:
- the output, cut again, has the same commands in the same order, each
  well formed again;
- each command's operands are the input's operands, transformed according to
  the letter's arity and case, then printed and parsed once;
- at the level of one command's operand list (`PathTransform.ComposeArgs`),
  transforming twice is transforming once by the composition. This is not
  proved for `applyTransform` on whole strings, because its second pass
  reads the numbers back as `parse(show(v))`, and that need not be `v`.

Module `Motif` proves that tile `9 * i + j` is copy `i` under translation `j`.
It also proves that there are `9 * (|transforms| + 1)` tiles, all with the
motif's command letters.

Module `Catalog` proves facts about the table: its shape, that every entry
is an isometry, and that its half-turns and mirrors are involutions. It also
proves that some combinations of its operators are lattice translations:
- two half-turns of p2, one after the other;
- two parallel mirrors of pm or pmm;
- each glide of pg and cm, and the translation of cm, applied twice.
Other pairs, such as a half-turn followed by a mirror, are not
translations, and the model claims nothing about them.

## Model

| member | source | states |
|---|---|---|
| Geometry.TranslatePoint | src/pages/index.js:28-31 | `translate`: a relative point comes back as it is, an absolute one is moved by (dx, dy); its properties are stated by Geometry.TranslateMeaning |
| Geometry.RotatePoint | src/pages/index.js:41-49 | `rotate` with the cosine and sine given in place of the angle: a relative point takes (h, k) as (0, 0), then the point is turned and moved by (r, s) as in lines 44-47; its properties are stated by the Rotate and HalfTurn lemmas below |
| Geometry.ReflectPoint | src/pages/index.js:52-63 | `reflect`: c is taken as 0 for a relative point, and the point is moved back along the normal (a, b) by ratio = 2(ax + by + c)/(a^2 + b^2) times (a, b); defined only when a^2 + b^2 > 0; its properties are stated by the Reflect lemmas below |
| Geometry.Apply | src/pages/index.js:28-63 | The closures of the page as one evaluator over the datatype Op; a glide applies its mirror and then its shift with the same flag, as `glide` does; its properties are stated by Geometry.AffineSplit, Geometry.Isometry and Geometry.SelfInverse |
| Geometry.TranslateMeaning | src/pages/index.js:28-31 | A relative point is returned unchanged whatever (dx, dy) is; an absolute point is moved by (dx, dy); so the zero translation is the identity |
| Geometry.RotateRelativeAboutOrigin | src/pages/index.js:41-42 | A relative point is rotated about the origin, whatever centre (h, k) is given |
| Geometry.RotateFixesCentre | src/pages/index.js:41-49 | A rotation about (h, k) leaves (h, k) where it is |
| Geometry.HalfTurnFormula | src/pages/index.js:41-49 | The 180-degree rotation about (h, k) maps (x, y) to (2h - x, 2k - y), and a relative point to (-x, -y) |
| Geometry.HalfTurnInvolution | src/pages/index.js:41-49 | A half-turn applied twice gives back the point, absolute or relative |
| Geometry.QuarterTurnOrder | src/pages/index.js:41-49 | A 90-degree rotation applied four times gives back the point |
| Geometry.HalfTurnsCompose | src/pages/index.js:41-49 | A half-turn about (h1, k1) and then one about (h2, k2) moves every absolute point by 2(h2 - h1, k2 - k1); a relative point comes back to itself |
| Geometry.ReflectRelativeThroughOrigin | src/pages/index.js:52-58 | A relative point is mirrored as if c were 0 |
| Geometry.ReflectFixesMirror | src/pages/index.js:52-63 | A point on the line ax + by + c = 0 is its own image |
| Geometry.ReflectNegatesOffset | src/pages/index.js:52-63 | The image lies as far from the mirror as the point, on the other side: its offset ax + by + c is negated |
| Geometry.ReflectInvolution | src/pages/index.js:52-63 | When a^2 + b^2 > 0, a reflection applied twice gives back the point, absolute or relative |
| Geometry.ParallelMirrors | src/pages/index.js:52-63 | Reflections in two parallel mirrors, one after the other, move every absolute point along their common normal by the ratio of the change in c; a relative point comes back to itself |
| Geometry.GlideMeaning | src/pages/index.js:35-38 | A glide first reflects and then translates, passing the same relative flag to both; so a relative point is only reflected |
| Geometry.GlideTwice | src/pages/index.js:35-38 | A glide whose offset runs along its mirror, applied twice, translates by twice the offset |
| Geometry.GlideSquare | src/pages/index.js:35-38 | A glide applied twice translates by its offset plus the mirror image of its offset |
| Geometry.AffineSplit | src/pages/index.js:28-63 | Every operator is affine: the image of p + q is the image of p plus the relative image of q, so relative segments move consistently with absolute points |
| Geometry.Isometry | src/pages/index.js:28-63 | Every operator whose rotations have cos^2 + sin^2 = 1 keeps the squared distance between any two points of the same kind |
| Geometry.SelfInverse | src/pages/index.js:41-63 | Every reflection and every half-turn undoes itself |
| PathSyntax.NextCut | src/pages/index.js:66 | The next cut is the first index at or after i that holds a command letter, or the end of the string |
| PathSyntax.SplitCommands | src/pages/index.js:66 | The look-ahead split gives one empty piece for the empty path; otherwise non-empty pieces that concatenate to the path, each beginning with a command letter except perhaps the first, with no command letter after the first character |
| PathSyntax.SplitCommandsOfConcat | src/pages/index.js:66 | The cut is unique: cutting the concatenation of any such command split gives that split back |
| PathSyntax.SplitJoined | src/pages/index.js:66-101 | Cutting a space-joined list of commands gives the commands back, each but the last with its joining space |
| PathSyntax.Join | src/pages/index.js:98-101 | `xs.join(sep)`: the parts with sep between each two; with PathSyntax.ConcatPadded and PathSyntax.SplitJoined it is what the cut undoes |
| PathSyntax.ReplaceCommas | src/pages/index.js:95 | `replaceAll(",", " ")` keeps the length and turns exactly the commas into spaces |
| PathSyntax.DropSpaces | src/pages/index.js:95 | Trimming the start removes exactly the leading white space and keeps the rest in order |
| PathSyntax.CollapseSpaces | src/pages/index.js:95 | `replaceAll(/\s+/g, ' ')`: every maximal run of white space becomes one space; PathSyntax.CollapseJoin states that it leaves space-joined tokens alone |
| PathSyntax.TrimEnd | src/pages/index.js:95 | The end half of `trim`: trailing white space is removed; PathSyntax.TrimEndKeeps and PathSyntax.TrimEndDrops state when it changes the string |
| PathSyntax.Trim | src/pages/index.js:95 | `trim`: leading and trailing white space removed; PathSyntax.TrimJoin states it on joined tokens |
| PathSyntax.SplitOnSpace | src/pages/index.js:95 | `split(" ")`: the pieces between single spaces, empty ones included, at least one; PathSyntax.SplitOnSpaceJoin states that it undoes a space join |
| PathSyntax.Tokens | src/pages/index.js:94-95 | The operand texts of a command: commas to spaces, runs of white space collapsed, trimmed, split at spaces; PathSyntax.TokensOfJoin states its round trip with the printer |
| PathSyntax.TokensAreTokens | src/pages/index.js:95 | For any operand text, either the tokenizer gives the one empty token or every token it gives is non-empty and holds no comma or white space |
| PathSyntax.TokensOfJoin | src/pages/index.js:95-98 | Tokenizing comma-joined printed numbers, with or without one trailing space, gives the numbers' texts back; with no numbers, one empty token |
| PathTransform.ToLower | src/pages/index.js:68 | `toLowerCase` on one character, for the ASCII capitals A-Z; other characters are left alone (see Left out) |
| PathTransform.IsRelative | src/pages/index.js:68 | `op.toLowerCase() === op`; PathTransform.RelativeIffLowercase states it on the command letters |
| PathTransform.RelativeIffLowercase | src/pages/index.js:68 | A command is relative exactly when its letter is lower case |
| PathTransform.TransformArgs | src/pages/index.js:67-91 | The result has the letter's arity (0 for z, 6 for c, 4 for q, 7 for a, 2 otherwise). An arc's first five operands pass through and its end point is transformed. Every other coordinate pair is transformed on its own, with relative set exactly when the letter is lower case |
| PathTransform.ZeroTranslationKeepsArgs | src/pages/index.js:67-91 | Under the zero translation the operands come back unchanged, cut to the letter's arity |
| PathTransform.ComposeArgs | src/pages/index.js:67-91 | Transforming a command's operands by f and then by g is transforming them by the composition of the two |
| PathTransform.GlideArgs | src/pages/index.js:35-91 | Transforming operands by a mirror and then by a shift is transforming them by their glide |
| PathTransform.Operands | src/pages/index.js:93-95 | The operands of a command: its text after the letter, tokenized and parsed with `parseFloat` |
| PathTransform.Serialize | src/pages/index.js:98 | `transformed.map(p => p.toString()).join(",")`; PathSyntax.TokensOfJoin and PathTransform.ReadBackText state how it reads back |
| PathTransform.TransformCommand | src/pages/index.js:93-100 | One command: its letter followed by its transformed operands, printed |
| PathTransform.ApplyTransform | src/pages/index.js:66-101 | `applyTransform`: cut the path, transform every command, join with spaces; its properties are stated by PathTransform.ApplyTransformCommands |
| PathTransform.TransformPiecesSplit | src/pages/index.js:93-100 | The printed commands form a command split with the input's command letters |
| PathTransform.ApplyTransformCommands | src/pages/index.js:66-101 | Cut again, the output of applyTransform has as many commands as the input, in the same order and with the same letters. Every command is well formed. Each command's operands are the input command's operands under getTransformed, printed and parsed once |
| Motif.Translations | src/pages/index.js:108-127 | There are nine translations, each a valid operator |
| Motif.TranslationsAreNeighbourhood | src/pages/index.js:108-127 | The first translation is the identity on every point. Each offset is (i T1, j T2) with i, j in {-1, 0, 1}, and every such offset is in the list |
| Motif.TranslationsDistinct | src/pages/index.js:108-127 | No translation occurs twice |
| Motif.Bases | src/pages/index.js:130 | The copies are the motif and one image per operator: |transforms| + 1 paths, all well formed, all with the motif's command letters |
| Motif.Row | src/pages/index.js:131 | The nine translated copies of one path, in the order of the translations; Motif.PushRow is the loop that builds it |
| Motif.Orbit | src/pages/index.js:129-131 | The tile list of n copies has 9 n entries |
| Motif.OrbitAt | src/pages/index.js:129-131 | Tile 9 i + j is copy i under translation j: copies in the outer loop, translations in the inner loop |
| Motif.BuildOrbit | src/pages/index.js:129-131 | The nested push loop builds exactly the tile list Orbit of the copies, with 9 (|transforms| + 1) entries |
| Motif.PushRow | src/pages/index.js:131 | The inner loop appends the nine translated copies of one path, in the translations' order, and keeps what was there |
| Motif.TilesKeepLetters | src/pages/index.js:129-131 | Every tile is well formed and has the motif's command letters in the motif's order |
| Motif.FirstTileIsMotif | src/pages/index.js:108-131 | Tile 0 is the motif under the identity: the same commands, each with its operands cut to the letter's arity, printed and parsed once |
| Catalog.HalfTurns | src/pages/index.js:165-175 | The nine half-turns of p2, about (-T1/2 or 0 or T1/2, -T2/2 or 0 or T2/2), in the page's order; Catalog.HalfTurnCentre states their form |
| Catalog.HorizontalMirrors | src/pages/index.js:176-180 | The three mirrors of pm, 0x + 1y + c = 0 with c = -T2/2, 0, T2/2; Catalog.MirrorAt states their form |
| Catalog.VerticalMirrors | src/pages/index.js:219-221 | The three vertical mirrors of pmm, 1x + 0y + c = 0 with c = -T1/2, 0, T1/2 |
| Catalog.GlideShift | src/pages/index.js:187 | The offset (MaxX - T1, MaxY - T2) = (-50, -50) every glide of the table uses |
| Catalog.Glides | src/pages/index.js:185-195 | The three glides of pg: the mirrors of pm, each followed by the glide offset |
| Catalog.CentredOps | src/pages/index.js:196-205 | The four operators of cm: a glide in y = -T2/4, the mirror y = 0, the translation (-50, 0), a glide in y = T2/4 |
| Catalog.Groups | src/pages/index.js:163-236 | The table from names to operator lists, p1 empty, pmm the half-turns and the two mirror triples, pmg the half-turns and the mirror with c = T2/4; Catalog.GroupsShape states its shape |
| Catalog.GroupsShape | src/pages/index.js:163-236 | The table holds exactly p1, p2, pm, pg, cm, pmm and pmg, with 0, 9, 3, 3, 4, 15 and 10 operators. The shown group is in it. pmm and pmg begin with the half-turns of p2, and pmm goes on with the mirrors of pm |
| Catalog.AllOpsValid | src/pages/index.js:163-236 | Every operator of the table has a mirror with a non-zero normal and only true rotations |
| Catalog.CatalogIsometries | src/pages/index.js:163-236 | Every operator of the table is a valid operator and keeps the distance between two points of the same kind, absolute or relative |
| Catalog.HalfTurnCentre | src/pages/index.js:165-175 | Every operator of p2 is a half-turn about a corner, an edge midpoint or the centre of the cell |
| Catalog.HalfTurnsComposeToLattice | src/pages/index.js:165-175 | Any two half-turns of p2, one after the other, make a translation by a whole number of cells, at most two each way |
| Catalog.MirrorAt | src/pages/index.js:176-221 | Every mirror of pm and pmm is a horizontal or vertical line through a point of the half-cell grid |
| Catalog.HorizontalMirrorsCompose | src/pages/index.js:176-180 | Any two mirrors of pm, one after the other, make a vertical translation by a whole number of cells, at most two |
| Catalog.VerticalMirrorsCompose | src/pages/index.js:219-221 | Any two vertical mirrors of pmm make a horizontal translation by a whole number of cells, at most two |
| Catalog.GlidesSquareToLattice | src/pages/index.js:185-204 | Each glide of pg and cm, applied twice, is the translation onto the left neighbouring cell, the last of the nine translations |
| Catalog.CentringShift | src/pages/index.js:201 | The translation of cm, applied twice, is that same lattice translation |
| Catalog.InvolutionsOfCatalog | src/pages/index.js:165-235 | Every operator of p2, pm, pmm and pmg, applied twice, gives back the point |
| Catalog.GroupTransforms | src/pages/index.js:163-236 | A group hands the motif one closure per operator of the table |
| Catalog.Page | src/pages/index.js:238-267 | The shown group, the constant `Shown`, is pmg (line 238). The page's motif for it is the tile list of the motif and its ten images, 99 tiles |

## Left out

- The React and Gatsby rendering is not modelled. This covers `Layout`,
  `Seo`, the SVG markup, the stroke colour `FILLS[i % FILLS.length]`, the
  viewBox `scale` and the commented-out animation. It is presentation only.
- `console.log` output is not modelled; it has no effect on the result.
- `console.assert` on the operand count never stops the page. It is modelled
  as the precondition `WellFormed`: every command has at least as many
  operand tokens as its letter needs. The message texts are not modelled.
  Extra operands are dropped, as `getTransformed` drops them.
- A command with too few operands is not modelled. In JavaScript it reads
  `undefined`, and then either throws or prints `NaN`. A relative point
  command such as `l5` meets a translation on every tile, which returns
  the `undefined` unchanged, so `toString` throws. An arc with fewer than
  five operands passes `undefined` through as well, and throws whatever its
  case.
- The empty path is not modelled. `d[0]` is undefined there and
  `toLowerCase` throws, so `WellFormed` excludes it.
- `Math.cos`, `Math.sin`, `Math.PI`, `rad` and IEEE-754 rounding are not
  modelled. Coordinates are reals and a rotation carries its cosine and
  sine. `Math.sin(Math.PI)` is not exactly 0 in floating point, but the
  model's half-turn uses exactly -1 and 0.
- The text formats of `parseFloat` and `Number.prototype.toString` are
  abstract. In particular `parse(show(v)) == v` is not assumed. Results
  that read operands back state them as `parse(show(v))`.
- Non-finite numbers are not modelled. Operands are reals, and a printed
  number is assumed to hold no command letter. In JavaScript a non-numeric
  operand parses to `NaN`, and an oversized one such as `1e400` parses to
  `Infinity`. These print as "NaN" and "Infinity", which hold the command
  letters `a` and `t`. The next `applyTransform` (line 131) then cuts the
  image path inside the number, so the commands read back differ from the
  motif's. An `a` command cut out of "NaN" that is short of its seven
  operands passes `undefined` on to `toString` and throws. So PathTransform.ApplyTransformCommands, Motif.TilesKeepLetters
  and the results built on them hold only for paths whose operands are
  finite numbers.
- A mirror with a = b = 0 is not modelled. `ValidOp` excludes it; in
  JavaScript the reflection divides 0 by 0 and gives `NaN`.
- PathTransform.ToLower, PathTransform.IsRelative, PathTransform.TransformArgs:
  the relative flag lower-cases only the ASCII
  capitals A-Z. For every command letter this agrees with line 68,
  as PathTransform.RelativeIffLowercase states. The first piece of a path
  that does not begin with a command letter begins with some other
  character. If that character is a non-ASCII capital such as `Ä`,
  JavaScript's `toLowerCase` changes it and treats the command as absolute,
  while the model treats it as relative. Also, `d[0]` is a UTF-16 code unit
  in JavaScript but a whole character here.
- Catalog.Page: it is stated for any well-formed motif. Proving the literal
  `defaultPath` (line 103) well formed is not part of the model.
- `getLine` (line 161) is not modelled. Its strings are the guide lines
  at lines 269-283. The page tiles each one as a motif with no operators,
  so it gets only the nine translations. These guide-line motifs sit inside
  the JSX markup, which is left out as well. The helper operators at lines
  145-159 are not modelled either; no group of the table uses them.
- Arcs under mirrors and glides: the model keeps the code's behaviour. An
  arc's x-axis rotation and sweep flag pass through unchanged (lines
  84-86), so under a mirror or a glide the copy of an arc is not its mirror
  image. Among the groups that reflect, pmg is the one the page shows
  (line 234), and `defaultPath` has arcs. Catalog.CatalogIsometries is
  about points only; it says nothing about arcs.
- The commented-out group variants (lines 181-184 and 233) are not modelled.
- Group closure of the catalog is not modelled. The code never checks it.
  The model proves the involution and composition facts listed above, not
  that each list forms a group.
- There is no step that wraps copies back into the cell, no hexagonal
  cell, and no removal of duplicate tiles. The code has none of them, so
  the model follows the code and adds none.
