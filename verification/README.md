# Smartstore box-organizer rack, modelled in Dafny

This project models the generator of flat-sheet, finger-jointed racks for
storage containers. Given a container's dimensions, a grid of rows and
columns, and the material thickness `t`, the generator lays out three kinds of
parts side by side on one canvas:

- **the wing stack**: one pair of comb-shaped wings per container, the second
  wing inverted;
- **the covers**: a top cover and a bottom cover, each with two tap holes at
  every inner column divider;
- **the side panels**: `columns + 1` panels, each with four wing holes per row.

The teeth, notches, tabs and holes of these separately cut parts must meet at
exactly the same positions along the depth axis. Most of the proofs are about
that.

The modules follow the source files:

| module | models |
|---|---|
| `Paths` | SVG path data (`M`, `H`, `V`, `Z`) as an immutable command list. It computes the pen trail a path draws, its bounding box (`Area`), and the horizontal and vertical runs it draws along a line. |
| `Blocks` | Blocks of parts laid end to end (`Flatten`), and where element `q` of block `j` lands. Used for the side-panel loop and for the chunks of `truncate_words`. |
| `Rack` | `src/rack/mod.rs`: constants, `Dimensions`, `Container::key`, the canvas size, the region origins, every path generator, and the parts `generate_svg` emits in order. |
| `RackJoints` | The joint contract of `src/rack/mod.rs`: wing teeth against side-panel wing holes, and cover notches against side-panel tabs and cover tap holes. |
| `RackLayout` | Layout facts about `src/rack/mod.rs`: the bounding box of every part, wing-pair stacking, emission order, the canvas bounds of the generated document, and the cover/side-panel gap. |
| `LegacyGenerator` | `src/generator/mod.rs`: the fixed-constant wing generator in checked `u8` arithmetic. It is proved equal to the rack's wing stack at depth 210 and wing width 8. |
| `WordChunks` | `truncate_words` and `TruncatedCell::truncate` of `src/cli/containers.rs`. |

The model stands in for the source's types as follows:

- `usize` quantities are `nat`. A `usize` subtraction that could underflow (and so panic) becomes a precondition:
  - `Rack.Supported` needs at least one column and room in `depth` for the tap notches.
  - Room for the wing teeth (`depth ≥ 75`) is needed once there is a row.
  - Room for the back tap hole (`depth ≥ 90`) is needed once there are two columns.
- `f32` lengths are exact `real`s.
- `u8` is a newtype, so every intermediate result of the legacy generator is checked to stay below 256. This models the panic of a debug build.
- Rust's `str::len` is the UTF-8 byte length `WordChunks.Len`.
- `split_whitespace` is `WordChunks.Words`, which splits at the Unicode `White_Space` characters.

The model follows the code as written, including these points:

- The covers are built `column_width + t` per column (`src/rack/mod.rs:93`).
- The canvas width and the side-panel origin are allotted from `top_width(column_width, …)` (`src/rack/mod.rs:58`, `102-103`).
- So a cover touches the side panels when `t · columns = 3` and overlaps them when it is larger. `RackLayout.CoverPanelGap` states this. Covers are therefore not claimed to be disjoint from the panels, nor to lie inside the canvas width.
- Inner tap holes sit at `start + (k+1)·(column_width + t)`, not at `column_width·(k+1)`.
- `rows = 0` is accepted; it draws no wings and no wing holes. Only `columns = 0` underflows.
- The plain wing's horizontal targets are absolute. They ignore the wing's `x` origin, which is correct only because the wing stack is drawn at `x = 0`.

## Model

| member | source | states |
|---|---|---|
| Rack.Key | src/rack/mod.rs:24-28 | The key is the vendor, a `-`, then the model, each character lower-cased (ASCII), with spaces turned into `_`. It has length `|vendor| + 1 + |model|` and contains neither spaces nor ASCII capitals. |
| Rack.TotalHeight | src/rack/mod.rs:61-68 | The canvas height is at least the wing-stack, cover-pair and side-panel extents, and it equals one of them: it is their maximum. |
| Rack.SideWings | src/rack/mod.rs:75-85 | The wing loop emits `2·boxes` paths. Path `k` is wing-stack part `k`: box `k/2`'s pair, inverted when `k` is odd. |
| Rack.SideTapHoles | src/rack/mod.rs:292-305 | The tap-hole loop over `n` inner dividers emits `2n` holes. Hole `k` belongs to divider `k/2`, front when `k` is even, back when odd. |
| Rack.CoverPath | src/rack/mod.rs:277-305 | A cover is one outline followed by `2·(columns−1)` tap holes. |
| Rack.TopAndBottomPieces | src/rack/mod.rs:241-263 | The two covers together are `2·(2·columns−1)` parts. |
| Rack.WingHoleRows | src/rack/mod.rs:137-171 | `rows` rows of wing holes are `4·rows` holes. Hole `q` is slot `q mod 4` of row `q/4`. |
| Rack.SidePanels | src/rack/mod.rs:125-171 | `n` side panels are `n·(1 + 4·rows)` parts. |
| Rack.EmittedParts | src/rack/mod.rs:75-110 | `generate_svg` emits `2·rows·columns + 2·(2·columns−1) + (columns+1)·(1+4·rows)` paths. |
| Rack.EmittedPartsDrawable | src/rack/mod.rs:40-113 | Under the no-underflow precondition, every emitted part has path data. No `usize` subtraction of the generator fails. |
| Rack.GenerateSvg | src/rack/mod.rs:40-113 | The document is `total_width` wide and `total_height` tall. Under the no-underflow precondition every emitted part has path data, and the document holds one path per emitted part, in emission order. |
| RackJoints.SlotsOrdered | src/rack/mod.rs:143-167 | The four wing-hole intervals `[20,40]`, `[55,75]`, `[depth−75,depth−55]`, `[depth−40,depth−20]` are in increasing, non-overlapping order exactly when `depth ≥ 150`. |
| RackJoints.SlotsWithinDepth | src/rack/mod.rs:143-167 | Each wing-hole interval is 20 long and lies within `[0, depth]`. |
| RackJoints.WingTeeth | src/rack/mod.rs:439-454 | Along the tooth tips, `t` below the plain wing's body, the wing draws exactly hole intervals 0 and 2. |
| RackJoints.InvertedWingTeeth | src/rack/mod.rs:464-477 | Along its top edge the inverted wing draws exactly hole intervals 1 and 3. |
| RackJoints.WingToothDepth | src/rack/mod.rs:441-451 | At both ends of each plain-wing tooth, the only vertical stroke runs from the body to the tip. It is exactly `t` long. |
| RackJoints.InvertedWingToothDepth | src/rack/mod.rs:465-473 | At both ends of each inverted-wing tooth, the only vertical stroke is exactly `t` long. |
| RackJoints.WingHoleShape | src/rack/mod.rs:175-181 | A wing hole is a `t` × 20 rectangle. Its sides and ends are exactly those runs. |
| RackJoints.WingHoleInSlot | src/rack/mod.rs:137-171 | Wing hole `q` of a panel sits at its row's `x`. Its side spans hole interval `q mod 4`, shifted to the panel's `y`. |
| RackJoints.SlotsMatchTeeth | src/rack/mod.rs:143-167 | The teeth of a wing pair are exactly the four side-panel hole intervals: the plain wing gives slots 0 and 2, the inverted wing slots 1 and 3. So every slot has a tooth and every tooth has a slot. This is the wing joint. |
| RackJoints.CoverFrontNotches | src/rack/mod.rs:335-346 | The cover's front notches are the vertical runs at `x + t`: exactly `[30,60]` and `[depth−60,depth−30]`. |
| RackJoints.CoverBackNotches | src/rack/mod.rs:347-358 | The back notches, at `x + top_width − t`, occupy the same two intervals. |
| RackJoints.PanelFrontTabs | src/rack/mod.rs:199-210 | The side panel's front tabs, at its left edge, occupy exactly `[30,60]` and `[depth−60,depth−30]`. |
| RackJoints.PanelBackTabs | src/rack/mod.rs:211-222 | The back tabs, at `x + rows·height + 2t`, occupy the same two intervals. |
| RackJoints.TapHoleShape | src/rack/mod.rs:310-316 | A tap hole is a `t` × 30 rectangle. |
| RackJoints.TapHolesMatchTabs | src/rack/mod.rs:292-304 | Tap hole `k` of a cover spans tap interval `k mod 2` (`[30,60]` or `[depth−60,depth−30]`) at its divider's `x`. |
| RackLayout.WingArea | src/rack/mod.rs:439-454 | A plain wing drawn at `x = 0` covers `[0, depth] × [y, y + w + t]`. |
| RackLayout.InvertedWingArea | src/rack/mod.rs:464-477 | An inverted wing covers `[0, depth] × [y, y + t + w]`. |
| RackLayout.CoverArea | src/rack/mod.rs:324-360 | A cover outline covers `[x, x + top_width] × [y, y + depth]`. |
| RackLayout.PanelArea | src/rack/mod.rs:197-223 | A side-panel outline covers `[x, x + rows·height + 2t] × [y, y + depth]`. |
| RackLayout.TapHoleArea | src/rack/mod.rs:310-316 | A tap hole covers `[x, x + t] × [y, y + 30]`. |
| RackLayout.WingHoleArea | src/rack/mod.rs:175-181 | A wing hole covers `[x, x + t] × [y, y + 20]`. |
| RackLayout.WingStackAlternates | src/rack/mod.rs:373-392 | Stack parts alternate, even ones plain and odd ones inverted, all at `x = 0`. The inverted wing starts `w + 3` below its pair's top. |
| RackLayout.WingPairSpan | src/rack/mod.rs:385-396 | Pair `i` spans exactly `height_of_two_side_wings = 2w + 3 + t`, from its plain wing's top to its inverted wing's bottom. |
| RackLayout.WingPairsClear | src/rack/mod.rs:52-55 | The next pair starts exactly 3 below the bottom of this one. |
| RackLayout.WingPairsApart | src/rack/mod.rs:76-85 | Every later pair starts strictly below pair `i`'s bottom, so pairs never overlap. |
| RackLayout.WingsComeFirst | src/rack/mod.rs:75-85 | The first `2·rows·columns` emitted paths are the wing stack, in order. |
| RackLayout.CoverPathAt | src/rack/mod.rs:277-305 | Part 0 of a cover is its outline. Part `k ≥ 1` is tap hole `k − 1`. |
| RackLayout.TopAndBottomAt | src/rack/mod.rs:241-263 | The top cover's parts come first at `y = 0`, then the bottom cover's at `y = depth + 3`. |
| RackLayout.CoversComeNext | src/rack/mod.rs:87-97 | The emitted paths after the wings are the two covers' parts, in order. |
| RackLayout.SidePanelsAt | src/rack/mod.rs:125-172 | Element `j·(1+4·rows)+q` of the panel row is part `q` of panel `j`: panels are emitted whole, in order. |
| RackLayout.SidePanelAt | src/rack/mod.rs:126-171 | Part 0 of panel `j` is its outline at `y = j·(depth+3)`. Part `q ≥ 1` is wing hole `q−1` of the same panel. |
| RackLayout.PanelsComeLast | src/rack/mod.rs:99-110 | The emitted paths after the covers are the side panels' parts, in order. |
| RackLayout.TotalWidthMonotone | src/rack/mod.rs:57-60 | The canvas width is positive and does not decrease as rows, columns or `t` grow. |
| RackLayout.PanelsEndInsideCanvas | src/rack/mod.rs:57-60 | Every side panel's right edge lies exactly 3 inside the canvas width. |
| RackLayout.WingsEndInsideCanvas | src/rack/mod.rs:61-68 | Every wing ends at least 3 above the wing-stack extent, and so inside the canvas height. |
| RackLayout.CoversEndInsideCanvas | src/rack/mod.rs:253-263 | The bottom cover ends exactly at the cover-pair extent `2·depth + 3`, inside the canvas height. |
| RackLayout.PanelsEndAboveCanvasBottom | src/rack/mod.rs:125-126 | Every side panel ends inside the canvas height. The last ends exactly 3 above the panel-row extent. |
| RackLayout.CoverOutlineEmitted | src/rack/mod.rs:87-97 | The top cover's outline is emitted right after the `2·rows·columns` wing paths. The bottom cover's outline follows the top cover's `2·columns − 1` parts. |
| RackLayout.PanelOutlineEmitted | src/rack/mod.rs:99-110 | Panel `j`'s outline is emitted after the wings and covers, at the start of its block of `1 + 4·rows` parts, at `y = j·(depth+3)`. |
| RackLayout.DocumentWingsInside | src/rack/mod.rs:61-85 | Every wing path of the generated document ends inside the document's own height. |
| RackLayout.DocumentCoversInside | src/rack/mod.rs:61-97 | Both cover outlines of the generated document end inside the document's own height. |
| RackLayout.DocumentPanelsInside | src/rack/mod.rs:57-110 | Every side-panel outline of the generated document ends inside the document's height, and its right edge is exactly 3 short of the document's width. |
| RackLayout.CoverPanelGap | src/rack/mod.rs:88-103 | The gap from a cover's right edge to the side panels' left edge is `3 − t·columns`. They touch or overlap exactly when `t·columns ≥ 3`. |
| RackLayout.TapHolesInsideCover | src/rack/mod.rs:292-295 | Every inner tap hole lies strictly inside its cover's outline, horizontally and vertically. |
| LegacyGenerator.PositionHelpersMatchRack | src/generator/mod.rs:127-140 | The three legacy tap positions (135, 55, 170) equal the rack's helpers at depth 210. |
| LegacyGenerator.TopWidthOverflows | src/generator/mod.rs:38-40 | `top_width` stays within `u8` exactly when `columns = 0` and `t ≤ 81`, or `columns = 1` and `t ≤ 40`. It overflows for every `columns ≥ 2`. |
| LegacyGenerator.WingMatchesRack | src/generator/mod.rs:85-104 | The legacy plain wing is the rack's plain wing for depth 210 and wing width 8. |
| LegacyGenerator.InvertedWingMatchesRack | src/generator/mod.rs:106-125 | The legacy inverted wing is the rack's inverted wing for depth 210 and wing width 8. |
| LegacyGenerator.FitsExactly | src/generator/mod.rs:23-33 | The legacy no-overflow precondition holds exactly when every wing pair drawn stays below 256, not just the last. |
| LegacyGenerator.PairMatchesStack | src/generator/mod.rs:41-61 | The pair drawn at `y = (22 + t)·i` is paths `2i` and `2i + 1` of the rack's wing stack for the legacy box. |
| LegacyGenerator.GenerateSvg | src/generator/mod.rs:18-36 | The legacy sheet is declared 100 mm square and holds `2·rows·columns` paths. Path `k` is the rack's wing-stack path `k`: alternating plain and inverted, box `k/2` at `(19 + t + 3)·(k/2)`. |
| LegacyGenerator.LegacyWingTeeth | src/generator/mod.rs:90-104 | The legacy plain wing's teeth are exactly `[20,40]` and `[135,155]`. Every tooth edge is `t` deep. |
| LegacyGenerator.LegacyInvertedWingTeeth | src/generator/mod.rs:111-125 | The legacy inverted wing's teeth are exactly `[55,75]` and `[170,190]`. Every tooth edge is `t` deep. |
| LegacyGenerator.LegacyPairSpan | src/generator/mod.rs:41-65 | Pair `i` at `y = (22+t)·i` occupies `[y, y+19+t]`. The plain wing covers `[y, y+8+t]` and the inverted wing `[y+11, y+19+t]`. The next pair starts 3 below. |
| WordChunks.Words | src/cli/containers.rs:66 | Every word `split_whitespace` yields is non-empty and has no whitespace. A leading non-whitespace character begins the first word. |
| WordChunks.WordsAroundSpace | src/cli/containers.rs:66 | A whitespace character separates the words before it from the words after it. |
| WordChunks.SplitJoinedWords | src/cli/containers.rs:66-74 | Words joined by single spaces split back into the same words. |
| WordChunks.WordsOfJoin | src/cli/containers.rs:50-51 | Splitting strings joined by a whitespace separator gives the concatenation of each string's words. |
| WordChunks.PackMatchesGroups | src/cli/containers.rs:62-83 | The string loop of `truncate_words` equals the same greedy loop run on word lists, with each list joined by spaces. |
| WordChunks.GroupsSpec | src/cli/containers.rs:62-83 | The greedy word groups flatten back to the input words and are greedy (break only when full, fill while there is room). There are none exactly when there are no words. The last group is non-empty. The first is empty exactly when the first word is longer than the chunk size. |
| WordChunks.ChunksAreGroups | src/cli/containers.rs:62-83 | The chunks are the greedy groups joined by spaces, and splitting each chunk gives its group back. |
| WordChunks.ChunksKeepWords | src/cli/containers.rs:66-76 | Concatenating the words of all chunks reproduces the input's words, in order. |
| WordChunks.ChunksSingleSpaced | src/cli/containers.rs:71-74 | Inside every chunk the words are joined by exactly one space. |
| WordChunks.ChunksBreakOnlyWhenFull | src/cli/containers.rs:67-75 | Every chunk after the first is non-empty. It starts only because its first word would have taken the previous chunk past `chunk_size`. Inside a chunk, each word after the first fitted. |
| WordChunks.ChunkLengthBound | src/cli/containers.rs:67-74 | A chunk of two or more words is at most `chunk_size + 1` bytes, since the separating space is not counted. |
| WordChunks.OnlyFirstChunkEmpty | src/cli/containers.rs:63-69 | Only the first chunk can be empty. It is empty exactly when the first word is longer than `chunk_size`. |
| WordChunks.NoWordsNoChunks | src/cli/containers.rs:78-82 | There are no chunks exactly when the input has no words. Otherwise the last chunk is non-empty. |
| WordChunks.Truncate | src/cli/containers.rs:47-55 | A cell whose content is at most `max_length` bytes is returned unchanged. |
| WordChunks.TruncateKeepsWords | src/cli/containers.rs:50-51 | Truncating a cell keeps its words in order; only the whitespace between them changes. |

## Left out

- The `svg` crate (`Document`, `Path`, `Data`, `set`, `append`) is replaced by the `Paths` module's command lists. Fill and stroke attributes and the primary/secondary colours are not modelled: they carry no behaviour.
- `f32` rounding is idealised: lengths are exact reals. The `"{}mm"` formatting and the `viewBox` attribute are not modelled. `Rack.GenerateSvg` returns the canvas width and height as numbers.
- `usize` overflow of the multiplications and additions in `src/rack/mod.rs` is not modelled: `nat` is unbounded. Only the underflowing subtractions are preconditions.
- The `f32::NEG_INFINITY` fold in `generate_svg` is a plain maximum of three finite values.
- `print_containers`, `table_header`, `to_table_row` and the `comfy_table` cell (`src/cli/containers.rs:6-40`) are console output. `truncate` is modelled on the cell's content string.
- `src/main.rs` and `src/cli/mod.rs` (argument parsing, saving the file) and the container catalogue of `src/lib.rs` are not part of this model.
- The legacy constants `BOX_WIDTH_UNDER_LID`, `BOX_BLOCK_HEIGHT`, `SIDE_WING_FROM_BOX_TOP` and `EXTRA_SPACE_ON_TOP_OF_TOP_SLOT` are declared but never used by the legacy wing paths. Legacy `top_width` is never called; it is modelled together with its overflow condition.
- RackLayout.WingArea: stated for a wing drawn at `x = 0` only, the one origin the generator uses. The plain wing's horizontal targets ignore `x`, so at another origin its box would not start at `x`.
- RackJoints.WingToothDepth: stated at `x = 0` and for `depth ≥ 150`, where the tooth edges are distinct.
- RackJoints.InvertedWingToothDepth: stated at `x = 0` and for `depth ≥ 150`, where the tooth edges are distinct.
- LegacyGenerator.LegacyWingTeeth: stated at `x = 0`, where the legacy generator draws every wing.
- LegacyGenerator.LegacyInvertedWingTeeth: stated at `x = 0`, where the legacy generator draws every wing.
- Rack.Key: lower-cases ASCII capitals only. Rust's `String::to_lowercase` (`src/rack/mod.rs:26`) follows Unicode case mapping, so on non-ASCII capitals the program gives a different key: `'Ä'` becomes `'ä'`, and `'İ'` becomes two characters, which breaks the length equation. The contract describes the program only for vendor and model names without non-ASCII capitals. Unicode case tables are not modelled.
