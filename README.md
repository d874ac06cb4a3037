# Sirocco communication, estimator and MPI-analysis core in Dafny

This project models five pieces of the Sirocco radiative-transfer code and proves properties of each:

- **`broadcast_wind_grid`** (`source/communicate_wind.c`). Every rank in turn packs the wind cells it updated into a buffer. The buffer holds a leading count, then per cell 5 ints, 31 doubles and one `wcone` record. The buffer is broadcast, and every other rank unpacks it over its own copy of `wmain`.
  - The buffer is a class (`CommunicateWind.CommBuffer`) holding a sequence of tagged items, an item cursor and the byte `position`.
  - `MPI_Pack` and `MPI_Unpack` append or read at the cursor.
  - `MPI_Bcast` is "every rank reads the sender's items".
  - The ranks' grids are one `array<seq<WindCell>>`, processed round by round in order.
- **`update_banded_estimators`** (`source/estimators_simple.c`). It adds one photon path segment to the radiation estimators of a plasma cell. The source's process-global "last seen" markers become the `EstimatorsSimple.Markers` class. Each section of the function is a method proved against a function of the old state, and the properties are lemmas about `UpdateEstimators`.
- **`band_copy`** (`source/bands_spec.c`). It copies the photon-generation band boundaries into every plasma cell.
- **The C scanners of `py_progs/GetCommBufferSize.py`.** These are the comment stripper, the stack-based bracket matcher with brace depth, the name extraction before `(`, `separate`'s choice of top-level blocks, the `MPI_Pack` line parser and the dimension tally `xmake_string`.
- **`py_progs/AnalyzeMPIcommunicate.py`.** This is the depth-aware argument splitter `parse_mpi_call`, `normalize_variable`, the collection of pack and unpack calls from the lines of a file, and the position-by-position comparison that produces the problem list.

`PyStrings` models the Python string methods the scripts use (`strip`, `split`, `join`, `replace`, `in`, `startswith`). `Wrappers` holds `Option` and `Result`. Doubles are `real`. Python strings are `seq<char>`.

In `update_banded_estimators` the flux element is projected at the segment midpoint (estimators_simple.c:113-118), but the sign test at line 120 uses the photon's *starting* height `p->x[2]`, not the midpoint's. `EstimatorsSimple.FluxElement` does the same.

## Model

| member | source | states |
|---|---|---|
| CommunicateWind.CellItems | source/communicate_wind.c:100-122 | one packed cell is 37 items: the groups the packer emits, index first |
| CommunicateWind.HeaderItems | source/communicate_wind.c:100-103 | the cell index and the three cell indices are 4 items |
| CommunicateWind.GeometryItems | source/communicate_wind.c:104-111 | `x`, `xcen` and the six scalars up to `dr` are 12 items |
| CommunicateWind.VelocityItems | source/communicate_wind.c:113-114 | `v` and `v_grad` are 12 items |
| CommunicateWind.FlowItems | source/communicate_wind.c:115-121 | the seven scalars `div_v` to `dfudge` are 7 items |
| CommunicateWind.CellItemsShape | source/communicate_wind.c:100-122 | a packed cell has 5 ints, 31 doubles and one `wcone`, in the packed-cell shape |
| CommunicateWind.ShapedCounts | source/communicate_wind.c:135-158 | any item run of the shape the receiver reads has 5 ints, 31 doubles and one `wcone` |
| CommunicateWind.DecodeCellItems | source/communicate_wind.c:135-158 | unpacking a packed cell over any cell restores the index and every transmitted field and keeps the untransmitted ones (round trip) |
| CommunicateWind.CellItemsDecode | source/communicate_wind.c:100-122 | conversely, packing what the receiver decoded gives the same items back |
| CommunicateWind.OverwriteProperties | source/communicate_wind.c:136-158 | overwriting keeps the untransmitted fields, packs like the sender's cell, and is idempotent |
| CommunicateWind.DecodeCell | source/communicate_wind.c:135-158 | what the receiver does with one packed cell: the index it names, and the cell with every transmitted field replaced; DecodeCellItems and CellItemsDecode state that it inverts `CellItems` |
| CommunicateWind.Overwrite | source/communicate_wind.c:136-158 | the destination cell with the transmitted fields of the sender's cell; OverwriteProperties states what it keeps and that it is idempotent |
| CommunicateWind.Doubles | source/communicate_wind.c:104 | an `MPI_DOUBLE` pack of `count` values gives that many double items, and the receiver reads item `k` back as the `k`-th value |
| CommunicateWind.DoublesAppend | source/communicate_wind.c:104-105 | two consecutive `MPI_DOUBLE` packs give the items of one pack of the concatenated values |
| CommunicateWind.MessageFits | source/communicate_wind.c:80-81 | the leading count plus any `k <= n_cells_max` cells fit in `comm_buffer_size` |
| CommunicateWind.CommBufferSize | source/communicate_wind.c:80-81 | `comm_buffer_size`: room for `1 + 5 n_cells_max` ints, `n_cells_max (13 + 3·3 + 9)` doubles and `n_cells_max` cones; MessageFits states that every message fits in it |
| CommunicateWind.CommBuffer.constructor | source/communicate_wind.c:83 | a fresh buffer of the given size is empty, with cursor and position 0 |
| CommunicateWind.CommBuffer.Rewind | source/communicate_wind.c:128 | `position = 0`: cursor and position return to the start |
| CommunicateWind.CommBuffer.PackInt | source/communicate_wind.c:96 | one int item is appended at the cursor; position grows by the int size |
| CommunicateWind.CommBuffer.PackDoubles | source/communicate_wind.c:104 | `count` double items are appended; position grows by `count` double sizes |
| CommunicateWind.CommBuffer.PackCone | source/communicate_wind.c:112 | one `wcone` item is appended; position grows by the `wcone` size |
| CommunicateWind.CommBuffer.UnpackInt | source/communicate_wind.c:132 | the int item at the cursor is returned, and the cursor moves past it |
| CommunicateWind.CommBuffer.UnpackDoubles | source/communicate_wind.c:140 | the next `n` double items are returned in order |
| CommunicateWind.CommBuffer.UnpackCone | source/communicate_wind.c:148 | the `wcone` item at the cursor is returned |
| CommunicateWind.PackHeader | source/communicate_wind.c:100-103 | the buffer grows by exactly the header items |
| CommunicateWind.PackGeometry | source/communicate_wind.c:104-111 | the buffer grows by exactly the geometry items |
| CommunicateWind.PackVelocity | source/communicate_wind.c:113-114 | the buffer grows by exactly the velocity items |
| CommunicateWind.PackFlow | source/communicate_wind.c:115-121 | the buffer grows by exactly the flow items |
| CommunicateWind.PackCell | source/communicate_wind.c:100-122 | the buffer grows by exactly `CellItems(n, c)`, and position by one cell's bytes |
| CommunicateWind.UnpackHeader | source/communicate_wind.c:137-139 | `ndom`, `nwind_dom` and `nplasma` are set from the next three ints; nothing else changes |
| CommunicateWind.UnpackGeometry | source/communicate_wind.c:140-147 | `x`, `xcen`, `r` to `dr` are set from the next 12 doubles; nothing else changes |
| CommunicateWind.UnpackVelocity | source/communicate_wind.c:149-150 | `v` and `v_grad` are set from the next 12 doubles |
| CommunicateWind.UnpackFlow | source/communicate_wind.c:151-157 | `div_v` to `dfudge` are set from the next 7 doubles |
| CommunicateWind.UnpackCellFields | source/communicate_wind.c:137-158 | the cell becomes what `DecodeCell` gives for the packed block |
| CommunicateWind.ReceiveBlock | source/communicate_wind.c:135-158 | one receiver pass keeps the grid's size |
| CommunicateWind.ReceiveCell | source/communicate_wind.c:135-158 | rank `q`'s grid becomes `ReceiveBlock` of the packed cell at the cursor; no other rank changes; cursor and position move one cell on |
| CommunicateWind.EncodeCells | source/communicate_wind.c:97-123 | `k` cells pack into `37 k` items |
| CommunicateWind.EncodeCellsBlock | source/communicate_wind.c:97-123 | the `i`-th 37-item block of the encoding is exactly cell `start + i` |
| CommunicateWind.MessageBlock | source/communicate_wind.c:96-123 | after the leading count, block `i` of the message is cell `start + i` |
| CommunicateWind.MessageSnoc | source/communicate_wind.c:97-123 | packing one more cell appends its items to the message |
| CommunicateWind.MessageShape | source/communicate_wind.c:96-123 | a message announcing at most its cells, all in the grid, is well formed for the receiver |
| CommunicateWind.Message | source/communicate_wind.c:96-122 | what a rank packs in its round: the count, then its cells; MessageShape, MessageFits and MessageCarries state its layout, its size bound and what the receiver recovers from it |
| CommunicateWind.ApplyBlocks | source/communicate_wind.c:133-159 | `k` receiver passes keep the grid's size |
| CommunicateWind.Received | source/communicate_wind.c:132-159 | what a receiver's grid becomes keeps the grid's size |
| CommunicateWind.CellItemsDeliver | source/communicate_wind.c:100-158 | a packed cell delivers exactly that cell under its index |
| CommunicateWind.MessageCarries | source/communicate_wind.c:96-159 | every block of a message delivers its cell |
| CommunicateWind.ApplyCarried | source/communicate_wind.c:133-159 | after `k` passes, the first `k` cells are overwritten and every other cell is unchanged |
| CommunicateWind.ReceivedMessage | source/communicate_wind.c:96-159 | a receiver holds exactly the announced cells over its own untransmitted fields; all other cells are unchanged |
| CommunicateWind.MessageBytesStep | source/communicate_wind.c:96-122 | each packed cell advances `position` by one cell's bytes, staying within the message total |
| CommunicateWind.PackRank | source/communicate_wind.c:94-124 | the sender's buffer holds its count and then its cells `n_start..n_stop-1` in index order |
| CommunicateWind.PackNext | source/communicate_wind.c:97-123 | one sender pass appends the items of cell `n_wind` and advances `position` by one packed cell |
| CommunicateWind.ReceiveNext | source/communicate_wind.c:133-159 | one receiver pass applies the next block and leaves the other ranks' grids alone |
| CommunicateWind.ReceiveRank | source/communicate_wind.c:130-160 | a receiving rank's grid becomes `Received` of the sender's message; no other rank changes |
| CommunicateWind.Round | source/communicate_wind.c:92-160 | a round keeps every rank's grid size |
| CommunicateWind.RoundIsReceived | source/communicate_wind.c:126-160 | what a receiver unpacks from the broadcast message is its grid after the round |
| CommunicateWind.RoundSenderKeeps | source/communicate_wind.c:94-128 | the sender, which packs but never unpacks, keeps its grid through its round |
| CommunicateWind.Rounds | source/communicate_wind.c:90-161 | the rounds `0..k-1`, in order, keep every grid's size |
| CommunicateWind.OwnerUnique | source/communicate_wind.c:22-24 | with disjoint rank ranges a cell has at most one owner |
| CommunicateWind.RoundsSkip | source/communicate_wind.c:90-161 | a round whose sender does not own cell `n` changes cell `n` on no rank |
| CommunicateWind.RoundsUnowned | source/communicate_wind.c:90-161 | a cell no earlier rank owns is unchanged everywhere |
| CommunicateWind.RoundsOwnerTurn | source/communicate_wind.c:90-161 | in the owner's round, the owner keeps its cell and every other rank takes its copy |
| CommunicateWind.RoundsOwned | source/communicate_wind.c:90-161 | once the owner has had its round, later rounds do not change that cell |
| CommunicateWind.BroadcastAgrees | source/communicate_wind.c:39-167 | after all rounds, every rank's transmitted fields of each owned cell equal the owner's; untransmitted fields and unowned cells are unchanged |
| CommunicateWind.BroadcastRound | source/communicate_wind.c:92-160 | one value of `current_rank` turns the grids into `Round` |
| CommunicateWind.BroadcastWindGrid | source/communicate_wind.c:39-167 | if allocation fails nothing changes; otherwise the grids become all rounds in rank order |
| EstimatorsSimple.FluxElement | source/estimators_simple.c:113-131 | spherical: radial component only, 1 and 2 zero; otherwise the projected element, z reversed when the START height is negative |
| EstimatorsSimple.FixedBandOf | source/estimators_simple.c:136-150 | visible iff `freq < UV_low`; X-ray iff not visible and `freq > UV_hi`; UV otherwise |
| EstimatorsSimple.AtMostOneBand | source/estimators_simple.c:164 | with strictly increasing boundaries a frequency lies in at most one band |
| EstimatorsSimple.InBand | source/estimators_simple.c:164 | the band test `xfreq[i] < freq <= xfreq[i+1]`, open below and closed above; AtMostOneBand, NoBandOutside and ScanFromTallies state what it selects |
| EstimatorsSimple.NoBandOutside | source/estimators_simple.c:164 | a frequency `<= xfreq[0]` or `> xfreq[nxfreq]` lies in no band |
| EstimatorsSimple.CountPhoton | source/estimators_simple.c:196-219 | `ntot` grows by one iff the pair differs from the marker; then exactly the counter of the photon's origin (star, bl, disk, wind or agn) grows by one, none for another origin; the marker becomes the pair |
| EstimatorsSimple.RepeatedSegmentsCountOnce | source/estimators_simple.c:196-219 | any number of segments of the same photon in the same cell raise `ntot` and the origin counters at most once |
| EstimatorsSimple.CountAllMarker | source/estimators_simple.c:217-218 | after a run of segments the marker names the last one |
| EstimatorsSimple.CountAllCountsChanges | source/estimators_simple.c:196-198 | over any run, `ntot` grows by the number of changes of the (cell, photon) pair |
| EstimatorsSimple.AddFluxOrderFree | source/estimators_simple.c:138-149 | two segments credited to one band add both flux elements to the vector part and both lengths to entry 3, in either order |
| EstimatorsSimple.TallyBand | source/estimators_simple.c:166-178 | `nxtot` grows by 1, `xj` by `w_ave ds`, `xave_freq` by `freq w_ave ds` and `xsd_freq` by `freq² w_ave ds`; afterwards `fmin <= freq <= fmax`, each moved only when exceeded |
| EstimatorsSimple.UpdateAt | source/estimators_simple.c:166-178 | updating one band keeps every array's length |
| EstimatorsSimple.ScanFrom | source/estimators_simple.c:162-181 | the band scan keeps every array's length |
| EstimatorsSimple.ScanFromTallies | source/estimators_simple.c:162-181 | band `n` is tallied iff `xfreq[n] < freq <= xfreq[n+1]`; other bands are untouched |
| EstimatorsSimple.ScanFromKeepsTail | source/estimators_simple.c:162 | entries at or beyond `nxfreq` are untouched |
| EstimatorsSimple.PositiveAboveEdge | source/estimators_simple.c:227 | above the hydrogen edge the frequency is positive, so the divisions of lines 244-257 are defined |
| EstimatorsSimple.UpdateEstimators | source/estimators_simple.c:77-265 | the whole update keeps the shape of the band arrays |
| EstimatorsSimple.Intensity | source/estimators_simple.c:92-108 | the intensity sums of one segment; UpdateIntensity and AccumulateIntensity state each field's increment |
| EstimatorsSimple.FluxStep | source/estimators_simple.c:113-150 | the flux element added to the one fixed band holding the frequency; FixedBandOf, UpdateFlux and AddFluxOrderFree state which band and how it grows |
| EstimatorsSimple.BandsStep | source/estimators_simple.c:162-181 | the scan of the variable-width bands; ScanFromTallies and SegmentTalliesAtMostOneBand state that at most the one band holding the frequency grows |
| EstimatorsSimple.CountStep | source/estimators_simple.c:196-219 | the distinct-photon counters and the `plog` marker; CountPhoton and RepeatedSegmentsCountOnce state when and which counter grows |
| EstimatorsSimple.IonisingStep | source/estimators_simple.c:227-259 | ionising-photon bookkeeping strictly above the hydrogen edge; UpdateIonisingCount, UpdateIonisingRate and UpdateIonisingBelowEdge state its effect on each side of the edge |
| EstimatorsSimple.UpdateIntensity | source/estimators_simple.c:92-108 | `j` gains `w_ave ds` and exactly one of `j_direct` (`nscat == 0`) and `j_scatt` gains it; `mean_ds`, `n_ds` and `ave_freq` as in the source |
| EstimatorsSimple.UpdateFlux | source/estimators_simple.c:136-150 | exactly the fixed band holding the frequency gains the flux element |
| EstimatorsSimple.UpdateBandTallies | source/estimators_simple.c:162-181 | band `n < nxfreq` is tallied iff its interval holds the frequency |
| EstimatorsSimple.UpdateCounts | source/estimators_simple.c:196-219 | counters and `plog` marker take one `CountPhoton` step |
| EstimatorsSimple.UpdateIonisingCount | source/estimators_simple.c:227-249 | strictly above 13.6 eV, `nioniz` counts each distinct pair once, with its own marker; `xi` gains `w_ave ds` only below 13600 eV |
| EstimatorsSimple.UpdateIonisingRate | source/estimators_simple.c:244-258 | `ip`, and exactly one of `ip_direct`/`ip_scatt`, gain `w_ave ds / (PLANCK freq)` |
| EstimatorsSimple.UpdateIonisingBelowEdge | source/estimators_simple.c:227 | at or below 13.6 eV the ionising estimators and their marker are untouched |
| EstimatorsSimple.SegmentTalliesAtMostOneBand | source/estimators_simple.c:162-181 | with increasing boundaries, one segment tallies at most one band, and only inside `(xfreq[0], xfreq[nxfreq]]` |
| EstimatorsSimple.Markers.constructor | source/estimators_simple.c:67-75 | both markers start at `(-1, -1)` |
| EstimatorsSimple.AccumulateIntensity | source/estimators_simple.c:92-108 | the cell's estimators become `Intensity` of the old ones |
| EstimatorsSimple.AccumulateFlux | source/estimators_simple.c:113-150 | the cell's estimators become `FluxStep` of the old ones |
| EstimatorsSimple.AccumulateBands | source/estimators_simple.c:162-181 | the loop over the bands gives `BandsStep` of the old estimators |
| EstimatorsSimple.CountDistinctPhoton | source/estimators_simple.c:196-219 | estimators and `plog` marker become `CountStep` of the old ones |
| EstimatorsSimple.AccumulateIonising | source/estimators_simple.c:227-259 | estimators and `nioniz` marker become `IonisingStep` of the old ones |
| EstimatorsSimple.UpdateBandedEstimators | source/estimators_simple.c:77-265 | returns 0; estimators and markers become `UpdateEstimators` of the old ones |
| BandsSpec.WithBands | source/bands_spec.c:63-67 | `nbands` set, `f1`/`f2` below it copied, entries above it and all other fields unchanged |
| BandsSpec.CopyAll | source/bands_spec.c:62-69 | the plasma array keeps its length |
| BandsSpec.CopyBands | source/bands_spec.c:63-67 | cell `n` becomes `WithBands` of itself; every other cell is unchanged |
| BandsSpec.BandCopy | source/bands_spec.c:58-70 | the plasma array becomes `CopyAll`: cells below `NPLASMA` get the bands, the rest are unchanged |
| BandsSpec.WithBandsIdempotent | source/bands_spec.c:63-67 | copying the bands into a cell twice is copying them once |
| BandsSpec.CopyAllIdempotent | source/bands_spec.c:58-70 | calling `band_copy` twice leaves the state of calling it once |
| BandsSpec.CopyAllMatchesBandSet | source/bands_spec.c:62-67 | afterwards every cell below `NPLASMA` has `xband`'s count and boundaries below it |
| GetCommBufferSize.LiteralEnd | py_progs/GetCommBufferSize.py:60-74 | a literal's scan ends within the text, at or after its body |
| GetCommBufferSize.LineEnd | py_progs/GetCommBufferSize.py:77-78 | the first newline at or after `j`, or the end |
| GetCommBufferSize.BlockEnd | py_progs/GetCommBufferSize.py:85-88 | the first `*/` after the comment start, or the last character when there is none |
| GetCommBufferSize.Newlines | py_progs/GetCommBufferSize.py:86-87 | the newlines of a comment are no longer than it |
| GetCommBufferSize.NewlinesKept | py_progs/GetCommBufferSize.py:86-87 | every newline is kept and nothing else |
| GetCommBufferSize.Step | py_progs/GetCommBufferSize.py:58-93 | each construct consumes at least one character |
| GetCommBufferSize.StepKeepsLines | py_progs/GetCommBufferSize.py:58-93 | each construct emits no more than it consumes and keeps its newlines |
| GetCommBufferSize.LineCommentKeepsLines | py_progs/GetCommBufferSize.py:75-82 | a `//` comment emits exactly the newlines it consumes |
| GetCommBufferSize.BlockCommentKeepsLines | py_progs/GetCommBufferSize.py:83-91 | a `/* */` comment's newlines are those of its body |
| GetCommBufferSize.ScanShorter | py_progs/GetCommBufferSize.py:53-94 | the output is never longer than the input |
| GetCommBufferSize.Scan | py_progs/GetCommBufferSize.py:53-94 | the comment-free text `remove_comments_preserve_strings` builds from a position; ScanShorter, ScanKeepsLines, ScanNoSlash and the comment-dropping lemmas state its meaning |
| GetCommBufferSize.ScanKeepsLines | py_progs/GetCommBufferSize.py:53-94 | the output has exactly the input's newlines, so line structure is kept |
| GetCommBufferSize.ScanNoSlash | py_progs/GetCommBufferSize.py:53-94 | text without `/` comes back unchanged, literals included |
| GetCommBufferSize.LineCommentDropped | py_progs/GetCommBufferSize.py:75-82 | a `//` comment is replaced by its closing newline |
| GetCommBufferSize.LastLineCommentDropped | py_progs/GetCommBufferSize.py:75-82 | a `//` comment on the last line is dropped |
| GetCommBufferSize.BlockCommentDropped | py_progs/GetCommBufferSize.py:83-91 | a closed `/* */` comment is replaced by its newlines |
| GetCommBufferSize.UnterminatedComment | py_progs/GetCommBufferSize.py:83-93 | an unclosed block comment drops all but its newlines and its last character, which the outer loop emits |
| GetCommBufferSize.RemoveComments | py_progs/GetCommBufferSize.py:53-94 | `remove_comments_preserve_strings` returns `Scan(code, 0)` |
| GetCommBufferSize.ScanStep | py_progs/GetCommBufferSize.py:58-93 | one outer pass emits `Step`'s text and resumes where `Step` does, or one past the end after a final backslash |
| GetCommBufferSize.CopyLiteral | py_progs/GetCommBufferSize.py:60-74 | a literal, escapes included, is copied verbatim up to its end |
| GetCommBufferSize.SkipLineComment | py_progs/GetCommBufferSize.py:75-82 | a `//` comment emits its newline only if it has one |
| GetCommBufferSize.SkipBlockComment | py_progs/GetCommBufferSize.py:83-91 | a `/*` comment emits its newlines and resumes past `*/` |
| GetCommBufferSize.Visited | py_progs/GetCommBufferSize.py:109-122 | the matcher looks only at positions inside the text |
| GetCommBufferSize.MatchOther | py_progs/GetCommBufferSize.py:123-139 | a position with no bracket changes no map |
| GetCommBufferSize.MatchPush | py_progs/GetCommBufferSize.py:123-124 | an opener is pushed, keeping the pairing invariant |
| GetCommBufferSize.MatchUnpaired | py_progs/GetCommBufferSize.py:125-126 | a closer with an empty stack is ignored |
| GetCommBufferSize.MatchPop | py_progs/GetCommBufferSize.py:125-129 | a closer pairs with the top of the stack in both maps |
| GetCommBufferSize.MatchingDone | py_progs/GetCommBufferSize.py:141 | the loop invariant at the end gives stack-matched maps |
| GetCommBufferSize.Depths | py_progs/GetCommBufferSize.py:130-138 | each recorded brace's depth is the number of brace pairs around it; DepthsPush and DepthsPop state that the loop keeps it |
| GetCommBufferSize.DepthsPush | py_progs/GetCommBufferSize.py:130-133 | an opening brace's depth is the number of braces still open before it |
| GetCommBufferSize.DepthsPop | py_progs/GetCommBufferSize.py:134-138 | closing a brace changes no recorded depth |
| GetCommBufferSize.SkipLiteral | py_progs/GetCommBufferSize.py:111-122 | the matcher resumes after the literal, as the comment stripper would |
| GetCommBufferSize.VisitChar | py_progs/GetCommBufferSize.py:123-138 | one position keeps both matchers' invariants and the depth invariant |
| GetCommBufferSize.ParenAt | py_progs/GetCommBufferSize.py:123-129 | the parenthesis branch keeps the matcher invariant |
| GetCommBufferSize.BraceAt | py_progs/GetCommBufferSize.py:130-138 | the brace branch keeps the matcher and depth invariants |
| GetCommBufferSize.VisitedAdvance | py_progs/GetCommBufferSize.py:109-122 | the positions done and those to come make up all the visited positions |
| GetCommBufferSize.BuildParenBraceMaps | py_progs/GetCommBufferSize.py:96-141 | outside literals, brackets are paired as a stack pairs them: maps inverse, open before close, nested, unpaired closers ignored; each brace's depth counts the braces enclosing it |
| GetCommBufferSize.MapsOfInRange | py_progs/GetCommBufferSize.py:96-141 | every recorded pair lies in the text, opens before it closes, and pairs the right characters |
| GetCommBufferSize.SpaceStart | py_progs/GetCommBufferSize.py:145-147 | the backward whitespace skip stops after a non-space or at 0 |
| GetCommBufferSize.SpaceStartSpaces | py_progs/GetCommBufferSize.py:145-147 | everything skipped is white space |
| GetCommBufferSize.WordStart | py_progs/GetCommBufferSize.py:149-151 | the backward identifier scan stops after a non-identifier character or at 0 |
| GetCommBufferSize.WordStartIdent | py_progs/GetCommBufferSize.py:149-151 | everything scanned is an identifier character |
| GetCommBufferSize.IsIdentChar | py_progs/GetCommBufferSize.py:149 | `isalnum() or == '_'`, letters and digits taken as ASCII; WordStartIdent and NameBeforeIsIdentifier state that names consist of such characters |
| GetCommBufferSize.WordUnstripped | py_progs/GetCommBufferSize.py:152 | the word is never changed by `strip` |
| GetCommBufferSize.NameBeforeStripped | py_progs/GetCommBufferSize.py:152-159 | the name is the stripped word, accepted or refused |
| GetCommBufferSize.ExtractNameBeforeParen | py_progs/GetCommBufferSize.py:143-159 | `extract_name_before_paren` returns `NameBefore(code, pos)` |
| GetCommBufferSize.NameBefore | py_progs/GetCommBufferSize.py:143-159 | the identifier right before the white space ahead of a position, unless empty or refused; NameBeforeWord, NameBeforeIsIdentifier and ExtractNameBeforeParen state its meaning |
| GetCommBufferSize.NameBeforeWord | py_progs/GetCommBufferSize.py:145-159 | the name is the identifier ending where the white space before the paren starts, unless empty or refused |
| GetCommBufferSize.NameBeforeIsIdentifier | py_progs/GetCommBufferSize.py:143-159 | a name found is non-empty, made of identifier characters, and not a keyword or attribute |
| GetCommBufferSize.AcceptedKeeps | py_progs/GetCommBufferSize.py:153-159 | a candidate is returned unchanged iff it is non-empty and not refused |
| GetCommBufferSize.Refused | py_progs/GetCommBufferSize.py:155-158 | the control keywords and the `__attribute`, `attribute` and `__declspec` markers; AcceptedKeeps and NameBeforeIsIdentifier state that no refused name is returned |
| GetCommBufferSize.Accepted | py_progs/GetCommBufferSize.py:153-159 | `None` for an empty or refused name, otherwise the name; AcceptedKeeps states it |
| GetCommBufferSize.LastNewline | py_progs/GetCommBufferSize.py:190 | `rfind('\n', 0, pos)`: the last newline before `pos`, or -1 |
| GetCommBufferSize.SignatureStart | py_progs/GetCommBufferSize.py:190-192 | the signature line starts at or before the paren |
| GetCommBufferSize.NamedParen | py_progs/GetCommBufferSize.py:180-197 | a candidate found lies before the brace |
| GetCommBufferSize.NamedParenRightmost | py_progs/GetCommBufferSize.py:180-197 | the candidate taken is the rightmost paired, named paren closing before the brace; when none is taken, there is none |
| GetCommBufferSize.FindNamedParen | py_progs/GetCommBufferSize.py:179-197 | the candidate loop returns `NamedParen` |
| GetCommBufferSize.SignatureParen | py_progs/GetCommBufferSize.py:184-204 | the text starts at the named paren when one is found, else at the brace |
| GetCommBufferSize.FunctionTextSpan | py_progs/GetCommBufferSize.py:193 | the stripped text reaches from the signature to the closing brace and ends in `}` |
| GetCommBufferSize.FunctionText | py_progs/GetCommBufferSize.py:190-193 | the stripped text from the start of the signature's line through the closing brace; FunctionTextSpan states its span |
| GetCommBufferSize.FunctionAtSpan | py_progs/GetCommBufferSize.py:176-207 | a recorded text ends in its closing brace and is at least as long as the span from the signature's bracket to that brace |
| GetCommBufferSize.FunctionAt | py_progs/GetCommBufferSize.py:176-207 | the text and name `separate` records for one brace pair; FunctionAtSpan and FunctionNameShape state its span and its name |
| GetCommBufferSize.RecordFunction | py_progs/GetCommBufferSize.py:176-207 | one pass of the loop of `separate` records exactly FunctionAt's text and name for the brace pair |
| GetCommBufferSize.TopLevelBrace | py_progs/GetCommBufferSize.py:174-176 | a brace pair of depth 0 or with no recorded depth; FunctionsFromTopLevel and TopLevelInFunctions state that exactly these are recorded |
| GetCommBufferSize.Functions | py_progs/GetCommBufferSize.py:174-207 | the records of the top-level brace pairs from a position on, in order; SeparateCode and Separate state that the loop computes them |
| GetCommBufferSize.NamedParenOpens | py_progs/GetCommBufferSize.py:180 | a candidate is an opening parenthesis |
| GetCommBufferSize.FunctionNameShape | py_progs/GetCommBufferSize.py:185-195 | each recorded name is a non-empty identifier that is not refused |
| GetCommBufferSize.FunctionsFromTopLevel | py_progs/GetCommBufferSize.py:174-176 | every entry comes from a top-level brace pair |
| GetCommBufferSize.TopLevelInFunctions | py_progs/GetCommBufferSize.py:174-176 | every top-level brace pair has its entry |
| GetCommBufferSize.TextsNamesAppend | py_progs/GetCommBufferSize.py:194-195 | the texts and names of recorded functions distribute over concatenation, so appending one record extends both lists by its own |
| GetCommBufferSize.SeparateCode | py_progs/GetCommBufferSize.py:174-207 | the loop over braces records one text and one name per top-level pair, in order |
| GetCommBufferSize.Separate | py_progs/GetCommBufferSize.py:161-209 | `separate` is comment removal, bracket matching and then `SeparateCode` |
| PackTally.PackLines | py_progs/GetCommBufferSize.py:219 | there are no more pack lines than lines |
| PackTally.PackLinesExactly | py_progs/GetCommBufferSize.py:218-219 | a line is selected iff it is one of the lines and holds `MPI_Pack` |
| PackTally.IsPackLine | py_progs/GetCommBufferSize.py:219 | `one.count('MPI_Pack')` is not zero; PackLinesExactly states that exactly these lines are selected, and RowsOfPackLines the rows they give |
| PackTally.Parse | py_progs/GetCommBufferSize.py:213-230 | `parse` returns `Rows(lines)` |
| PackTally.RowsFailureStays | py_progs/GetCommBufferSize.py:218-228 | once a pack line raises, `parse` raises that error |
| PackTally.RowsOfPackLines | py_progs/GetCommBufferSize.py:213-230 | `parse` succeeds iff every pack line has three fields, and then gives one row per pack line, in order |
| PackTally.LineRow | py_progs/GetCommBufferSize.py:222-229 | the row `parse` reads from one pack line, or the too-few-fields error; LineRowFields and VariableFree state its fields |
| PackTally.Rows | py_progs/GetCommBufferSize.py:218-228 | the rows of the pack lines in order, or the first line's error; RowsOfPackLines and RowsFailureStays state it |
| PackTally.VariableFree | py_progs/GetCommBufferSize.py:222 | the variable is the text after the last `>` and holds no `>` |
| PackTally.LineRowFields | py_progs/GetCommBufferSize.py:219-228 | a pack line gives a row iff it holds at least two commas; fields are stripped and comma-free |
| PackTally.BeforeIrreflexive | py_progs/GetCommBufferSize.py:235 | `numpy.unique`'s string order is irreflexive |
| PackTally.BeforeTransitive | py_progs/GetCommBufferSize.py:235 | the order is transitive |
| PackTally.BeforeTotal | py_progs/GetCommBufferSize.py:235 | the order is total |
| PackTally.AddSorted | py_progs/GetCommBufferSize.py:235 | adding an occurrence keeps the tallies sorted |
| PackTally.AddCounts | py_progs/GetCommBufferSize.py:235 | adding an occurrence counts it once, for its dimension only |
| PackTally.UniqueTallies | py_progs/GetCommBufferSize.py:235 | sorted distinct dimensions, each counted as often as it occurs; counts sum to the row count |
| PackTally.UniqueDimensions | py_progs/GetCommBufferSize.py:235 | a dimension is tallied iff it occurs |
| PackTally.Unique | py_progs/GetCommBufferSize.py:235 | `numpy.unique` with counts; UniqueTallies and UniqueDimensions state sortedness, distinctness and the counts |
| PackTally.Decimal | py_progs/GetCommBufferSize.py:243 | `%d` prints a non-empty string of digits |
| PackTally.DecimalRoundTrip | py_progs/GetCommBufferSize.py:243 | the printed digits read back as the number, without a leading zero |
| PackTally.UnitCountIsCount | py_progs/GetCommBufferSize.py:238-241 | `ntot` is the count of dimension `1`, and is unbound when it is 0 |
| PackTally.UnitCount | py_progs/GetCommBufferSize.py:238-241 | the count of dimension `1`, or none, in which case `ntot` is unbound; UnitCountIsCount states it |
| PackTally.Term | py_progs/GetCommBufferSize.py:243 | the term `' + %d * (%s)'` of one dimension other than `1`; SizeExpressionMeaning states where the terms go |
| PackTally.Terms | py_progs/GetCommBufferSize.py:238-244 | the terms of every dimension but `1`, in unique order; SizeExpressionMeaning states it |
| PackTally.XMakeString | py_progs/GetCommBufferSize.py:234-246 | `xmake_string` returns `SizeExpression` of the Dimension column |
| PackTally.SizeExpressionMeaning | py_progs/GetCommBufferSize.py:234-246 | fails iff no row has dimension `1`; otherwise the number of such rows, a space, then one term per other dimension |
| PackTally.SizeExpression | py_progs/GetCommBufferSize.py:234-246 | the size expression of a list of dimensions, or the no-dimension-1 error; SizeExpressionMeaning and XMakeString state it |
| PackTally.KindDimensions | py_progs/GetCommBufferSize.py:305-307 | filtering by Type keeps at most the rows there are |
| PackTally.KindDimensionsUnit | py_progs/GetCommBufferSize.py:305-311 | the filtered column has a `1` iff some row of that Type has dimension `1` |
| PackTally.FunctionSizesSucceed | py_progs/GetCommBufferSize.py:298-313 | one function goes through iff its pack lines parse and, if there are any, both `MPI_INT` and `MPI_DOUBLE` rows include dimension `1` |
| PackTally.FunctionSizes | py_progs/GetCommBufferSize.py:298-313 | nothing for a function without pack lines, otherwise the integer and double size expressions; FunctionSizesSucceed states when it succeeds and what it holds |
| AnalyzeMpiCommunicate.DepthCounts | py_progs/AnalyzeMPIcommunicate.py:120-124 | `paren_count` is the count of `(` minus the count of `)` |
| AnalyzeMpiCommunicate.RawPieces | py_progs/AnalyzeMPIcommunicate.py:116-132 | there is always at least one raw piece |
| AnalyzeMpiCommunicate.Scan | py_progs/AnalyzeMPIcommunicate.py:116-129 | the splitting loop's state (`Splitter`: the closed pieces, the current piece and `paren_count`) once it has read a prefix; ScanStep, ScanJoin, ScanBalance, ScanNoTopComma and ScanPieces state it |
| AnalyzeMpiCommunicate.ScanStep | py_progs/AnalyzeMPIcommunicate.py:120-129 | a comma at depth 0 closes the piece; any other character joins it |
| AnalyzeMpiCommunicate.ScanJoin | py_progs/AnalyzeMPIcommunicate.py:116-132 | the raw pieces joined with commas give the content back |
| AnalyzeMpiCommunicate.ScanBalance | py_progs/AnalyzeMPIcommunicate.py:118-129 | `paren_count` is the balance of the current piece; closed pieces are balanced |
| AnalyzeMpiCommunicate.ScanNoTopComma | py_progs/AnalyzeMPIcommunicate.py:125-128 | no piece holds a comma at depth 0 |
| AnalyzeMpiCommunicate.ScanPieces | py_progs/AnalyzeMPIcommunicate.py:116-132 | the content is split at exactly its depth-0 commas |
| AnalyzeMpiCommunicate.StripEach | py_progs/AnalyzeMPIcommunicate.py:126 | each piece is stripped, none dropped |
| AnalyzeMpiCommunicate.SplitTopLevel | py_progs/AnalyzeMPIcommunicate.py:116-132 | the splitting loop returns `TopLevelParts(content)` |
| AnalyzeMpiCommunicate.TopLevelPartsPieces | py_progs/AnalyzeMPIcommunicate.py:116-132 | the parts are the stripped raw pieces, the last dropped only when blank |
| AnalyzeMpiCommunicate.ParseMpiCall | py_progs/AnalyzeMPIcommunicate.py:108-153 | `parse_mpi_call` returns `CallFields(line, kind)` |
| AnalyzeMpiCommunicate.Content | py_progs/AnalyzeMPIcommunicate.py:112-113 | the argument list with the call name, parentheses and `;` stripped; CallFieldsTopLevel states how it splits |
| AnalyzeMpiCommunicate.TopLevelParts | py_progs/AnalyzeMPIcommunicate.py:116-132 | the top-level comma-separated parts; TopLevelPartsPieces and SplitTopLevel state them |
| AnalyzeMpiCommunicate.CallFields | py_progs/AnalyzeMPIcommunicate.py:108-153 | the variable, count and datatype fields of a call, or three empty strings; CallFieldsPieces and ParseMpiCall state them |
| AnalyzeMpiCommunicate.CallFieldsPieces | py_progs/AnalyzeMPIcommunicate.py:134-153 | pack: parts 0-2, unpack: parts 3-5, stripped; too few parts give `("", "", "")` |
| AnalyzeMpiCommunicate.CallFieldsTopLevel | py_progs/AnalyzeMPIcommunicate.py:116-147 | each returned field is a piece with no depth-0 comma |
| AnalyzeMpiCommunicate.Unaddressed | py_progs/AnalyzeMPIcommunicate.py:161 | no `&` or `*` is left and every other character occurs as often as in the name |
| AnalyzeMpiCommunicate.NormalizeVariableMeaning | py_progs/AnalyzeMPIcommunicate.py:155-169 | empty in, empty out; otherwise no `&`/`*`, and of the name without them: the `->`-free field right after a `->` when `cell->` occurs, else the `].`-free field right after a `].` when `plasmamain[` and `].` occur, else all of it |
| AnalyzeMpiCommunicate.ShortenedSuffix | py_progs/AnalyzeMPIcommunicate.py:164-169 | the shortened name is a suffix of the name: when `cell->` occurs, one free of `->` that a `->` immediately precedes; when `plasmamain[` and `].` occur, one free of `].` that a `].` immediately precedes; otherwise the whole name |
| AnalyzeMpiCommunicate.NormalizeVariable | py_progs/AnalyzeMPIcommunicate.py:155-169 | `normalize_variable`; NormalizeVariableMeaning states its result |
| AnalyzeMpiCommunicate.Shortened | py_progs/AnalyzeMPIcommunicate.py:164-169 | the name cut to its last field; ShortenedSuffix states its result |
| AnalyzeMpiCommunicate.OpensExclusive | py_progs/AnalyzeMPIcommunicate.py:32-37 | no line opens both a pack and an unpack call |
| AnalyzeMpiCommunicate.Opens | py_progs/AnalyzeMPIcommunicate.py:32-37 | the `startswith('MPI_Pack (')`/`startswith('MPI_Pack(')` line filter and its unpack twin; OpensExclusive states that no line passes both, and LineCall applies it |
| AnalyzeMpiCommunicate.LineCallNumbered | py_progs/AnalyzeMPIcommunicate.py:29-40 | a line's call carries its number and kind |
| AnalyzeMpiCommunicate.LineCall | py_progs/AnalyzeMPIcommunicate.py:30-40 | the call one line contributes, if any; LineCallNumbered and CallsOfMeaning state it |
| AnalyzeMpiCommunicate.LineCalls | py_progs/AnalyzeMPIcommunicate.py:29-40 | one entry per line |
| AnalyzeMpiCommunicate.LineCallsAt | py_progs/AnalyzeMPIcommunicate.py:29-40 | entry `n` is line `n`'s call, numbered `n + 1` |
| AnalyzeMpiCommunicate.Collected | py_progs/AnalyzeMPIcommunicate.py:29-40 | no more calls than lines |
| AnalyzeMpiCommunicate.CollectedSound | py_progs/AnalyzeMPIcommunicate.py:29-40 | each call collected is the one its line contributes |
| AnalyzeMpiCommunicate.CollectedOrdered | py_progs/AnalyzeMPIcommunicate.py:29-40 | calls are collected in line order |
| AnalyzeMpiCommunicate.CollectedComplete | py_progs/AnalyzeMPIcommunicate.py:29-40 | every call a line contributes is collected |
| AnalyzeMpiCommunicate.LineCallsNumbered | py_progs/AnalyzeMPIcommunicate.py:29 | line numbers count from 1 |
| AnalyzeMpiCommunicate.CallsOfMeaning | py_progs/AnalyzeMPIcommunicate.py:29-40 | the calls of one kind are exactly those the lines contribute, in file order, with 1-based numbers |
| AnalyzeMpiCommunicate.CallsOf | py_progs/AnalyzeMPIcommunicate.py:29-40 | the calls of one kind in file order; CallsOfMeaning and CollectCalls state it |
| AnalyzeMpiCommunicate.CollectLine | py_progs/AnalyzeMPIcommunicate.py:30-40 | one line gives its pack and its unpack call, if any |
| AnalyzeMpiCommunicate.CollectCalls | py_progs/AnalyzeMPIcommunicate.py:29-40 | the loop gives `CallsOf` for both kinds |
| AnalyzeMpiCommunicate.PositionProblemsPositioned | py_progs/AnalyzeMPIcommunicate.py:61-79 | each problem at a position names that position |
| AnalyzeMpiCommunicate.PositionProblemsEmpty | py_progs/AnalyzeMPIcommunicate.py:61-79 | a position raises nothing iff its calls agree |
| AnalyzeMpiCommunicate.PositionProblemsKinds | py_progs/AnalyzeMPIcommunicate.py:61-79 | each kind of problem is raised iff its condition holds |
| AnalyzeMpiCommunicate.PositionProblems | py_progs/AnalyzeMPIcommunicate.py:53-79 | the problems at one compared position; PositionProblemsPositioned, PositionProblemsEmpty and PositionProblemsKinds state them |
| AnalyzeMpiCommunicate.CountProblems | py_progs/AnalyzeMPIcommunicate.py:61-64 | a count mismatch iff the counts differ; PositionProblemsKinds states it |
| AnalyzeMpiCommunicate.TypeProblems | py_progs/AnalyzeMPIcommunicate.py:66-69 | a type mismatch iff the datatypes differ; PositionProblemsKinds states it |
| AnalyzeMpiCommunicate.TypoPair | py_progs/AnalyzeMPIcommunicate.py:72 | the pack name holds `ave_freq_norm` and the unpack name `ave_freq_nrom`; PositionProblemsKinds states that it raises the typo |
| AnalyzeMpiCommunicate.VariableProblems | py_progs/AnalyzeMPIcommunicate.py:72-79 | the typo, else a variable mismatch iff the normalised names differ; PositionProblemsKinds states it |
| AnalyzeMpiCommunicate.Findings | py_progs/AnalyzeMPIcommunicate.py:52-79 | one entry per compared position |
| AnalyzeMpiCommunicate.FlattenAt | py_progs/AnalyzeMPIcommunicate.py:52-79 | a problem naming position `i + 1` is reported iff position `i` raised it |
| AnalyzeMpiCommunicate.CheckPosition | py_progs/AnalyzeMPIcommunicate.py:53-79 | the loop body appends `PositionProblems` |
| AnalyzeMpiCommunicate.ComparePosition | py_progs/AnalyzeMPIcommunicate.py:53-79 | one pass of the comparison loop extends the problems of positions before `i` to those of positions up to `i` |
| AnalyzeMpiCommunicate.StartProblems | py_progs/AnalyzeMPIcommunicate.py:45-48 | the list opens with one MAJOR ERROR exactly when the two call lists differ in length |
| AnalyzeMpiCommunicate.Head | py_progs/AnalyzeMPIcommunicate.py:45-48 | the MAJOR ERROR iff the two lists differ in length; StartProblems and MajorErrorOnce state it |
| AnalyzeMpiCommunicate.FindProblems | py_progs/AnalyzeMPIcommunicate.py:45-79 | the comparison builds `Problems(packs, unpacks)` |
| AnalyzeMpiCommunicate.AnalyzeMpiFile | py_progs/AnalyzeMPIcommunicate.py:19-79 | the file's problems are `Problems` of its pack and unpack calls |
| AnalyzeMpiCommunicate.ProblemsAt | py_progs/AnalyzeMPIcommunicate.py:52-79 | at each compared position, each problem is reported iff its condition holds |
| AnalyzeMpiCommunicate.Problems | py_progs/AnalyzeMPIcommunicate.py:45-79 | the `problems` list of `analyze_mpi_file`; ProblemsAt, MajorErrorOnce and ProblemsEmpty state it |
| AnalyzeMpiCommunicate.MajorErrorOnce | py_progs/AnalyzeMPIcommunicate.py:47-52 | one MAJOR ERROR, first, iff the lengths differ; every other problem names a position both lists have |
| AnalyzeMpiCommunicate.ProblemsEmpty | py_progs/AnalyzeMPIcommunicate.py:45-87 | success is reported iff the lengths match and every position agrees |
| PyStrings.Strip | py_progs/AnalyzeMPIcommunicate.py:30 | `strip()` is no longer than the string and has no white space at either end |
| PyStrings.IsSpace | py_progs/GetCommBufferSize.py:146 | Python's `str.isspace`: the ASCII controls 9-13 and 28-31, the space and the Unicode separators; Strip and SpaceStartSpaces state what it decides |
| PyStrings.StripChars | py_progs/AnalyzeMPIcommunicate.py:113 | `strip(chars)` is no longer than the string and has no such character at either end |
| PyStrings.StripCharsDrops | py_progs/AnalyzeMPIcommunicate.py:113 | it drops only characters of the set, only at the ends |
| PyStrings.StripIdempotent | py_progs/AnalyzeMPIcommunicate.py:113 | stripping twice is stripping once |
| PyStrings.RemoveChar | py_progs/AnalyzeMPIcommunicate.py:161 | `replace(c, '')` removes every `c` and keeps the other characters |
| PyStrings.RemoveAllAbsent | py_progs/AnalyzeMPIcommunicate.py:112 | `replace` of an absent pattern changes nothing |
| PyStrings.RemoveAll | py_progs/AnalyzeMPIcommunicate.py:112 | `replace(pat, '')` with a nonempty pattern, never longer than the string; RemoveAllAbsent and RemoveCharIsRemoveAll state it |
| PyStrings.RemoveCharIsRemoveAll | py_progs/AnalyzeMPIcommunicate.py:161 | removing a character is `replace` of the one-character pattern |
| PyStrings.RemoveAbsent | py_progs/AnalyzeMPIcommunicate.py:161 | removing an absent character changes nothing |
| PyStrings.ContainsAt | py_progs/AnalyzeMPIcommunicate.py:164 | `in` is the substring relation |
| PyStrings.Split | py_progs/GetCommBufferSize.py:220 | `split` gives at least one piece |
| PyStrings.SplitJoin | py_progs/GetCommBufferSize.py:220 | joining the pieces with the separator gives the string back |
| PyStrings.Join | py_progs/GetCommBufferSize.py:220 | `sep.join`, the inverse of `split`: SplitJoin states that joining the pieces gives the string back |
| PyStrings.SplitCount | py_progs/GetCommBufferSize.py:220 | splitting at a character gives one piece more than its occurrences |
| PyStrings.SplitPieces | py_progs/GetCommBufferSize.py:220 | no piece contains the separator |
| PyStrings.AfterLast | py_progs/AnalyzeMPIcommunicate.py:165 | `split(sep)[-1]` holds no separator |
| PyStrings.SuffixAfterLast | py_progs/AnalyzeMPIcommunicate.py:165 | `split(sep)[-1]` is the whole string when `sep` does not occur, otherwise the suffix that a copy of `sep` immediately precedes |

## Left out

- MPI machinery: `MPI_Get_address`, `MPI_Type_create_struct`, `MPI_Type_commit` and `MPI_Type_free` are not modelled. A `wcone` is one item. The packed sizes from `MPI_Pack_size` are parameters (`PackSizes`). `get_max_cells_per_rank` and `calculate_comm_buffer_size` are not part of this model: `n_cells_max` is a parameter, and `comm_buffer_size` is the packed size of `1 + 5 n` ints and `31 n` doubles plus `n` times the packed size of one cone, where the source asks `MPI_Pack_size` for `n` cones at once.
- Concurrency: the ranks run as a sequential loop over rounds, and `MPI_Bcast` is "every receiver reads the sender's items". Blocking, deadlock and message truncation are not modelled.
- CommunicateWind.ReceiveRank: the receiver does not check `n_wind` against the grid. The model requires every announced block to name a cell of the grid (`MessageShaped`); out-of-bounds writes are not modelled.
- CommunicateWind.BroadcastWindGrid: the source lets `n_cells_rank` differ from `n_stop - n_start`. The model requires `n_cells_rank <= n_stop - n_start`, because more would make the receiver read past the packed data. Full agreement (`BroadcastAgrees`) needs equality and disjoint ranges.
- CommunicateWind.BroadcastWindGrid: a failed `malloc` is the `allocOk` parameter; the `Error`/`Exit` call becomes returning `false` with nothing changed. `d_xsignal` logging is left out.
- Integers are unbounded: `int` overflow of `position` or of the counters is not modelled.
- EstimatorsSimple: `move_phot`, `renorm`, `project_from_xyz_cyl` and `length` are uninterpreted function fields of `Geometry`. `dot` and `vadd` are exact real arithmetic. `HEV`, `PLANCK`, `UV_low` and `UV_hi` are positive parameters. Doubles are exact reals, so IEEE rounding is not modelled.
- EstimatorsSimple: `zdom[ndom].coord_type == SPHERICAL` is the boolean parameter `spherical`; the domain table is not modelled.
- The plasma structure holds only the fields the update touches; its other fields are not modelled.
- BandsSpec: `plasmamain` cells keep only the band fields; the rest of the structure is one opaque `rest` field. `NPLASMA` is a parameter.
- GetCommBufferSize: `isalnum` is taken as ASCII letters and digits. Python's Unicode `isalnum` is not modelled.
- GetCommBufferSize.Separate: file reading with `errors='ignore'` is replaced by the text itself.
- The fallback regex of line 206 searches `code[:b_open+1]`, which ends in `{`. The pattern must end in `)` and white space, so it never matches. The model records no name in that case and does not model the regex.
- GetCommBufferSize.FunctionAtSpan: states a lower bound on the length and the last character of the recorded text, not its exact first line; the text itself is defined by `FunctionText`.
- GetCommBufferSize.UnterminatedComment: an unclosed `/*` comment is modelled as written, with its last character emitted by the outer loop.
- PackTally: the astropy `Table`, its filtering and its `write` to `xall_*`, `xint_*` and `xdoub_*` files are left out. Rows are a sequence and filtering is `KindDimensions`. `numpy.unique` is `Unique`.
- `doit`'s printing and its loop over `names` are left out; each function's result is computed on its own.
- AnalyzeMpiCommunicate: file reading is replaced by the file's lines. Printing is left out, including the "SPECIFIC ISSUES" section of lines 93-104. A problem is a datatype value, not its formatted message.
- AnalyzeMpiCommunicate.ParseMpiCall: the `try`/`except` of lines 110-151 is left out, because nothing in the body can raise.
- GetCommBufferSize.Separate: its result is stated over some maps satisfying `MapsOf`; that stack matching determines those maps uniquely is not proved.
- AnalyzeMpiCommunicate.NormalizeVariableMeaning: `normalize_variable` is not idempotent (for `cell->plasmamain[x].y` the result `plasmamain[x].y` normalises again to `y`), so no idempotence is stated.
- `source/test_cooling.c` and `source/tests/unit_test.h` are not part of this model.
