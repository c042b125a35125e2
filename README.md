# smashstats in Dafny

smashstats reads a recorded Super Smash Bros. match and extracts each player's
damage percentage from the heads-up display (HUD). The analyser has two phases:

- **Searching.** It looks for the percent glyphs in the bottom quarter of
  every frame. It waits until 16 consecutive detections find the same non-zero
  number of glyphs, which is 15 confirmations. It then creates one player
  tracker per glyph.
- **In game.** It samples one frame in every `1 + cluster_size`. Each tracker
  crops and binarises its HUD box, reads the ones, tens and hundreds digits by
  template matching, and combines them into a percent. The game appends a
  snapshot of all players' readings to its history.

This project models that core:

- `points.dfy` (module `Points`) covers the pixel geometry:
  - rounding offsets and scalings;
  - the Euclidean neighbourhood test;
  - the greedy, first-seen-wins de-duplication of match positions.
- `game.dfy` (module `Game`) covers the player tracker (class `Player`) and the
  game that owns the trackers (class `Game`):
  - the layout arithmetic of the HUD box and the digit boxes;
  - digit identification;
  - the digit combination.
- `video.dfy` (module `Video`) covers the capture driver (class `Video`):
  - the debounce that starts a game;
  - the glyph search;
  - the sampling loop.
- `options.dfy` holds the `Option` type. It stands for Python's `None`.

The floating-point factor `height / 1080.0` is modelled as the exact rational
`height / 1080`. Python's `int(round(v))` is written out as round-half-to-even
on that rational.

Pixels are not modelled. A frame is known by its index and shape. The images
derived from it are terms: crops and thresholds of a frame. Template matching
is a function parameter:

- `matches(img, x)` gives the number of positions where digit x matches;
- `glyphs(img)` gives the positions where the percent glyph matches.

The capture is a finite sequence of read results. A read past its end fails,
as the capture does.

The digit combination is modelled as written: it tests the digits for
truthiness, so a 0 digit counts as absent. A ones digit of 0 (10%, 100%) is
returned on its own, so the reading is 0. A tens digit of 0 drops the tens
and the hundreds (105% reads as 5). `Game.CombineExamples` exhibits both
cases.

The game phase reads one frame and then skips `cluster_size` more. When every
read of a stream of N reads succeeds, sampling from read number p therefore
visits `ceil((N - p) / (1 + cluster_size))` frames (`Video.Video.SampledAllReads`).

## Model

| member | source | states |
|---|---|---|
| Points.RoundHalfEven | smashstats/points.py:13 | definition of `int(round(n / d))` on the exact rational: the nearest integer, ties to the even one; Points.RoundNearest and Points.RoundExact state its properties |
| Points.RoundNearest | smashstats/points.py:13 | `int(round(n / d))` is within half a unit of n / d, and is even on an exact tie |
| Points.RoundExact | smashstats/points.py:19 | rounding a whole number gives it back |
| Points.Offset | smashstats/points.py:9-13 | definition of `offset`: point1 + point2 * scale, each coordinate rounded half to even; its properties are in the Offset* lemmas |
| Points.ScalePoint | smashstats/points.py:15-19 | definition of `scale_point`: point * scale, each coordinate rounded half to even; its properties are in the ScalePoint* lemmas |
| Points.Near | smashstats/points.py:29 | definition of the test `euclid_distance(point, chosen_point) < distance`, on squares; Points.NearIsEuclidean ties it to the square root |
| Points.OffsetNearest | smashstats/points.py:9-13 | each coordinate of `offset` is within half a pixel of point1 + point2 * scale |
| Points.OffsetUnitScale | smashstats/points.py:9-13 | at a factor of one, `offset` is exact component-wise addition |
| Points.OffsetByZero | smashstats/points.py:9-13 | offsetting by (0, 0) returns the point, at every factor |
| Points.ScalePointNearest | smashstats/points.py:15-19 | each coordinate of `scale_point` is within half a pixel of point * scale |
| Points.ScalePointUnit | smashstats/points.py:15-19 | at a factor of one, `scale_point` is the identity |
| Points.RoundMonotone | smashstats/points.py:19 | rounding to the nearest integer never reverses an order |
| Points.ScaleMonotone | smashstats/points.py:15-19 | `scale_point` by a non-negative factor never reverses an order of x coordinates |
| Points.SquaredDistance | smashstats/points.py:3-7 | the squared distance is zero exactly for equal points |
| Points.DistanceToSelf | smashstats/points.py:3-7 | a point is at distance 0 from itself |
| Points.DistanceSymmetric | smashstats/points.py:3-7 | the distance does not depend on argument order |
| Points.NearIsEuclidean | smashstats/points.py:29 | the integer test on squares agrees with `sqrt(dx^2 + dy^2) < distance` for every distance, including non-positive ones |
| Points.NearSymmetric | smashstats/points.py:29 | nearness is symmetric |
| Points.Dedup | smashstats/points.py:21-33 | `remove_neighbors` never returns more points than it was given |
| Points.DedupIsSubsequence | smashstats/points.py:25-33 | the result is the input at strictly increasing positions, in input order |
| Points.DedupPrefix | smashstats/points.py:26-32 | the result for a prefix of the input is a prefix of the result, for the points and their positions |
| Points.DedupSeparated | smashstats/points.py:26-32 | any two kept points are at least `distance` apart |
| Points.DedupCovers | smashstats/points.py:26-32 | every input point is kept, or is near a point kept from an earlier position |
| Points.DedupKeepsFirst | smashstats/points.py:25-32 | the first point of a non-empty input is always kept |
| Points.DedupNonPositiveDistance | smashstats/points.py:21-33 | with a radius of zero or less the input comes back unchanged |
| Points.DedupOfSeparated | smashstats/points.py:21-33 | an input whose points are pairwise separated comes back unchanged |
| Points.DedupIdempotent | smashstats/points.py:21-33 | applying `remove_neighbors` to its own output changes nothing |
| Points.RemoveNeighbors | smashstats/points.py:21-33 | the nested loops compute exactly the greedy first-seen-wins selection |
| Game.ScaleOf | smashstats/game.py:42 | the factor is taken relative to the 1080-row reference: its denominator is 1080 |
| Game.Basepoint | smashstats/game.py:86-91 | definition of `_calculate_basepoint`: the glyph point moved by minus PERCENT_OFFSET at the factor; Game.ReferenceBox gives its value at 1080 rows |
| Game.Endpoint | smashstats/game.py:45 | definition of the endpoint: the basepoint moved by SIZE at the factor; Game.ReferenceBox gives its value at 1080 rows |
| Game.DigitSize | smashstats/game.py:105-109 | definition of `digit_size`; Game.ReferenceSizes gives its value at 1080 rows |
| Game.OnesOffset | smashstats/game.py:111-115 | definition of `ones_offset`; Game.ReferenceSizes and Game.DigitBoxesInOrder state its value and position |
| Game.TruncatedFive | smashstats/game.py:121 | definition of `int(5 * scale)`: the factor is not negative, so truncation is the floor of 5 * height / 1080 |
| Game.DigitPitch | smashstats/game.py:121 | definition of the pitch `(DIGIT_SIZE[0] * 9) // 10 - int(5 * scale)`; Game.PitchNonNegative and Game.ReferenceDigitOffsets state its sign and reference value |
| Game.TensOffset | smashstats/game.py:117-122 | definition of `tens_offset`; Game.DigitRowUnscaled, Game.ReferenceDigitOffsets and Game.DigitBoxesInOrder state its properties |
| Game.HundredsOffset | smashstats/game.py:124-129 | definition of `hundreds_offset`; Game.DigitRowUnscaled, Game.ReferenceDigitOffsets and Game.DigitBoxesInOrder state its properties |
| Game.DigitRowUnscaled | smashstats/game.py:117-129 | the tens and hundreds bases are the ones offset moved one and two pitches left on the same row, and all three scaled boxes share a row |
| Game.PitchNonNegative | smashstats/game.py:121 | below 13824 rows, `63 - int(5 * scale)` is not negative |
| Game.DigitBoxesInOrder | smashstats/game.py:111-129 | below 13824 rows, the hundreds, tens and ones boxes lie left to right in that order |
| Game.BoxSize | smashstats/game.py:93-97 | definition of `Player.size`: SIZE scaled by the factor; Game.ReferenceSizes gives its value at 1080 rows |
| Game.PercentOffset | smashstats/game.py:99-103 | definition of `Player.percent_offset`: PERCENT_OFFSET scaled by the factor; Game.ReferenceSizes gives its value at 1080 rows |
| Game.ReferenceBox | smashstats/game.py:86-91 | at 1080 rows the HUD box starts at the glyph point minus (290, 100) and measures 325 x 195 |
| Game.ReferenceSizes | smashstats/game.py:93-115 | at 1080 rows, size, percent_offset, digit_size and ones_offset are the reference constants |
| Game.ReferenceDigitOffsets | smashstats/game.py:117-129 | at 1080 rows the pitch is 58 and the tens and hundreds boxes start at (155, 47) and (97, 47) |
| Game.ReferencePitchIsEqual | smashstats/game.py:117-129 | at 1080 rows the three digit boxes are equally spaced |
| Game.WorkingImage | smashstats/game.py:64-66 | definition of the image `update_frame` stores: the HUD box from basepoint to endpoint cut out of the frame, converted to grey and thresholded at 40 |
| Game.DigitBox | smashstats/game.py:147-159 | definition of a digit box: the working image cut from the box offset to that offset plus the digit size |
| Game.MatchCounts | smashstats/game.py:76-80 | the probability list holds one count per digit template, in digit order |
| Game.FirstMax | smashstats/game.py:81-83 | the position returned lies inside the list |
| Game.FirstMaxIsFirstArgmax | smashstats/game.py:81-83 | `probability.index(max(probability))` is a maximal count, and no earlier count reaches it |
| Game.BestDigit | smashstats/game.py:81-84 | definition of the result of `identify_digit` from its counts; Game.BestDigitSpec states what it is |
| Game.BestDigitSpec | smashstats/game.py:72-84 | `identify_digit` gives None exactly when no template matched; otherwise it gives a digit below 10 with a maximal count, strictly above every smaller digit's count |
| Game.FirstMaxUnique | smashstats/game.py:81-83 | a count that is maximal and strictly above every earlier count is the one `index(max(...))` finds |
| Game.IdentifyDigit | smashstats/game.py:72-84 | the loop, `max` and `index` compute exactly BestDigit of the match counts |
| Game.CombineDigits | smashstats/game.py:141-145 | definition of the digit combination of `percent`; Game.CombineDigitsDecimal, Game.CombineFalsy and Game.CombineExamples state what it gives |
| Game.CombineDigitsDecimal | smashstats/game.py:141-145 | the combined reading is None exactly when the ones digit is. Read as a decimal, it ends in the ones digit. It carries the tens digit exactly when ones and tens are truthy, and the hundreds digit exactly when all three are |
| Game.CombineFalsy | smashstats/game.py:141 | when ones or tens is falsy, the ones reading is returned unchanged |
| Game.CombineExamples | smashstats/game.py:141-145 | 5, 24 and 115 read correctly; 105 reads as 5 and 10 reads as 0 because a 0 digit is falsy |
| Game.DigitReadings | smashstats/game.py:147-159 | one digit is read per digit box |
| Game.ReadingDigits | smashstats/game.py:135-140 | the reading classifies the ones, tens and hundreds boxes, in that order |
| Game.Reading | smashstats/game.py:131-159 | definition of the value of `percent` for a working image: the three digit boxes identified and combined; Game.Player.Percent computes it |
| Game.Player.constructor | smashstats/game.py:36-47 | a new tracker has an empty stats mapping. Its box is placed from the glyph point at the factor of the frame height, and its working image is the cropped and binarised base frame |
| Game.Player.UpdateFrame | smashstats/game.py:63-67 | the working image becomes the HUD box of the new frame, cropped and thresholded at 40 |
| Game.Player.OnesFrame | smashstats/game.py:147-149 | definition of `ones_frame`: the digit box at the ones offset of the current working image |
| Game.Player.TensFrame | smashstats/game.py:151-154 | definition of `tens_frame`: the digit box at the tens offset of the current working image |
| Game.Player.HundredsFrame | smashstats/game.py:156-159 | definition of `hundreds_frame`: the digit box at the hundreds offset of the current working image |
| Game.Player.Percent | smashstats/game.py:131-145 | the method's reading is the combination of the three identified digit boxes |
| Game.Player.Analyze | smashstats/game.py:69-70 | the stats mapping becomes exactly `{'percent': reading}` |
| Game.Game.constructor | smashstats/game.py:11-13 | a game keeps its roster and starts with an empty history |
| Game.Game.UpdateFrame | smashstats/game.py:20-22 | every player takes the new frame; no stats mapping changes |
| Game.Game.AnalyzePlayers | smashstats/game.py:16-17 | every player's mapping holds the reading of its own working image; no working image changes |
| Game.Game.Snapshot | smashstats/game.py:18 | the snapshot lists every player's mapping, in player order |
| Game.Game.SnapshotAfter | smashstats/game.py:15-18 | definition of the snapshot `analyze` records once every player has taken a frame: one `{'percent': reading}` per player, in player order; its length is the number of players |
| Game.Game.Analyze | smashstats/game.py:15-18 | the history grows by exactly one snapshot of every player's fresh reading, in player order; earlier snapshots stay unchanged |
| Video.Shifted | smashstats/video.py:109 | shifting keeps the number of points |
| Video.ShiftedIsOffset | smashstats/video.py:108-109 | adding the crop offset with the unscaled `offset` moves every point down by that many rows |
| Video.SearchTop | smashstats/video.py:97-98 | definition of the first row of the bottom quarter, `(height * 3) // 4`, which is also the vertical offset added back |
| Video.SearchImage | smashstats/video.py:97-100 | definition of the image searched for glyphs: rows from SearchTop to the height, full width, grey and thresholded at 20 |
| Video.PercentsIn | smashstats/video.py:91-110 | definition of the result of `_find_percents`: the de-duplicated matches of the bottom quarter, moved down by the rows cut off; Video.PercentsInSeparated and Video.Video.FindPercents state its properties |
| Video.PercentsInSeparated | smashstats/video.py:91-110 | the glyphs found on one frame are pairwise at least 5 pixels apart |
| Video.NonZero | smashstats/video.py:59-62 | the counts kept are all positive, and there are no more of them than counts read |
| Video.NonZeroKeeps | smashstats/video.py:59-62 | every positive count read is kept, and every kept count was read |
| Video.Step | smashstats/video.py:60-68 | definition of one pass of the `start_game` loop body on its counters; Video.RunIgnoresEmpty and Video.RunFromFresh state its effect |
| Video.Run | smashstats/video.py:56-68 | definition of the `start_game` counters after a sequence of glyph counts; Video.RunFromFresh and Video.StartCondition state what they hold |
| Video.TrailingRun | smashstats/video.py:64-67 | a run of equal counts is never longer than the list |
| Video.TrailingRunSpec | smashstats/video.py:64-67 | the run length counts exactly the maximal suffix of equal counts |
| Video.RunFromFresh | smashstats/video.py:56-68 | from (0, 0), the search holds the last detected count, confirmed one time fewer than the length of its trailing run |
| Video.StartCondition | smashstats/video.py:56-68 | 15 confirmations happen exactly when the last 16 detections found the same number of glyphs |
| Video.RunIgnoresEmpty | smashstats/video.py:59-62 | failed reads and frames without a glyph leave the search unchanged |
| Video.NewGame | smashstats/video.py:69 | the new game has no history and one fresh, empty tracker per glyph, in glyph order, placed from that glyph on the confirming frame, whose working image is that frame's HUD box |
| Video.Video.constructor | smashstats/video.py:16-27 | a new driver has made no read, holds no frame and no game, and no game is in progress |
| Video.Video.FoundAt | smashstats/video.py:57-60 | definition of the number of glyphs `start_game` sees at one read: `len(percents)` when the read succeeds, 0 when it fails |
| Video.Video.SearchAfter | smashstats/video.py:56-68 | definition of the locals `player_count` and `confirmed_count` of `start_game` after n reads, one Video.Step per read; Video.Video.SearchAfterIsRun ties it to Video.Run |
| Video.Video.Sampled | smashstats/video.py:73-80 | definition of the number of successful reads `analyze_game` samples from a read on, one read in every 1 + cluster_size; Video.Video.SampledAllReads gives it in closed form |
| Video.Video.SearchAfterIsRun | smashstats/video.py:56-68 | the search state after n reads is the debounce run over the glyph counts of those reads |
| Video.Video.SampledAllReads | smashstats/video.py:73-80 | when every read succeeds, sampling from read p visits `ceil((N - p) / (1 + cluster_size))` frames |
| Video.Video.History | smashstats/video.py:73-80 | definition of the snapshots sampling appends from a read on: one SnapshotAfter per successful read at p, p + 1 + cluster_size, ...; its length is Video.Video.Sampled of that read |
| Video.Video.HistoryStep | smashstats/video.py:73-80 | one sampled read contributes its snapshot, if it succeeds, ahead of the rest of the history |
| Video.Video.NextFrame | smashstats/video.py:29-40 | one read is made; the latest frame is its result, and the method reports whether it succeeded |
| Video.Video.FindPercents | smashstats/video.py:91-110 | the result is the de-duplicated glyph matches of the bottom quarter, moved down by the rows cut off |
| Video.Video.AwaitPlayers | smashstats/video.py:56-68 | the loop stops at the first read that reaches 15 confirmations, holding that read's frame and glyphs. Otherwise it stops only when the stream is exhausted, and no search state along the way reached 15 |
| Video.Video.StartGame | smashstats/video.py:52-71 | at the first read reaching 15 confirmations, one new game is appended and marked in progress. It has an empty history and a tracker per glyph of that read's frame; each tracker has an empty mapping and that frame's HUD box as working image. If no read reaches 15, the games and the flag are unchanged |
| Video.Video.AnalyzeGame | smashstats/video.py:73-80 | exactly 1 + cluster_size reads are made. A successful first read gives every player of the last game that frame, and appends exactly the snapshot of their readings of it. A failed first read changes no player and no history |
| Video.Video.SearchPhase | smashstats/video.py:47-48 | `start_game` is called until a game is in progress. If a game starts, it is appended at the first read reaching 15 confirmations, with the roster of that frame. Otherwise no search state reached 15 before the stream ran out |
| Video.Video.GamePhase | smashstats/video.py:49-50 | while a game is in progress, its history grows by exactly the snapshots of the sampled reads up to the end of the stream |
| Video.Video.Analyze | smashstats/video.py:42-50 | Covers three cases. A game already in progress gains exactly the sampled history from the current read. A game that starts is the one `start_game` creates at the first read reaching 15 confirmations, and its history is exactly the sampled history from the read after the confirming one. If no game starts, no search state reached 15 |

## Left out

- Pixels, colour conversion, thresholding and `cv2.matchTemplate` are not modelled. Images are terms, and match counts and glyph positions are function parameters.
- Template loading is not modelled. This covers `init_templates`, the `percent_template` property and the files they read.
- Logging and the two `print` calls are not modelled.
- The `imshow`/`waitKey` preview and its `exit(0)` on a key press are not modelled. They depend on a user at a keyboard.
- The capture is a finite sequence of read results. The frame rate and the path are not modelled.
- Floating point is not modelled: the factor `height / 1080.0` is an exact rational, so the representation error of the float is absent.
- Video.Video.Analyze: the source loops for ever once the capture is exhausted, because `start_game` keeps reading failed frames and `analyze_game` never clears the in-progress flag. The model stops both phases at the end of the stream.
- Video.Video.AwaitPlayers: this shares the stop at the end of the stream. Its contract says nothing is confirmed in that case, where the source would keep reading.
- Game.Player.constructor: the digit layout is computed once, as a constant of the tracker. The source recomputes it on every call, from the same constant factor, so it gives the same values.
- `Player.size` and `Player.percent_offset` are modelled as Game.BoxSize and Game.PercentOffset. The source never calls them, so only their reference values are proved (Game.ReferenceSizes).
- Video.Video.constructor: `cluster_size` is a natural number. The source also accepts a negative value, for which `range(0, cluster_size)` skips no frame; negative strides are not modelled.
