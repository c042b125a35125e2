/**
 * The top level of the analyser: it steps through the video, waits until the
 * same number of percent glyphs has been seen on enough frames to start a
 * game, and then samples one frame in every `1 + clusterSize`.
 *
 * The capture is a finite stream of reads: `stream[i]` is the frame the i-th
 * read returns, or None when that read fails. Reading past the end fails too.
 * Locating the percent glyph is an input: `glyphs(img)` lists, in row-major
 * order, the top-left corners where the percent template correlates with img
 * at or above the cutoff 0.6.
 */
module Video {
  import opened Points
  import opened Options
  import opened Game

  /** Template matching of the percent glyph, which is not modelled. */
  type GlyphMatcher = Image -> seq<Point>

  /** How many consecutive confirmations start a game. */
  const ConfirmationsNeeded: nat := 15
  /** The luminance threshold of the glyph search. */
  const SearchThreshold: nat := 20

  // ---------------------------------------------------------------------------
  // Finding the percent glyphs of a frame

  /** The first row of the bottom quarter of a frame `height` rows high. */
  function SearchTop(height: nat): nat
  {
    (height * 3) / 4
  }

  /** The bottom quarter of the frame, binarised at level 20. */
  function SearchImage(f: Frame, height: nat, width: nat): Image
  {
    Threshold(Crop(Whole(f), Point(0, SearchTop(height)), Point(width, height)), SearchThreshold)
  }

  /** Every point moved dy rows down. */
  function Shifted(points: seq<Point>, dy: int): (r: seq<Point>)
    ensures |r| == |points|
  {
    seq(|points|, i requires 0 <= i < |points| => Point(points[i].x, points[i].y + dy))
  }

  /** Moving by `(0, dy)` with the unscaled `offset` is what Shifted does. */
  lemma ShiftedIsOffset(points: seq<Point>, dy: int)
    ensures Shifted(points, dy)
         == seq(|points|, i requires 0 <= i < |points| => Offset(points[i], Point(0, dy), Unit))
  {
    forall i | 0 <= i < |points|
      ensures Offset(points[i], Point(0, dy), Unit) == Point(points[i].x, points[i].y + dy)
    {
      OffsetUnitScale(points[i], Point(0, dy), Unit);
    }
  }

  /**
   * What `_find_percents` returns: the de-duplicated matches in the bottom
   * quarter, moved down by the three quarters that were cut off.
   */
  function PercentsIn(f: Frame, height: nat, width: nat, glyphs: GlyphMatcher): seq<Point>
  {
    Shifted(Dedup(glyphs(SearchImage(f, height, width)), DefaultDistance), SearchTop(height))
  }

  /** The glyphs found on one frame are pairwise at least DefaultDistance apart. */
  lemma PercentsInSeparated(f: Frame, height: nat, width: nat, glyphs: GlyphMatcher)
    ensures Separated(PercentsIn(f, height, width, glyphs), DefaultDistance)
  {
    var d := Dedup(glyphs(SearchImage(f, height, width)), DefaultDistance);
    var r := PercentsIn(f, height, width, glyphs);
    DedupSeparated(glyphs(SearchImage(f, height, width)), DefaultDistance);
    forall i, j | 0 <= i < j < |r|
      ensures !Near(r[i], r[j], DefaultDistance)
    {
      assert SquaredDistance(r[i], r[j]) == SquaredDistance(d[i], d[j]);
      assert !Near(d[i], d[j], DefaultDistance);
    }
  }

  // ---------------------------------------------------------------------------
  // The debounce of `start_game`

  /** The locals of `start_game`: the last glyph count seen and how often it has been confirmed. */
  datatype Search = Search(playerCount: nat, confirmed: nat)

  const Fresh: Search := Search(0, 0)

  /** One frame with `found` glyphs (0 for a failed read or no detection). */
  function Step(st: Search, found: nat): Search
  {
    if found == 0 then st
    else if found == st.playerCount then Search(found, st.confirmed + 1)
    else Search(found, 0)
  }

  /** The search state after the frames with the given glyph counts, in order. */
  function Run(st: Search, counts: seq<nat>): Search
  {
    if counts == [] then st else Step(Run(st, counts[..|counts| - 1]), counts[|counts| - 1])
  }

  /** The counts of the frames on which something was detected. */
  function NonZero(counts: seq<nat>): (r: seq<nat>)
    ensures |r| <= |counts|
    ensures forall j :: 0 <= j < |r| ==> r[j] > 0
  {
    if counts == [] then []
    else
      var last := counts[|counts| - 1];
      NonZero(counts[..|counts| - 1]) + (if last == 0 then [] else [last])
  }

  /** NonZero keeps every non-zero count and invents none. */
  lemma {:induction false} NonZeroKeeps(counts: seq<nat>)
    ensures forall j :: 0 <= j < |counts| && counts[j] > 0 ==> counts[j] in NonZero(counts)
    ensures forall v :: v in NonZero(counts) ==> v in counts
  {
    if counts != [] {
      var pre := counts[..|counts| - 1];
      NonZeroKeeps(pre);
      assert forall j :: 0 <= j < |pre| ==> pre[j] == counts[j];
    }
  }

  /** How many of the last elements of s are equal to v. */
  function TrailingRun(s: seq<nat>, v: nat): (n: nat)
    ensures n <= |s|
  {
    if s == [] || s[|s| - 1] != v then 0 else TrailingRun(s[..|s| - 1], v) + 1
  }

  /** TrailingRun counts exactly the maximal equal suffix. */
  lemma {:induction false} TrailingRunSpec(s: seq<nat>, v: nat, m: nat)
    ensures TrailingRun(s, v) >= m <==> m <= |s| && forall j :: |s| - m <= j < |s| ==> s[j] == v
  {
    if s != [] && s[|s| - 1] == v && m > 0 {
      var pre := s[..|s| - 1];
      TrailingRunSpec(pre, v, m - 1);
      if m <= |s| && forall j :: |s| - m <= j < |s| ==> s[j] == v {
        assert forall j :: |pre| - (m - 1) <= j < |pre| ==> pre[j] == s[j];
      }
    }
  }

  /**
   * Starting from (0, 0), the search remembers the last non-zero count, and
   * has confirmed it one time fewer than it closes the non-zero counts: the
   * first detection always resets the counter, because no frame has 0 glyphs
   * and a detection.
   */
  lemma {:induction false} RunFromFresh(counts: seq<nat>)
    ensures var nz := NonZero(counts);
      && (nz == [] ==> Run(Fresh, counts) == Fresh)
      && (nz != [] ==> Run(Fresh, counts) == Search(nz[|nz| - 1], TrailingRun(nz, nz[|nz| - 1]) - 1))
  {
    if counts != [] {
      var pre := counts[..|counts| - 1];
      var x := counts[|counts| - 1];
      RunFromFresh(pre);
      var nz, st := NonZero(pre), Run(Fresh, pre);
      assert Run(Fresh, counts) == Step(st, x);
      if x == 0 {
        assert NonZero(counts) == nz;
      } else {
        var nz' := nz + [x];
        assert NonZero(counts) == nz';
        assert nz'[..|nz|] == nz;
        assert TrailingRun(nz', x) == TrailingRun(nz, x) + 1;
        if nz == [] {
          assert Step(st, x) == Search(x, 0);
        } else if nz[|nz| - 1] == x {
          assert Step(st, x) == Search(x, TrailingRun(nz, x));
        } else {
          assert TrailingRun(nz, x) == 0;
          assert Step(st, x) == Search(x, 0);
        }
      }
    }
  }

  /**
   * A game is confirmed exactly when the last ConfirmationsNeeded + 1 frames
   * with a detection all found the same number of glyphs, with failed reads
   * and empty frames in between ignored.
   */
  lemma StartCondition(counts: seq<nat>)
    ensures var nz := NonZero(counts);
      Run(Fresh, counts).confirmed >= ConfirmationsNeeded
      <==> && |nz| >= ConfirmationsNeeded + 1
           && forall j :: |nz| - (ConfirmationsNeeded + 1) <= j < |nz| ==> nz[j] == nz[|nz| - 1]
  {
    var nz := NonZero(counts);
    RunFromFresh(counts);
    if nz != [] {
      TrailingRunSpec(nz, nz[|nz| - 1], ConfirmationsNeeded + 1);
    }
  }

  /** Frames without a detection do not change the search. */
  lemma {:induction false} RunIgnoresEmpty(st: Search, counts: seq<nat>)
    requires forall j :: 0 <= j < |counts| ==> counts[j] == 0
    ensures Run(st, counts) == st
  {
    if counts != [] {
      RunIgnoresEmpty(st, counts[..|counts| - 1]);
    }
  }

  // ---------------------------------------------------------------------------
  // Sampling

  /** Euclidean division has one quotient: x == d * k + r with 0 <= r < k makes d the quotient. */
  lemma DivUnique(x: int, k: Positive, d: int, r: int)
    requires 0 <= r < k && x == d * k + r
    ensures x / k == d
  {
    var q := x / k;
    assert x == q * k + x % k;
    assert (q - d) * k == r - x % k;
    WholeUnits(q - d, k);
  }

  /** `(a + k) / k == a / k + 1` for a positive k. */
  lemma DivStep(a: nat, k: Positive)
    ensures (a + k) / k == a / k + 1
  {
    assert a == (a / k) * k + a % k;
    DivUnique(a + k, k, a / k + 1, a % k);
  }

  // ---------------------------------------------------------------------------
  // A new game

  /** The players of g are fresh trackers of the HUD boxes at the given glyphs of frame f, in order. */
  ghost predicate Roster(g: Game, f: Frame, percents: seq<Point>)
  {
    && |g.players| == |percents|
    && forall i :: 0 <= i < |g.players| ==>
         && g.players[i].Valid()
         && g.players[i].height == f.height
         && g.players[i].basepoint == Basepoint(percents[i], g.players[i].scale)
  }

  /** `Game([Player(frame, point) for point in percents])`. */
  method NewGame(f: Frame, percents: seq<Point>) returns (g: Game)
    ensures fresh(g) && g.Valid() && g.stats == []
    ensures forall i :: 0 <= i < |g.players| ==> fresh(g.players[i]) && g.players[i].dictionary == map[]
    ensures forall i :: 0 <= i < |g.players| ==>
      g.players[i].frame == WorkingImage(f, g.players[i].basepoint, g.players[i].endpoint)
    ensures Roster(g, f, percents)
  {
    var players: seq<Player> := [];
    for i := 0 to |percents|
      invariant |players| == i
      invariant forall k :: 0 <= k < i ==>
        && fresh(players[k]) && players[k].Valid()
        && players[k].height == f.height
        && players[k].basepoint == Basepoint(percents[k], players[k].scale)
        && players[k].dictionary == map[]
        && players[k].frame == WorkingImage(f, players[k].basepoint, players[k].endpoint)
      invariant forall k, l :: 0 <= k < l < i ==> players[k] != players[l]
    {
      var p := new Player(f, percents[i]);
      players := players + [p];
    }
    g := new Game(players);
  }

  // ---------------------------------------------------------------------------
  // The video

  class Video {
    /** `CAP_PROP_FRAME_HEIGHT` and `CAP_PROP_FRAME_WIDTH` of the capture. */
    const height: nat
    const width: nat
    /** How many frames are skipped after each sampled one. */
    const clusterSize: nat
    /** What successive reads of the capture return. */
    const stream: seq<Option<Frame>>
    /** How many reads have been made. */
    var position: nat
    /** The result of the latest read. */
    var frame: Option<Frame>
    var games: seq<Game>
    var gameInProgress: bool

    /** While a game is in progress there is a last game, whose players are distinct. */
    ghost predicate Valid()
      reads this`games, this`gameInProgress
    {
      gameInProgress ==> |games| > 0 && games[|games| - 1].Valid()
    }

    /** The objects analysing the current game may change: the last game and its players. */
    ghost function Current(): set<object>
      reads this`games
    {
      if games == [] then {}
      else
        var g := games[|games| - 1];
        {g as object} + set p | p in g.players :: p as object
    }

    /** `Video(path, cluster_size)`: no read yet, no game. */
    constructor (stream: seq<Option<Frame>>, height: nat, width: nat, clusterSize: nat)
      ensures Valid()
      ensures this.stream == stream && this.height == height && this.width == width
      ensures this.clusterSize == clusterSize
      ensures position == 0 && frame == None && games == [] && !gameInProgress
    {
      this.stream := stream;
      this.height := height;
      this.width := width;
      this.clusterSize := clusterSize;
      position := 0;
      frame := None;
      games := [];
      gameInProgress := false;
    }

    /** What read number pos returns. */
    function ReadAt(pos: nat): Option<Frame>
    {
      if pos < |stream| then stream[pos] else None
    }

    /** The number of glyphs `start_game` sees at read number pos (0 when the read fails). */
    function FoundAt(pos: nat, glyphs: GlyphMatcher): nat
    {
      match ReadAt(pos)
      case None => 0
      case Some(f) => |PercentsIn(f, height, width, glyphs)|
    }

    /** The glyph counts of the n reads starting at read number start. */
    function Counts(start: nat, n: nat, glyphs: GlyphMatcher): (c: seq<nat>)
      ensures |c| == n
    {
      if n == 0 then [] else Counts(start, n - 1, glyphs) + [FoundAt(start + n - 1, glyphs)]
    }

    /** The search state of `start_game` after the n reads starting at read number start. */
    function SearchAfter(start: nat, n: nat, glyphs: GlyphMatcher): Search
    {
      if n == 0 then Fresh else Step(SearchAfter(start, n - 1, glyphs), FoundAt(start + n - 1, glyphs))
    }

    /** The search after n reads is Run over the glyph counts of those reads. */
    lemma {:induction false} SearchAfterIsRun(start: nat, n: nat, glyphs: GlyphMatcher)
      ensures SearchAfter(start, n, glyphs) == Run(Fresh, Counts(start, n, glyphs))
    {
      if n > 0 {
        SearchAfterIsRun(start, n - 1, glyphs);
        assert Counts(start, n, glyphs)[..n - 1] == Counts(start, n - 1, glyphs);
      }
    }

    /** None of the first n search states from read number `from` on has ConfirmationsNeeded confirmations. */
    ghost predicate Unconfirmed(from: nat, n: nat, glyphs: GlyphMatcher)
    {
      forall k :: 0 <= k < n ==> SearchAfter(from, k, glyphs).confirmed < ConfirmationsNeeded
    }

    /**
     * g is the game `start_game` creates when called at read number `from`:
     * read startRead - 1 is the first to bring the confirmations to
     * ConfirmationsNeeded, it succeeded, and g has one tracker per glyph of
     * its frame.
     */
    ghost predicate StartedAt(g: Game, from: nat, startRead: nat, glyphs: GlyphMatcher)
    {
      && from < startRead
      && SearchAfter(from, startRead - from, glyphs).confirmed == ConfirmationsNeeded
      && Unconfirmed(from, startRead - from, glyphs)
      && ReadAt(startRead - 1).Some?
      && var f := ReadAt(startRead - 1).value;
         && Roster(g, f, PercentsIn(f, height, width, glyphs))
         && |g.players| == SearchAfter(from, startRead - from, glyphs).playerCount
    }

    /** How many of the reads at pos, pos + 1 + clusterSize, ... succeed. */
    function Sampled(pos: nat): nat
      decreases |stream| - pos
    {
      if pos >= |stream| then 0
      else (if stream[pos].Some? then 1 else 0) + Sampled(pos + 1 + clusterSize)
    }

    /**
     * When every read succeeds, sampling from pos visits
     * ceil((|stream| - pos) / (1 + clusterSize)) frames.
     */
    lemma {:induction false} SampledAllReads(pos: nat)
      requires pos <= |stream|
      requires forall i :: 0 <= i < |stream| ==> stream[i].Some?
      ensures Sampled(pos) == (|stream| - pos + clusterSize) / (1 + clusterSize)
      decreases |stream| - pos
    {
      var k := 1 + clusterSize;
      if pos < |stream| {
        if pos + k < |stream| {
          SampledAllReads(pos + k);
          DivStep(|stream| - (pos + k) + clusterSize, k);
        } else {
          DivUnique(|stream| - pos + clusterSize, k, 1, |stream| - pos - 1);
        }
      }
    }

    /**
     * The snapshots that sampling from read pos to the end of the stream
     * appends to game g: one for every read at pos, pos + 1 + clusterSize, ...
     * that succeeds, holding every player's reading of that frame.
     */
    ghost function History(g: Game, pos: nat, matches: DigitMatcher): (h: seq<seq<Stats>>)
      ensures |h| == Sampled(pos)
      decreases |stream| - pos
    {
      if pos >= |stream| then []
      else
        var now := match stream[pos] case None => [] case Some(f) => [g.SnapshotAfter(f, matches)];
        now + History(g, pos + 1 + clusterSize, matches)
    }

    /** One sampled read: its snapshot, if the read succeeds, followed by the rest of the history. */
    lemma HistoryStep(g: Game, pos: nat, matches: DigitMatcher, stats: seq<seq<Stats>>)
      requires pos < |stream|
      ensures stream[pos].None? ==>
        stats + History(g, pos + 1 + clusterSize, matches) == stats + History(g, pos, matches)
      ensures stream[pos].Some? ==>
        (stats + [g.SnapshotAfter(stream[pos].value, matches)]) + History(g, pos + 1 + clusterSize, matches)
        == stats + History(g, pos, matches)
    {
      var rest := History(g, pos + 1 + clusterSize, matches);
      if stream[pos].Some? {
        var now := [g.SnapshotAfter(stream[pos].value, matches)];
        assert History(g, pos, matches) == now + rest;
        assert (stats + now) + rest == stats + (now + rest);
      } else {
        assert History(g, pos, matches) == [] + rest;
      }
    }

    /** `_next_frame`: one read; the latest frame becomes its result. */
    method NextFrame() returns (ok: bool)
      modifies this`position, this`frame
      ensures position == old(position) + 1
      ensures frame == ReadAt(old(position))
      ensures ok <==> frame.Some?
    {
      frame := ReadAt(position);
      position := position + 1;
      ok := frame.Some?;
    }

    /** `_find_percents`: the percent glyphs of the latest frame, in frame coordinates. */
    method FindPercents(glyphs: GlyphMatcher) returns (percents: seq<Point>)
      requires frame.Some?
      ensures percents == PercentsIn(frame.value, height, width, glyphs)
    {
      var img := SearchImage(frame.value, height, width);
      var croppedOffset := Point(0, (height * 3) / 4);
      var croppedPoints := RemoveNeighbors(glyphs(img), DefaultDistance);
      percents := seq(|croppedPoints|, i requires 0 <= i < |croppedPoints| => Offset(croppedPoints[i], croppedOffset, Unit));
      ShiftedIsOffset(croppedPoints, SearchTop(height));
    }

    /**
     * The loop of `start_game`: read frames until the same non-zero number of
     * glyphs has been confirmed 15 times in a row. The search state after
     * every read is Run over the glyph counts read so far, and the loop stops
     * at the first read that brings the confirmations to 15, with that frame
     * and its glyphs at hand. When the stream runs out first, nothing is
     * confirmed.
     */
    method AwaitPlayers(glyphs: GlyphMatcher) returns (confirmed: bool, percents: seq<Point>)
      modifies this`position, this`frame
      ensures old(position) <= position
      ensures var st := SearchAfter(old(position), position - old(position), glyphs);
        confirmed <==> st.confirmed == ConfirmationsNeeded
      ensures forall n :: 0 <= n < position - old(position) ==>
        SearchAfter(old(position), n, glyphs).confirmed < ConfirmationsNeeded
      ensures !confirmed ==> position >= |stream|
      ensures !confirmed ==> forall n :: 0 <= n <= position - old(position) ==>
        SearchAfter(old(position), n, glyphs).confirmed < ConfirmationsNeeded
      ensures confirmed ==>
        && position > old(position)
        && frame == ReadAt(position - 1) && frame.Some?
        && percents == PercentsIn(frame.value, height, width, glyphs)
        && |percents| == SearchAfter(old(position), position - old(position), glyphs).playerCount
    {
      var playerCount: nat, confirmedCount: nat := 0, 0;
      percents := [];
      ghost var start := position;
      while confirmedCount < ConfirmationsNeeded && position < |stream|
        invariant start <= position
        invariant position > start ==> position <= |stream| && frame == ReadAt(position - 1)
        invariant Search(playerCount, confirmedCount) == SearchAfter(start, position - start, glyphs)
        invariant forall n :: 0 <= n < position - start ==>
          SearchAfter(start, n, glyphs).confirmed < ConfirmationsNeeded
        invariant confirmedCount <= ConfirmationsNeeded
        invariant confirmedCount == ConfirmationsNeeded ==>
          && frame.Some? && percents == PercentsIn(frame.value, height, width, glyphs)
          && playerCount == |percents|
        decreases |stream| - position
      {
        ghost var before := Search(playerCount, confirmedCount);
        var ok := NextFrame();
        if ok {
          percents := FindPercents(glyphs);
          if |percents| > 0 {
            if playerCount == |percents| {
              confirmedCount := confirmedCount + 1;
            } else {
              confirmedCount := 0;
            }
            playerCount := |percents|;
          }
        }
      }
      confirmed := confirmedCount == ConfirmationsNeeded;
    }

    /**
     * `start_game`: wait for the players, then append a game with one player
     * per glyph of the confirming frame and mark it in progress. When the
     * stream runs out first, no game starts and nothing but the reads changes.
     */
    method StartGame(glyphs: GlyphMatcher) returns (started: bool)
      requires Valid()
      modifies this
      ensures Valid()
      ensures old(position) <= position
      ensures var st := SearchAfter(old(position), position - old(position), glyphs);
        started <==> st.confirmed == ConfirmationsNeeded
      ensures forall n :: 0 <= n < position - old(position) ==>
        SearchAfter(old(position), n, glyphs).confirmed < ConfirmationsNeeded
      ensures !started ==> position >= |stream|
      ensures !started ==> forall n :: 0 <= n <= position - old(position) ==>
        SearchAfter(old(position), n, glyphs).confirmed < ConfirmationsNeeded
      ensures !started ==> games == old(games) && gameInProgress == old(gameInProgress)
      ensures started ==>
        && gameInProgress && position > old(position)
        && frame == ReadAt(position - 1) && frame.Some?
        && |games| == |old(games)| + 1
        && games[..|old(games)|] == old(games)
        && fresh(Current())
      ensures started ==>
        var g := games[|games| - 1];
        && g.stats == []
        && Roster(g, frame.value, PercentsIn(frame.value, height, width, glyphs))
        && |g.players| == SearchAfter(old(position), position - old(position), glyphs).playerCount
      ensures started ==>
        var g := games[|games| - 1];
        forall i :: 0 <= i < |g.players| ==>
          && g.players[i].dictionary == map[]
          && g.players[i].frame == WorkingImage(frame.value, g.players[i].basepoint, g.players[i].endpoint)
    {
      var percents;
      started, percents := AwaitPlayers(glyphs);
      if started {
        var g := NewGame(frame.value, percents);
        games := games + [g];
        gameInProgress := true;
      }
    }

    /**
     * `analyze_game`: read one frame and, when the read succeeds, let the
     * current game take it and append one snapshot; then skip clusterSize
     * frames. Only the last game changes.
     */
    method AnalyzeGame(matches: DigitMatcher)
      requires Valid() && gameInProgress
      modifies this`position, this`frame, games[|games| - 1], games[|games| - 1].players
      ensures Valid() && gameInProgress && games == old(games)
      ensures position == old(position) + 1 + clusterSize
      ensures frame == ReadAt(position - 1)
      ensures var g := games[|games| - 1];
        ReadAt(old(position)).None? ==>
          && g.stats == old(g.stats)
          && forall i :: 0 <= i < |g.players| ==>
               && g.players[i].frame == old(g.players[i].frame)
               && g.players[i].dictionary == old(g.players[i].dictionary)
      ensures var g := games[|games| - 1];
        ReadAt(old(position)).Some? ==>
          && g.stats == old(g.stats) + [g.SnapshotAfter(ReadAt(old(position)).value, matches)]
          && forall i :: 0 <= i < |g.players| ==>
               && g.players[i].frame
                  == WorkingImage(ReadAt(old(position)).value, g.players[i].basepoint, g.players[i].endpoint)
               && g.players[i].Analyzed(matches)
    {
      var g := games[|games| - 1];
      var ok := NextFrame();
      if ok {
        g.UpdateFrame(frame.value);
        g.Analyze(matches);
        assert g.stats[|g.stats| - 1] == g.SnapshotAfter(frame.value, matches);
      }
      for x := 0 to clusterSize
        invariant position == old(position) + 1 + x
        invariant frame == ReadAt(position - 1)
        modifies this`position, this`frame
      {
        ok := NextFrame();
      }
    }

    /**
     * The first loop of `analyze`: call `start_game` until a game is in
     * progress. Only the stream running out ends it without a game. When a
     * game starts here, startRead is the number of reads made when the
     * debounce confirmed it.
     */
    method SearchPhase(glyphs: GlyphMatcher) returns (ghost startRead: nat)
      requires Valid()
      modifies this
      ensures Valid()
      ensures position >= old(position)
      ensures gameInProgress || position >= |stream|
      ensures old(gameInProgress) ==>
        gameInProgress && games == old(games) && position == old(position)
      ensures !gameInProgress ==>
        games == old(games) && Unconfirmed(old(position), position - old(position) + 1, glyphs)
      ensures !old(gameInProgress) && gameInProgress ==>
        && startRead == position
        && |games| == |old(games)| + 1 && games[..|old(games)|] == old(games)
        && fresh(Current())
        && StartedAt(games[|games| - 1], old(position), startRead, glyphs)
        && games[|games| - 1].stats == []
    {
      startRead := 0;
      while !gameInProgress && position < |stream|
        invariant Valid()
        invariant position >= old(position)
        invariant old(gameInProgress) ==>
          gameInProgress && games == old(games) && position == old(position)
        invariant !gameInProgress ==>
          && games == old(games)
          && (position == old(position) || position >= |stream|)
          && Unconfirmed(old(position), position - old(position) + 1, glyphs)
        invariant !old(gameInProgress) && gameInProgress ==>
          && startRead == position
          && |games| == |old(games)| + 1 && games[..|old(games)|] == old(games)
          && fresh(Current())
          && StartedAt(games[|games| - 1], old(position), startRead, glyphs)
          && games[|games| - 1].stats == []
        decreases |stream| - position, if gameInProgress then 0 else 1
      {
        var started := StartGame(glyphs);
        if started {
          startRead := position;
        }
      }
    }

    /**
     * The second loop of `analyze`: call `analyze_game` while a game is in
     * progress, up to the end of the stream. The game gains exactly the
     * snapshots of the sampled reads from here on.
     */
    method GamePhase(matches: DigitMatcher)
      requires Valid()
      modifies this`position, this`frame, Current()
      ensures Valid()
      ensures games == old(games) && gameInProgress == old(gameInProgress)
      ensures gameInProgress ==> position >= old(position) && position >= |stream|
      ensures !gameInProgress ==> position == old(position)
      ensures gameInProgress ==>
        games[|games| - 1].stats
        == old(games[|games| - 1].stats) + History(games[|games| - 1], old(position), matches)
    {
      if !gameInProgress {
        return;
      }
      var g := games[|games| - 1];
      while position < |stream|
        invariant Valid() && gameInProgress && games == old(games)
        invariant position >= old(position)
        invariant Current() == old(Current())
        invariant g.stats + History(g, position, matches) == old(g.stats) + History(g, old(position), matches)
        decreases |stream| - position
      {
        forall p | p in g.players
          ensures p in old(Current())
        {
          assert p as object in Current();
        }
        HistoryStep(g, position, matches, g.stats);
        AnalyzeGame(matches);
      }
    }

    /**
     * `analyze`: look for a game until one starts, then analyse it. The
     * source loops for ever once the capture runs dry; here both phases end
     * with the stream, and a game once started is never stopped. When a game
     * starts during this call, startRead is the number of reads made when the
     * debounce confirmed it.
     */
    method Analyze(glyphs: GlyphMatcher, matches: DigitMatcher) returns (ghost startRead: nat)
      requires Valid()
      modifies this, Current()
      ensures Valid()
      ensures position >= old(position) && position >= |stream|
      ensures old(gameInProgress) ==>
        && gameInProgress && games == old(games)
        && games[|games| - 1].stats
           == old(games[|games| - 1].stats) + History(games[|games| - 1], old(position), matches)
      ensures !gameInProgress ==>
        games == old(games) && Unconfirmed(old(position), position - old(position) + 1, glyphs)
      ensures !old(gameInProgress) && gameInProgress ==>
        && |games| == |old(games)| + 1 && games[..|old(games)|] == old(games)
        && StartedAt(games[|games| - 1], old(position), startRead, glyphs)
        && games[|games| - 1].stats == History(games[|games| - 1], startRead, matches)
    {
      startRead := SearchPhase(glyphs);
      forall o | o in Current()
        ensures o in old(Current()) || fresh(o)
      {
      }
      GamePhase(matches);
    }
  }
}
