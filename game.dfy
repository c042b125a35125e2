/**
 * The per-player HUD tracker and the game that aggregates the players.
 *
 * Pixels are not modelled. A video frame is known by its position in the
 * stream and its shape; the images the tracker derives from it are terms
 * (crops and grey-scale thresholds of a frame), and template matching is an
 * input: `matches(img, x)` is the number of positions where the template of
 * digit x correlates with img at or above the cutoff 0.7.
 */
module Game {
  import opened Points
  import opened Options

  /** A decoded video frame: its index in the stream and its shape. */
  datatype Frame = Frame(index: nat, height: nat, width: nat)

  /** Images derived from a frame: `img[top.y:bottom.y, top.x:bottom.x]`, and grey-scale binary thresholds. */
  datatype Image =
    | Whole(frame: Frame)
    | Crop(source: Image, top: Point, bottom: Point)
    | Threshold(source: Image, level: nat)

  /** Template matching of the ten digit templates, which is not modelled. */
  type DigitMatcher = (Image, nat) -> nat

  /** A stats mapping such as `{'percent': 115}`. */
  type Stats = map<string, Option<nat>>

  // Layout constants at the 1080-row reference resolution.
  const HudSize: Point := Point(325, 195)
  const PercentGlyphOffset: Point := Point(290, 100)
  const DigitSizeRef: Point := Point(70, 80)
  const OnesOffsetRef: Point := Point(213, 47)
  const ReferenceHeight: Positive := 1080
  /** The luminance threshold applied to a player's crop. */
  const PlayerThreshold: nat := 40

  /** `height / 1080.0`. */
  function ScaleOf(height: nat): (s: Scale)
    ensures s.den == ReferenceHeight
  {
    Scale(height, ReferenceHeight)
  }

  // ---------------------------------------------------------------------------
  // Layout arithmetic of a player's HUD box (all relative to the factor s)

  /** `_calculate_basepoint`: the top-left of the HUD box, up and left of the percent glyph. */
  function Basepoint(percentPoint: Point, s: Scale): Point
  {
    Offset(percentPoint, Point(-PercentGlyphOffset.x, -PercentGlyphOffset.y), s)
  }

  /** The bottom-right of the HUD box. */
  function Endpoint(basepoint: Point, s: Scale): Point
  {
    Offset(basepoint, HudSize, s)
  }

  /** `Player.size`. */
  function BoxSize(s: Scale): Point
  {
    ScalePoint(HudSize, s)
  }

  /** `Player.percent_offset`. */
  function PercentOffset(s: Scale): Point
  {
    ScalePoint(PercentGlyphOffset, s)
  }

  /** `Player.digit_size`. */
  function DigitSize(s: Scale): Point
  {
    ScalePoint(DigitSizeRef, s)
  }

  /** `Player.ones_offset`. */
  function OnesOffset(s: Scale): Point
  {
    ScalePoint(OnesOffsetRef, s)
  }

  /** `int(5 * scale)`: the factor is never negative, so truncation is the floor. */
  function TruncatedFive(s: Scale): nat
  {
    (5 * s.num) / s.den
  }

  /** The unscaled horizontal distance between neighbouring digit boxes. */
  function DigitPitch(s: Scale): int
  {
    (DigitSizeRef.x * 9) / 10 - TruncatedFive(s)
  }

  /** `Player.tens_offset`: the ones offset moved one pitch left, then scaled. */
  function TensOffset(s: Scale): Point
  {
    ScalePoint(Offset(OnesOffsetRef, Point(-DigitPitch(s), 0), Unit), s)
  }

  /** `Player.hundreds_offset`: the ones offset moved two pitches left, then scaled. */
  function HundredsOffset(s: Scale): Point
  {
    ScalePoint(Offset(OnesOffsetRef, Point(-(DigitPitch(s) * 2), 0), Unit), s)
  }

  /** The three digit boxes share a row and sit one pitch apart before scaling. */
  lemma DigitRowUnscaled(s: Scale)
    ensures Offset(OnesOffsetRef, Point(-DigitPitch(s), 0), Unit)
         == Point(OnesOffsetRef.x - DigitPitch(s), OnesOffsetRef.y)
    ensures Offset(OnesOffsetRef, Point(-(DigitPitch(s) * 2), 0), Unit)
         == Point(OnesOffsetRef.x - 2 * DigitPitch(s), OnesOffsetRef.y)
    ensures OnesOffset(s).y == TensOffset(s).y == HundredsOffset(s).y
  {
    OffsetUnitScale(OnesOffsetRef, Point(-DigitPitch(s), 0), Unit);
    OffsetUnitScale(OnesOffsetRef, Point(-(DigitPitch(s) * 2), 0), Unit);
  }

  /** Below 13824 rows `int(5 * scale)` is at most 63, so the pitch is not negative. */
  lemma PitchNonNegative(height: nat)
    requires height < 13824
    ensures DigitPitch(ScaleOf(height)) >= 0
  {
    var t := (5 * height) / 1080;
    assert t * 1080 <= 5 * height;
  }

  /**
   * Below 13824 rows the hundreds, tens and ones boxes are laid out left to
   * right in that order.
   */
  lemma DigitBoxesInOrder(height: nat)
    requires height < 13824
    ensures var s := ScaleOf(height);
      HundredsOffset(s).x <= TensOffset(s).x <= OnesOffset(s).x
  {
    var s := ScaleOf(height);
    var p := DigitPitch(s);
    PitchNonNegative(height);
    DigitRowUnscaled(s);
    ScaleMonotone(OnesOffsetRef.x - 2 * p, OnesOffsetRef.x - p, OnesOffsetRef.y, s);
    ScaleMonotone(OnesOffsetRef.x - p, OnesOffsetRef.x, OnesOffsetRef.y, s);
  }

  /** At the reference resolution the HUD box is the glyph point moved by the constants as they are. */
  lemma ReferenceBox(percentPoint: Point)
    ensures var s := ScaleOf(ReferenceHeight);
      && Basepoint(percentPoint, s) == Point(percentPoint.x - 290, percentPoint.y - 100)
      && Endpoint(Basepoint(percentPoint, s), s).x - Basepoint(percentPoint, s).x == 325
      && Endpoint(Basepoint(percentPoint, s), s).y - Basepoint(percentPoint, s).y == 195
  {
    var s := ScaleOf(ReferenceHeight);
    OffsetUnitScale(percentPoint, Point(-290, -100), s);
    OffsetUnitScale(Basepoint(percentPoint, s), HudSize, s);
  }

  /** At the reference resolution the sizes and offsets are the constants themselves. */
  lemma ReferenceSizes()
    ensures var s := ScaleOf(ReferenceHeight);
      && BoxSize(s) == Point(325, 195)
      && PercentOffset(s) == Point(290, 100)
      && DigitSize(s) == Point(70, 80)
      && OnesOffset(s) == Point(213, 47)
  {
    var s := ScaleOf(ReferenceHeight);
    ScalePointUnit(HudSize, s);
    ScalePointUnit(PercentGlyphOffset, s);
    ScalePointUnit(DigitSizeRef, s);
    ScalePointUnit(OnesOffsetRef, s);
  }

  /** At the reference resolution the pitch is 63 - 5 = 58 pixels. */
  lemma ReferenceDigitOffsets()
    ensures var s := ScaleOf(ReferenceHeight);
      && DigitPitch(s) == 58
      && TensOffset(s) == Point(155, 47)
      && HundredsOffset(s) == Point(97, 47)
  {
    var s := ScaleOf(ReferenceHeight);
    assert TruncatedFive(s) == 5;
    DigitRowUnscaled(s);
    ScalePointUnit(Point(155, 47), s);
    ScalePointUnit(Point(97, 47), s);
  }

  /** At the reference resolution the three digit boxes are equally spaced. */
  lemma ReferencePitchIsEqual()
    ensures var s := ScaleOf(ReferenceHeight);
      OnesOffset(s).x - TensOffset(s).x == TensOffset(s).x - HundredsOffset(s).x == 58
  {
    ReferenceSizes();
    ReferenceDigitOffsets();
  }

  // ---------------------------------------------------------------------------
  // Images the tracker works on

  /** `update_frame`: the HUD box cropped out of a frame and binarised at level 40. */
  function WorkingImage(f: Frame, basepoint: Point, endpoint: Point): Image
  {
    Threshold(Crop(Whole(f), basepoint, endpoint), PlayerThreshold)
  }

  /** Where the three digit boxes of a HUD box lie at a factor: their top-left corners and common size. */
  datatype DigitLayout = DigitLayout(ones: Point, tens: Point, hundreds: Point, size: Point)

  /** The digit layout at factor s, from `ones_offset`, `tens_offset`, `hundreds_offset` and `digit_size`. */
  function LayoutOf(s: Scale): DigitLayout
  {
    DigitLayout(OnesOffset(s), TensOffset(s), HundredsOffset(s), DigitSize(s))
  }

  /** `ones_frame` and its siblings: a digit box cut out of the working image. */
  function DigitBox(img: Image, boxOffset: Point, size: Point): Image
  {
    Crop(img, boxOffset, Offset(boxOffset, size, Unit))
  }

  // ---------------------------------------------------------------------------
  // Digit identification

  /** The match counts of the templates of digits 0 .. n-1 over img, in digit order. */
  function MatchCounts(img: Image, matches: DigitMatcher, n: nat): (c: seq<nat>)
    ensures |c| == n && forall x :: 0 <= x < n ==> c[x] == matches(img, x)
  {
    if n == 0 then [] else MatchCounts(img, matches, n - 1) + [matches(img, n - 1)]
  }

  /** The first position among c[..n] holding the largest count. */
  function FirstMax(c: seq<nat>, n: nat): (k: nat)
    requires 0 < n <= |c|
    ensures k < n
  {
    if n == 1 then 0
    else
      var k := FirstMax(c, n - 1);
      if c[n - 1] > c[k] then n - 1 else k
  }

  /** FirstMax is an argmax of c[..n], and no earlier position reaches the same count. */
  lemma {:induction false} FirstMaxIsFirstArgmax(c: seq<nat>, n: nat)
    requires 0 < n <= |c|
    ensures forall j :: 0 <= j < n ==> c[j] <= c[FirstMax(c, n)]
    ensures forall j :: 0 <= j < FirstMax(c, n) ==> c[j] < c[FirstMax(c, n)]
  {
    if n > 1 {
      FirstMaxIsFirstArgmax(c, n - 1);
    }
  }

  /**
   * What `identify_digit` returns for the counts c: None when no template
   * matched anywhere, otherwise the first digit with the most matches.
   */
  function BestDigit(c: seq<nat>): (d: Option<nat>)
    requires |c| == 10
  {
    var k := FirstMax(c, |c|);
    if c[k] == 0 then None else Some(k)
  }

  /**
   * BestDigit is None exactly when every count is 0; otherwise it is a digit
   * whose count is maximal and strictly above every smaller digit's count.
   */
  lemma BestDigitSpec(c: seq<nat>)
    requires |c| == 10
    ensures BestDigit(c).None? <==> forall j :: 0 <= j < 10 ==> c[j] == 0
    ensures BestDigit(c).Some? ==> BestDigit(c).value < 10
    ensures BestDigit(c).Some? ==> forall j :: 0 <= j < 10 ==> c[j] <= c[BestDigit(c).value]
    ensures BestDigit(c).Some? ==> forall j :: 0 <= j < BestDigit(c).value ==> c[j] < c[BestDigit(c).value]
  {
    FirstMaxIsFirstArgmax(c, |c|);
  }

  /** A count that is maximal and strictly above every earlier count is the first maximum. */
  lemma FirstMaxUnique(c: seq<nat>, k: nat)
    requires |c| == 10 && k < 10
    requires forall j :: 0 <= j < 10 ==> c[j] <= c[k]
    requires forall j :: 0 <= j < k ==> c[j] < c[k]
    ensures FirstMax(c, |c|) == k
  {
    FirstMaxIsFirstArgmax(c, |c|);
    var m := FirstMax(c, |c|);
    assert c[m] <= c[k] && c[k] <= c[m];
  }

  /**
   * `identify_digit`: build the list of match counts, take its maximum and
   * return the first position of that maximum, or None when it is 0.
   */
  method IdentifyDigit(img: Image, matches: DigitMatcher) returns (digit: Option<nat>)
    ensures digit == BestDigit(MatchCounts(img, matches, 10))
  {
    var probability: seq<nat> := [];
    for x := 0 to 10
      invariant probability == MatchCounts(img, matches, x)
    {
      probability := probability + [matches(img, x)];
    }
    assert probability == MatchCounts(img, matches, 10);
    // max(probability)
    var maximum := probability[0];
    for i := 1 to 10
      invariant forall j :: 0 <= j < i ==> probability[j] <= maximum
      invariant exists j :: 0 <= j < i && probability[j] == maximum
    {
      if probability[i] > maximum {
        maximum := probability[i];
      }
    }
    if maximum != 0 {
      // probability.index(maximum)
      var index := 0;
      while probability[index] != maximum
        invariant 0 <= index < 10
        invariant forall j :: 0 <= j < index ==> probability[j] != maximum
        invariant exists j :: index <= j < 10 && probability[j] == maximum
        decreases 10 - index
      {
        index := index + 1;
      }
      FirstMaxUnique(probability, index);
      digit := Some(index);
    } else {
      digit := None;
    }
  }

  // ---------------------------------------------------------------------------
  // Combining the three digits

  /** A result of `identify_digit`. */
  predicate IsDigit(d: Option<nat>)
  {
    d.None? || d.value < 10
  }

  /** Python truthiness of an `identify_digit` result: None and 0 are both false. */
  predicate Truthy(d: Option<nat>)
  {
    d.Some? && d.value != 0
  }

  /**
   * The digit combination of `percent`. The ones reading is returned as it is
   * unless ones and tens are both truthy; then tens is combined, and hundreds
   * too when it is truthy. A 0 digit therefore counts as absent.
   */
  function CombineDigits(ones: Option<nat>, tens: Option<nat>, hundreds: Option<nat>): Option<nat>
  {
    if Truthy(ones) && Truthy(tens) then
      if Truthy(hundreds) then Some(hundreds.value * 100 + tens.value * 10 + ones.value)
      else Some(tens.value * 10 + ones.value)
    else ones
  }

  /**
   * Read as a decimal number, the combined reading has the ones digit last, the
   * tens digit before it exactly when ones and tens are both truthy, and the
   * hundreds digit in front exactly when all three are truthy; there is no
   * reading exactly when the ones digit is unknown.
   */
  lemma CombineDigitsDecimal(ones: Option<nat>, tens: Option<nat>, hundreds: Option<nat>)
    requires IsDigit(ones) && IsDigit(tens) && IsDigit(hundreds)
    ensures var val := CombineDigits(ones, tens, hundreds);
      && (val.None? <==> ones.None?)
      && (val.Some? ==> val.value < 1000 && val.value % 10 == ones.value)
      && (val.Some? ==> (val.value >= 10 <==> Truthy(ones) && Truthy(tens)))
      && (val.Some? && val.value >= 10 ==> (val.value / 10) % 10 == tens.value)
      && (val.Some? ==> (val.value >= 100 <==> Truthy(ones) && Truthy(tens) && Truthy(hundreds)))
      && (val.Some? && val.value >= 100 ==> val.value / 100 == hundreds.value)
  {
  }

  /** The falsy cases: the ones reading comes back unchanged. */
  lemma CombineFalsy(ones: Option<nat>, tens: Option<nat>, hundreds: Option<nat>)
    requires IsDigit(ones) && IsDigit(tens) && IsDigit(hundreds)
    requires !Truthy(ones) || !Truthy(tens)
    ensures CombineDigits(ones, tens, hundreds) == ones
  {
  }

  /** Worked readings, including the two where a 0 digit is taken as absent. */
  lemma CombineExamples()
    ensures CombineDigits(None, Some(1), Some(1)) == None
    ensures CombineDigits(Some(3), None, None) == Some(3)
    ensures CombineDigits(Some(4), Some(2), None) == Some(24)
    ensures CombineDigits(Some(5), Some(1), Some(1)) == Some(115)
    ensures CombineDigits(Some(5), Some(0), Some(1)) == Some(5)
    ensures CombineDigits(Some(0), Some(1), None) == Some(0)
  {
  }

  /** The digits read from the given boxes of img, in box order. */
  function DigitReadings(img: Image, boxes: seq<Point>, size: Point, matches: DigitMatcher): (d: seq<Option<nat>>)
    ensures |d| == |boxes|
  {
    if boxes == [] then []
    else [BestDigit(MatchCounts(DigitBox(img, boxes[0], size), matches, 10))]
         + DigitReadings(img, boxes[1..], size, matches)
  }

  /** The three digits of a reading are those of the ones, tens and hundreds boxes. */
  lemma ReadingDigits(img: Image, l: DigitLayout, matches: DigitMatcher)
    ensures var d := DigitReadings(img, [l.ones, l.tens, l.hundreds], l.size, matches);
      && d[0] == BestDigit(MatchCounts(DigitBox(img, l.ones, l.size), matches, 10))
      && d[1] == BestDigit(MatchCounts(DigitBox(img, l.tens, l.size), matches, 10))
      && d[2] == BestDigit(MatchCounts(DigitBox(img, l.hundreds, l.size), matches, 10))
  {
    var boxes := [l.ones, l.tens, l.hundreds];
    assert boxes[1..] == [l.tens, l.hundreds];
    assert boxes[1..][1..] == [l.hundreds];
    assert boxes[1..][1..][1..] == [];
    var last := DigitReadings(img, [l.hundreds], l.size, matches);
    assert last[0] == BestDigit(MatchCounts(DigitBox(img, l.hundreds, l.size), matches, 10));
  }

  /** The percent reading of a working image: its three digit boxes classified and combined. */
  function Reading(img: Image, l: DigitLayout, matches: DigitMatcher): Option<nat>
  {
    var d := DigitReadings(img, [l.ones, l.tens, l.hundreds], l.size, matches);
    CombineDigits(d[0], d[1], d[2])
  }

  // ---------------------------------------------------------------------------
  // The tracker of one player

  class Player {
    const height: nat
    const scale: Scale
    const basepoint: Point
    const endpoint: Point
    /** The digit boxes only depend on the constant factor, so they are placed once. */
    const layout: DigitLayout
    /** The binarised HUD box of the latest frame. */
    var frame: Image
    var dictionary: Stats

    /** The box is placed from the factor of the frame height. */
    ghost predicate Valid()
    {
      && scale == ScaleOf(height)
      && endpoint == Endpoint(basepoint, scale)
      && layout == LayoutOf(scale)
    }

    /** `Player(base_frame, percent_point)`; loading the digit templates is not modelled. */
    constructor (baseFrame: Frame, percentPoint: Point)
      ensures Valid()
      ensures height == baseFrame.height
      ensures basepoint == Basepoint(percentPoint, scale)
      ensures dictionary == map[]
      ensures frame == WorkingImage(baseFrame, basepoint, endpoint)
    {
      var s := ScaleOf(baseFrame.height);
      var b := Basepoint(percentPoint, s);
      var e := Endpoint(b, s);
      height := baseFrame.height;
      dictionary := map[];
      scale := s;
      basepoint := b;
      endpoint := e;
      layout := LayoutOf(s);
      frame := WorkingImage(baseFrame, b, e);
    }

    /** `update_frame`: replaces the working image; no history is kept. */
    method UpdateFrame(f: Frame)
      modifies this`frame
      ensures frame == WorkingImage(f, basepoint, endpoint)
    {
      frame := WorkingImage(f, basepoint, endpoint);
    }

    function OnesFrame(): Image
      reads this
    {
      DigitBox(frame, layout.ones, layout.size)
    }

    function TensFrame(): Image
      reads this
    {
      DigitBox(frame, layout.tens, layout.size)
    }

    function HundredsFrame(): Image
      reads this
    {
      DigitBox(frame, layout.hundreds, layout.size)
    }

    /** `percent`: classify ones, tens and hundreds, then combine them. */
    method Percent(matches: DigitMatcher) returns (val: Option<nat>)
      ensures val == Reading(frame, layout, matches)
    {
      val := IdentifyDigit(OnesFrame(), matches);
      var ten := IdentifyDigit(TensFrame(), matches);
      var hundred := IdentifyDigit(HundredsFrame(), matches);
      ReadingDigits(frame, layout, matches);
      if Truthy(val) && Truthy(ten) {
        val := Some(ten.value * 10 + val.value);
        if Truthy(hundred) {
          val := Some(hundred.value * 100 + val.value);
        }
      }
    }

    /** The stats mapping holds exactly the reading of the current working image. */
    ghost predicate Analyzed(matches: DigitMatcher)
      reads this
    {
      dictionary == map["percent" := Reading(frame, layout, matches)]
    }

    /** `analyze`: the stats mapping becomes exactly `{'percent': reading}`. */
    method Analyze(matches: DigitMatcher)
      modifies this`dictionary
      ensures dictionary.Keys == {"percent"}
      ensures Analyzed(matches)
    {
      var p := Percent(matches);
      dictionary := map["percent" := p];
    }
  }

  // ---------------------------------------------------------------------------
  // The game: a fixed roster and an append-only history of snapshots

  class Game {
    const players: seq<Player>
    var stats: seq<seq<Stats>>

    /** Every player is a tracker of its own. */
    ghost predicate Valid()
    {
      forall i, j :: 0 <= i < j < |players| ==> players[i] != players[j]
    }

    constructor (players: seq<Player>)
      requires forall i, j :: 0 <= i < j < |players| ==> players[i] != players[j]
      ensures Valid()
      ensures this.players == players && stats == []
    {
      this.players := players;
      stats := [];
    }

    /** `update_frame`: every player crops the new frame; nothing else changes. */
    method UpdateFrame(f: Frame)
      requires Valid()
      modifies players
      ensures forall i :: 0 <= i < |players| ==>
        players[i].frame == WorkingImage(f, players[i].basepoint, players[i].endpoint)
      ensures forall i :: 0 <= i < |players| ==>
        players[i].dictionary == old(players[i].dictionary)
    {
      for i := 0 to |players|
        invariant forall k :: 0 <= k < i ==>
          players[k].frame == WorkingImage(f, players[k].basepoint, players[k].endpoint)
        invariant forall k :: 0 <= k < |players| ==>
          players[k].dictionary == old(players[k].dictionary)
      {
        players[i].UpdateFrame(f);
      }
    }

    /** The first half of `analyze`: every player analyses its own working image. */
    method AnalyzePlayers(matches: DigitMatcher)
      requires Valid()
      modifies players
      ensures forall i :: 0 <= i < |players| ==> players[i].Analyzed(matches)
      ensures forall i :: 0 <= i < |players| ==> players[i].frame == old(players[i].frame)
    {
      for i := 0 to |players|
        invariant forall k :: 0 <= k < i ==> players[k].Analyzed(matches)
        invariant forall k :: 0 <= k < |players| ==> players[k].frame == old(players[k].frame)
      {
        players[i].Analyze(matches);
      }
    }

    /** The snapshot `analyze` records once every player has taken frame f. */
    ghost function SnapshotAfter(f: Frame, matches: DigitMatcher): (s: seq<Stats>)
      ensures |s| == |players|
    {
      seq(|players|, i requires 0 <= i < |players| =>
        map["percent" := Reading(WorkingImage(f, players[i].basepoint, players[i].endpoint),
                                 players[i].layout, matches)])
    }

    /** The stats mappings of all players, in player order. */
    method Snapshot() returns (snapshot: seq<Stats>)
      ensures |snapshot| == |players|
      ensures forall i :: 0 <= i < |players| ==> snapshot[i] == players[i].dictionary
    {
      snapshot := [];
      for i := 0 to |players|
        invariant |snapshot| == i
        invariant forall k :: 0 <= k < i ==> snapshot[k] == players[k].dictionary
      {
        snapshot := snapshot + [players[i].dictionary];
      }
    }

    /**
     * `analyze`: every player analyses its working image, then one snapshot
     * of all the stats mappings, in player order, is appended to the history.
     */
    method Analyze(matches: DigitMatcher)
      requires Valid()
      modifies this`stats, players
      ensures |stats| == |old(stats)| + 1 && stats[..|old(stats)|] == old(stats)
      ensures |stats[|stats| - 1]| == |players|
      ensures forall i :: 0 <= i < |players| ==>
        stats[|stats| - 1][i] == players[i].dictionary && players[i].Analyzed(matches)
      ensures forall i :: 0 <= i < |players| ==>
        players[i].frame == old(players[i].frame)
    {
      AnalyzePlayers(matches);
      var snapshot := Snapshot();
      stats := stats + [snapshot];
    }
  }
}
