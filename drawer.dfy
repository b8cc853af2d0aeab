/**
 * The pure parts of the image drawer (drawer.py): the layout engine that
 * places the options of a trial image, the selection of Anan's face image
 * behind a whitelist, and the table of statement icons.
 */
module Drawer {
  import opened Wrappers
  import opened Models

  // ---------------------------------------------------------------------
  // Layout constants, in pixels

  const TRIAL_IMAGE_WIDTH: int := 1260
  const TRIAL_IMAGE_HEIGHT: int := 1080

  const OPTION_WIDTH: int := 802
  const OPTION_HEIGHT: int := 216
  const OPTION_START_X: int := 29
  const OPTION_START_Y: int := 364
  const OPTION_END_Y: int := 780

  /** The widest gap ever put between two consecutive options. */
  const MAX_PADDING: int := 286

  const STATEMENT_ICON_WIDTH: int := 146
  const STATEMENT_ICON_HEIGHT: int := 128
  const STATEMENT_OFFSET_X: int := 21
  const STATEMENT_OFFSET_Y: int := -43

  const TEXT_OFFSET_X: int := 109
  const TEXT_OFFSET_Y: int := 32
  const TEXT_WIDTH: int := 589
  const TEXT_HEIGHT: int := 150

  /** How far an option's top edge may move away from `OPTION_START_Y` in
      either direction while its box stays above `OPTION_END_Y`. */
  const AVAILABLE_HEIGHT: int := OPTION_END_Y - OPTION_START_Y - OPTION_HEIGHT

  // ---------------------------------------------------------------------
  // Python arithmetic

  /** Python's `a // b`: the quotient rounded toward negative infinity. */
  function FloorDiv(a: int, b: int): int
    requires b != 0
  {
    if b > 0 then a / b else (-a) / (-b)
  }

  /** Python's `int(a / b)` for a positive `b`: the quotient rounded toward
      zero. */
  function TruncDiv(a: int, b: int): int
    requires b > 0
  {
    if a >= 0 then a / b else -((-a) / b)
  }

  /** Python's `min(a, b, c)`: a lower bound of all three that is one of
      them. */
  function Min3(a: int, b: int, c: int): (r: int)
    ensures r <= a && r <= b && r <= c
    ensures r == a || r == b || r == c
  {
    if a <= b && a <= c then a else if b <= c then b else c
  }

  /** `FloorDiv` rounds toward negative infinity, for either sign of the
      divisor. */
  lemma FloorDivIsFloor(a: int, b: int)
    requires b != 0
    ensures b > 0 ==> b * FloorDiv(a, b) <= a < b * FloorDiv(a, b) + b
    ensures b < 0 ==> b * FloorDiv(a, b) + b < a <= b * FloorDiv(a, b)
  {
    if b > 0 {
      assert a == b * (a / b) + a % b;
    } else {
      var q := (-a) / (-b);
      assert -a == (-b) * q + (-a) % (-b);
      assert (-b) * q == -(b * q);
    }
  }

  /** `TruncDiv` rounds a non-negative dividend down, agreeing with
      `FloorDiv` there. */
  lemma TruncDivNonNegative(a: int, b: int)
    requires a >= 0 && b > 0
    ensures 0 <= TruncDiv(a, b) && b * TruncDiv(a, b) <= a < b * TruncDiv(a, b) + b
    ensures TruncDiv(a, b) == FloorDiv(a, b)
  {
    FloorDivIsFloor(a, b);
  }

  /** `TruncDiv` rounds a negative dividend up, toward zero. */
  lemma TruncDivNegative(a: int, b: int)
    requires a < 0 && b > 0
    ensures TruncDiv(a, b) <= 0 && b * TruncDiv(a, b) - b < a <= b * TruncDiv(a, b)
  {
    var q, m := (-a) / b, (-a) % b;
    assert -a == b * q + m && 0 <= m < b;
    MulNeg(b, q);
  }

  /** The list `range(lo, hi)`. */
  function Range(lo: int, hi: int): (r: seq<int>)
    ensures |r| == if lo < hi then hi - lo else 0
    ensures forall j :: 0 <= j < |r| ==> r[j] == lo + j
    decreases hi - lo
  {
    if lo < hi then [lo] + Range(lo + 1, hi) else []
  }

  // ---------------------------------------------------------------------
  // The layout engine

  /** The top-left corner of an option box. */
  datatype Anchor = Anchor(x: int, y: int)

  /** The padding for an odd count: `upperCount` options above the middle one
      and `lowerCount` below it, each side allowed `AVAILABLE_HEIGHT`. */
  function OddPadding(upperCount: int, lowerCount: int): (r: int)
    ensures r <= MAX_PADDING
    ensures upperCount >= 0 && lowerCount >= 0 ==> r >= 0
  {
    var upperMaxPadding := if upperCount != 0 then FloorDiv(AVAILABLE_HEIGHT, upperCount) else MAX_PADDING;
    var lowerMaxPadding := if lowerCount != 0 then FloorDiv(AVAILABLE_HEIGHT, lowerCount) else MAX_PADDING;
    Min3(MAX_PADDING, upperMaxPadding, lowerMaxPadding)
  }

  /** The padding for an even count. The float divisions by `count - 0.5` and
      `count + 0.5` are taken with numerator and denominator doubled, which
      is exact. */
  function EvenPadding(upperCount: int, lowerCount: int): (r: int)
    ensures r <= MAX_PADDING
    ensures upperCount >= 0 && lowerCount >= 0 ==> r >= 0
  {
    var upperMaxPadding :=
      if upperCount > 0 then
        TruncDivNonNegative(2 * AVAILABLE_HEIGHT, 2 * upperCount - 1);
        TruncDiv(2 * AVAILABLE_HEIGHT, 2 * upperCount - 1)
      else MAX_PADDING;
    var lowerMaxPadding :=
      if lowerCount > 0 then
        TruncDivNonNegative(2 * AVAILABLE_HEIGHT, 2 * lowerCount + 1);
        TruncDiv(2 * AVAILABLE_HEIGHT, 2 * lowerCount + 1)
      else MAX_PADDING;
    Min3(MAX_PADDING, upperMaxPadding, lowerMaxPadding)
  }

  /** The vertical distance between consecutive options for `number`
      options. */
  function LayoutPadding(number: int): (r: int)
    ensures r <= MAX_PADDING
    ensures number >= 0 ==> r >= 0
  {
    var upperCount := number / 2;
    if number % 2 == 1 then OddPadding(upperCount, upperCount)
    else EvenPadding(upperCount, upperCount)
  }

  /** The anchors of `number` options, top to bottom: an odd count puts the
      middle option at `OPTION_START_Y`, an even count centres the middle
      pair on it. Every count gets exactly as many anchors as options, and a
      count of zero or less gets none. */
  function OptionCoordinates(number: int): (r: seq<Anchor>)
    ensures |r| == if number > 0 then number else 0
    ensures forall j :: 0 <= j < |r| ==> r[j].x == OPTION_START_X
  {
    var upperCount := number / 2;
    var padding := LayoutPadding(number);
    if number % 2 == 1 then
      var offsets := Range(-upperCount, upperCount + 1);
      seq(|offsets|, j requires 0 <= j < |offsets| =>
        Anchor(OPTION_START_X, OPTION_START_Y + padding * offsets[j]))
    else
      var offsets := Range(-upperCount, upperCount);
      seq(|offsets|, j requires 0 <= j < |offsets| =>
        Anchor(OPTION_START_X, TruncDiv(2 * OPTION_START_Y + padding * (2 * offsets[j] + 1), 2)))
  }

  /** Half-paddings between the middle of the layout and the farthest anchor
      the padding is budgeted for: `number - 1` for an odd count, and for an
      even count `number + 1`, since the lower side is budgeted for
      `count + 0.5` paddings. */
  function HalfSteps(number: int): int {
    if number % 2 == 1 then number - 1 else number + 1
  }

  // ---------------------------------------------------------------------
  // Arithmetic steps. These facts about products and quotients model
  // nothing in the source: each states one nonlinear step on its own, so
  // that the layout proofs below can cite it instead of leaving the solver
  // to search for it.

  lemma MulMono(p: int, a: int, b: int)
    requires p >= 0 && a <= b
    ensures p * a <= p * b
  {
    assert p * b - p * a == p * (b - a);
  }

  lemma Distribute(p: int, a: int, b: int)
    ensures p * (a + b) == p * a + p * b
  {
  }

  lemma MulNeg(p: int, a: int)
    ensures p * -a == -(p * a)
  {
  }

  lemma HalveShift(a: int, x: int)
    ensures (a + 2 * x) / 2 == a / 2 + x
  {
  }

  lemma MulMonoLeft(a: int, b: int, h: int)
    requires a <= b && h >= 0
    ensures a * h <= b * h
  {
    assert b * h - a * h == (b - a) * h;
  }

  /** `min(cap, c // h)` is the largest value up to `cap` that fits `h`
      times into `c`. */
  lemma CappedQuotient(cap: int, c: int, h: int)
    requires cap >= 0 && c >= 0 && h > 0
    ensures var p := if cap <= c / h then cap else c / h;
      && 0 <= p <= cap && p * h <= c && (p == cap || (p + 1) * h > c)
  {
    var q := c / h;
    assert c == q * h + c % h;
    var p := if cap <= q then cap else q;
    MulMono(h, p, q);
    assert (q + 1) * h == q * h + h;
  }

  /** A larger divisor gives a quotient no larger. */
  lemma QuotientAntitone(c: int, d: int, e: int)
    requires c >= 0 && 0 < d <= e
    ensures c / e <= c / d
  {
    var q := c / e;
    assert c == q * e + c % e;
    assert q >= 0;
    MulMono(q, d, e);
    if q > c / d {
      assert c == (c / d) * d + c % d;
      MulMono(d, c / d + 1, q);
    }
  }

  /** A quotient is positive exactly when the divisor is at most the
      dividend. */
  lemma QuotientPositive(c: int, d: int)
    requires c >= 0 && d > 0
    ensures c / d >= 1 <==> d <= c
  {
    var q := c / d;
    assert c == q * d + c % d;
    if q >= 1 {
      MulMono(d, 1, q);
    }
  }

  /** For an odd count the padding is `min(MAX_PADDING, AVAILABLE_HEIGHT // k)`,
      `k` options on each side of the middle one. */
  lemma OddPaddingValue(number: int)
    requires number >= 3 && number % 2 == 1
    ensures LayoutPadding(number) ==
      var q := AVAILABLE_HEIGHT / (number / 2); if MAX_PADDING <= q then MAX_PADDING else q
  {
  }

  /** For an even count the lower term binds: the padding is
      `min(MAX_PADDING, 2 * AVAILABLE_HEIGHT // (2k + 1))`. */
  lemma EvenPaddingValue(number: int)
    requires number >= 2 && number % 2 == 0
    ensures LayoutPadding(number) ==
      var q := 2 * AVAILABLE_HEIGHT / (number + 1); if MAX_PADDING <= q then MAX_PADDING else q
  {
    var k := number / 2;
    QuotientAntitone(2 * AVAILABLE_HEIGHT, 2 * k - 1, 2 * k + 1);
  }

  /** The padding is the largest value up to `MAX_PADDING` whose
      `HalfSteps` half-paddings fit in the available height on each side. */
  lemma PaddingIsLargestFit(number: int)
    requires number >= 1
    ensures 0 <= LayoutPadding(number) <= MAX_PADDING
    ensures LayoutPadding(number) * HalfSteps(number) <= 2 * AVAILABLE_HEIGHT
    ensures LayoutPadding(number) == MAX_PADDING
         || (LayoutPadding(number) + 1) * HalfSteps(number) > 2 * AVAILABLE_HEIGHT
  {
    var p, h := LayoutPadding(number), HalfSteps(number);
    if number == 1 {
      assert h == 0;
    } else if number % 2 == 1 {
      var k := number / 2;
      OddPaddingValue(number);
      CappedQuotient(MAX_PADDING, AVAILABLE_HEIGHT, k);
      assert h == 2 * k;
      assert p * h == 2 * (p * k);
      assert (p + 1) * h == 2 * ((p + 1) * k);
    } else {
      EvenPaddingValue(number);
      CappedQuotient(MAX_PADDING, 2 * AVAILABLE_HEIGHT, number + 1);
    }
  }

  /** The padding is the only value with the property above: no other value
      up to `MAX_PADDING` fits and is as large as possible. */
  lemma PaddingUnique(number: int, p: int)
    requires number >= 1
    requires 0 <= p <= MAX_PADDING && p * HalfSteps(number) <= 2 * AVAILABLE_HEIGHT
    requires p == MAX_PADDING || (p + 1) * HalfSteps(number) > 2 * AVAILABLE_HEIGHT
    ensures p == LayoutPadding(number)
  {
    var q, h := LayoutPadding(number), HalfSteps(number);
    PaddingIsLargestFit(number);
    if p < q {
      MulMonoLeft(p + 1, q, h);
    } else if q < p {
      MulMonoLeft(q + 1, p, h);
    }
  }

  /** Anchor `j` as the code computes it, unfolded: its offset from the
      middle is `j - number / 2`, and the even branch's truncating division
      halves a non-negative number. */
  lemma AnchorY(number: int, j: int)
    requires 0 <= j < number
    ensures number % 2 == 1 ==>
      OptionCoordinates(number)[j].y == OPTION_START_Y + LayoutPadding(number) * (j - number / 2)
    ensures number % 2 == 0 ==>
      var n := 2 * OPTION_START_Y + LayoutPadding(number) * (2 * (j - number / 2) + 1);
      0 <= n && OptionCoordinates(number)[j].y == n / 2
  {
    var p, k := LayoutPadding(number), number / 2;
    var r := OptionCoordinates(number);
    if number % 2 == 1 {
      var offsets := Range(-k, k + 1);
      assert offsets[j] == j - k;
    } else {
      var offsets := Range(-k, k);
      assert offsets[j] == j - k;
      EvenNumeratorNonNegative(number, j);
    }
  }

  /** In the even branch the numerator of every anchor is at least
      `2 * (OPTION_START_Y - AVAILABLE_HEIGHT)`, hence non-negative, so
      truncation toward zero is floor division. */
  lemma EvenNumeratorNonNegative(number: int, j: int)
    requires 0 <= j < number && number % 2 == 0
    ensures 0 <= 2 * OPTION_START_Y + LayoutPadding(number) * (2 * (j - number / 2) + 1)
  {
    EvenOffsetBounded(number, j);
  }

  /** In the even branch every anchor's offset from the middle, counted in
      half-pixels, stays within twice the available height, that is within
      `AVAILABLE_HEIGHT` pixels, on either side. */
  lemma EvenOffsetBounded(number: int, j: int)
    requires 0 <= j < number && number % 2 == 0
    ensures var o := LayoutPadding(number) * (2 * (j - number / 2) + 1);
      -2 * AVAILABLE_HEIGHT <= o <= 2 * AVAILABLE_HEIGHT
  {
    var p, k := LayoutPadding(number), number / 2;
    var m := 2 * (j - k) + 1;
    PaddingIsLargestFit(number);
    assert HalfSteps(number) == 2 * k + 1;
    MulMono(p, -(2 * k + 1), m);
    MulMono(p, m, 2 * k + 1);
    MulNeg(p, 2 * k + 1);
  }

  /** In the odd branch every anchor's offset from the middle stays within
      the available height on either side. */
  lemma OddOffsetBounded(number: int, j: int)
    requires 0 <= j < number && number % 2 == 1
    ensures var o := LayoutPadding(number) * (j - number / 2);
      -AVAILABLE_HEIGHT <= o <= AVAILABLE_HEIGHT
  {
    var p, k := LayoutPadding(number), number / 2;
    var m := j - k;
    PaddingIsLargestFit(number);
    assert HalfSteps(number) == k + k;
    Distribute(p, k, k);
    MulMono(p, -k, m);
    MulMono(p, m, k);
    MulNeg(p, k);
  }

  /** The anchors form an arithmetic progression whose step is the
      padding. */
  lemma AnchorsArithmetic(number: int, j: int)
    requires 0 <= j < number
    ensures OptionCoordinates(number)[j].y == OptionCoordinates(number)[0].y + LayoutPadding(number) * j
  {
    var p, k := LayoutPadding(number), number / 2;
    AnchorY(number, j);
    AnchorY(number, 0);
    if number % 2 == 1 {
      Distribute(p, 0 - k, j);
    } else {
      Distribute(p, 2 * (0 - k) + 1, 2 * j);
      Distribute(p, j, j);
      HalveShift(2 * OPTION_START_Y + p * (2 * (0 - k) + 1), p * j);
    }
  }

  /** Consecutive anchors are exactly one padding apart. */
  lemma AnchorsEvenlySpaced(number: int, j: int)
    requires 0 <= j && j + 1 < number
    ensures OptionCoordinates(number)[j + 1].y - OptionCoordinates(number)[j].y == LayoutPadding(number)
  {
    var p := LayoutPadding(number);
    AnchorsArithmetic(number, j);
    AnchorsArithmetic(number, j + 1);
    assert p * (j + 1) == p * j + p;
  }

  /** Every option box lies in the band `AVAILABLE_HEIGHT` above and below
      `OPTION_START_Y`, so it never reaches past `OPTION_END_Y`. */
  lemma AnchorsWithinBand(number: int, j: int)
    requires 0 <= j < number
    ensures OPTION_START_Y - AVAILABLE_HEIGHT <= OptionCoordinates(number)[j].y <= OPTION_START_Y + AVAILABLE_HEIGHT
    ensures OptionCoordinates(number)[j].y + OPTION_HEIGHT <= OPTION_END_Y
  {
    AnchorY(number, j);
    if number % 2 == 1 {
      OddOffsetBounded(number, j);
    } else {
      EvenOffsetBounded(number, j);
    }
  }

  /** For an odd count the middle option sits exactly at `OPTION_START_Y`. */
  lemma OddMiddleAtStart(number: int)
    requires number >= 1 && number % 2 == 1
    ensures OptionCoordinates(number)[number / 2].y == OPTION_START_Y
  {
    AnchorY(number, number / 2);
  }

  /** For an even count the middle pair straddles `OPTION_START_Y`, with
      the upper one strictly above exactly when the padding is positive. */
  lemma EvenMiddleStraddles(number: int)
    requires number >= 2 && number % 2 == 0
    ensures OptionCoordinates(number)[number / 2 - 1].y <= OPTION_START_Y <= OptionCoordinates(number)[number / 2].y
    ensures OptionCoordinates(number)[number / 2 - 1].y < OPTION_START_Y <==> LayoutPadding(number) >= 1
  {
    var p, k := LayoutPadding(number), number / 2;
    PaddingIsLargestFit(number);
    AnchorY(number, k - 1);
    AnchorY(number, k);
    assert p * (2 * ((k - 1) - k) + 1) == -p;
    assert p * (2 * (k - k) + 1) == p;
  }

  /** The padding is positive for every count up to 399 and for 401, and
      zero for 400 and for every count from 402 on. */
  lemma PaddingPositiveIff(number: int)
    requires number >= 1
    ensures LayoutPadding(number) >= 1 <==> number <= 399 || number == 401
  {
    if number == 1 {
    } else if number % 2 == 1 {
      OddPaddingValue(number);
      QuotientPositive(AVAILABLE_HEIGHT, number / 2);
    } else {
      EvenPaddingValue(number);
      QuotientPositive(2 * AVAILABLE_HEIGHT, number + 1);
    }
  }

  predicate StrictlyIncreasing(anchors: seq<Anchor>) {
    forall i, j :: 0 <= i < j < |anchors| ==> anchors[i].y < anchors[j].y
  }

  /** With two or more options the anchors go strictly downward exactly when
      the padding is positive. */
  lemma AnchorsIncreasingIff(number: int)
    requires number >= 2
    ensures StrictlyIncreasing(OptionCoordinates(number)) <==> LayoutPadding(number) >= 1
  {
    var r, p := OptionCoordinates(number), LayoutPadding(number);
    if p >= 1 {
      forall i, j | 0 <= i < j < |r| ensures r[i].y < r[j].y {
        AnchorsArithmetic(number, i);
        AnchorsArithmetic(number, j);
        MulMono(p, i + 1, j);
        Distribute(p, i, 1);
      }
    } else {
      PaddingIsLargestFit(number);
      AnchorsEvenlySpaced(number, 0);
    }
  }

  /** Once the padding is zero every option is drawn at `OPTION_START_Y`, one
      on top of the other. */
  lemma AnchorsCollapse(number: int, j: int)
    requires 0 <= j < number && LayoutPadding(number) == 0
    ensures OptionCoordinates(number)[j].y == OPTION_START_Y
  {
    AnchorY(number, j);
  }

  // The layouts for zero to five options.

  lemma LayoutOfNone()
    ensures OptionCoordinates(0) == []
  {
  }

  lemma LayoutOfOne()
    ensures OptionCoordinates(1) == [Anchor(29, 364)]
  {
  }

  lemma LayoutOfTwo()
    ensures OptionCoordinates(2) == [Anchor(29, 297), Anchor(29, 430)]
  {
  }

  lemma LayoutOfThree()
    ensures OptionCoordinates(3) == [Anchor(29, 164), Anchor(29, 364), Anchor(29, 564)]
  {
  }

  lemma LayoutOfFour()
    ensures OptionCoordinates(4) == [Anchor(29, 244), Anchor(29, 324), Anchor(29, 404), Anchor(29, 484)]
  {
    assert LayoutPadding(4) == 80;
  }

  lemma LayoutOfFive()
    ensures OptionCoordinates(5) == [Anchor(29, 164), Anchor(29, 264), Anchor(29, 364), Anchor(29, 464), Anchor(29, 564)]
  {
  }

  // ---------------------------------------------------------------------
  // Placing the options of a trial image

  /** A rectangle by its left, top, right and bottom edges. */
  datatype Region = Region(left: int, top: int, right: int, bottom: int)

  predicate InsideTrialImage(r: Region) {
    0 <= r.left <= r.right <= TRIAL_IMAGE_WIDTH && 0 <= r.top <= r.bottom <= TRIAL_IMAGE_HEIGHT
  }

  /** `inner` lies wholly inside `outer`. */
  predicate Within(inner: Region, outer: Region) {
    outer.left <= inner.left <= inner.right <= outer.right && outer.top <= inner.top <= inner.bottom <= outer.bottom
  }

  /** The option frame pasted at an anchor: `OPTION_WIDTH` by
      `OPTION_HEIGHT`, its top-left corner at the anchor. */
  function OptionBox(a: Anchor): (r: Region)
    ensures r.left == a.x && r.top == a.y
    ensures r.right - r.left == OPTION_WIDTH && r.bottom - r.top == OPTION_HEIGHT
  {
    Region(a.x, a.y, a.x + OPTION_WIDTH, a.y + OPTION_HEIGHT)
  }

  /** The region the option's text is fitted into: `TEXT_WIDTH` by
      `TEXT_HEIGHT`, wholly inside the option frame. */
  function TextBox(a: Anchor): (r: Region)
    ensures r.right - r.left == TEXT_WIDTH && r.bottom - r.top == TEXT_HEIGHT
    ensures Within(r, OptionBox(a))
  {
    Region(a.x + TEXT_OFFSET_X, a.y + TEXT_OFFSET_Y,
           a.x + TEXT_OFFSET_X + TEXT_WIDTH, a.y + TEXT_OFFSET_Y + TEXT_HEIGHT)
  }

  /** The region the statement icon is pasted into: `STATEMENT_ICON_WIDTH`
      by `STATEMENT_ICON_HEIGHT`, within the frame's width, overhanging its
      top edge and clear of the text region on the left. */
  function IconBox(a: Anchor): (r: Region)
    ensures r.right - r.left == STATEMENT_ICON_WIDTH && r.bottom - r.top == STATEMENT_ICON_HEIGHT
    ensures OptionBox(a).left <= r.left && r.right <= OptionBox(a).right
    ensures r.top < OptionBox(a).top < r.bottom
    ensures r.left < TextBox(a).left
  {
    Region(a.x + STATEMENT_OFFSET_X, a.y + STATEMENT_OFFSET_Y,
           a.x + STATEMENT_OFFSET_X + STATEMENT_ICON_WIDTH, a.y + STATEMENT_OFFSET_Y + STATEMENT_ICON_HEIGHT)
  }

  /** Python's `zip`: pairs up to the length of the shorter sequence. */
  function Zip<A, B>(xs: seq<A>, ys: seq<B>): (r: seq<(A, B)>)
    ensures |r| == if |xs| <= |ys| then |xs| else |ys|
    ensures forall i :: 0 <= i < |r| ==> r[i].0 == xs[i] && r[i].1 == ys[i]
  {
    seq(if |xs| <= |ys| then |xs| else |ys|, i requires 0 <= i < |xs| && i < |ys| => (xs[i], ys[i]))
  }

  /** Every anchor of a layout puts the option frame, its text and its
      statement icon inside the trial image. */
  lemma AnchorsInsideImage(number: int)
    ensures forall j :: 0 <= j < |OptionCoordinates(number)| ==>
      var a := OptionCoordinates(number)[j];
      InsideTrialImage(OptionBox(a)) && InsideTrialImage(TextBox(a)) && InsideTrialImage(IconBox(a))
  {
    forall j | 0 <= j < |OptionCoordinates(number)|
      ensures var a := OptionCoordinates(number)[j];
        InsideTrialImage(OptionBox(a)) && InsideTrialImage(TextBox(a)) && InsideTrialImage(IconBox(a))
    {
      AnchorsWithinBand(number, j);
    }
  }

  /** The options of a trial image paired with their anchors, in the order
      they are drawn: every option gets an anchor, none is dropped, and each
      is drawn wholly inside the image. */
  function TrialPlacements(options: seq<Option>): (r: seq<(Option, Anchor)>)
    ensures |r| == |options|
    ensures forall i :: 0 <= i < |r| ==> r[i].0 == options[i]
    ensures forall i :: 0 <= i < |r| ==> r[i].1 == OptionCoordinates(|options|)[i]
    ensures forall i :: 0 <= i < |r| ==>
      InsideTrialImage(OptionBox(r[i].1)) && InsideTrialImage(TextBox(r[i].1)) && InsideTrialImage(IconBox(r[i].1))
  {
    var coordinates := OptionCoordinates(|options|);
    AnchorsInsideImage(|options|);
    Zip(options, coordinates)
  }

  // ---------------------------------------------------------------------
  // Asset paths

  /** `base / rel` for a relative `rel`, as a string. */
  function PathJoin(base: string, rel: string): string {
    base + "/" + rel
  }

  /** `Path(p).name`: the part after the last `/`. */
  function BaseName(p: string): (r: string)
    ensures '/' !in r
    ensures |r| <= |p| && r == p[|p| - |r|..]
    ensures |r| < |p| ==> p[|p| - |r| - 1] == '/'
    decreases |p|
  {
    if p == [] || p[|p| - 1] == '/' then [] else BaseName(p[..|p| - 1]) + [p[|p| - 1]]
  }

  /** Taking the final component changes nothing exactly when there is no
      `/` to cut at. */
  lemma {:induction false} BaseNameIdentity(p: string)
    ensures BaseName(p) == p <==> '/' !in p
  {
    if p != [] && p[|p| - 1] != '/' {
      BaseNameIdentity(p[..|p| - 1]);
      assert p == p[..|p| - 1] + [p[|p| - 1]];
    }
  }

  /** The faces Anan may be drawn with. */
  const FACE_WHITELIST: set<string> := {"害羞", "生气", "病娇", "无语", "开心"}

  /** The error raised for a face outside the whitelist. */
  datatype FaceError = InvalidFace(face: string)

  /** The directory of Anan's base images under the plugin root. */
  function AnanDir(root: string): string {
    PathJoin(root, "assets/anan")
  }

  /** The base image for Anan's face: the default without a face, an error
      for a face outside the whitelist, otherwise the face's own image. */
  function AnanBaseImage(root: string, face: Optional<string>): (r: Result<string, FaceError>)
    ensures face.None? ==> r == Ok(PathJoin(AnanDir(root), "base.png"))
    ensures face.Some? && face.value !in FACE_WHITELIST ==> r == Err(InvalidFace(face.value))
    ensures face.Some? && face.value in FACE_WHITELIST ==> r == Ok(PathJoin(AnanDir(root), face.value + ".png"))
  {
    if face.None? then
      assert PathJoin(root, "assets/anan/base.png") == PathJoin(AnanDir(root), "base.png");
      Ok(PathJoin(root, "assets/anan/base.png"))
    else if face.value !in FACE_WHITELIST then
      Err(InvalidFace(face.value))
    else
      var safeFace := BaseName(face.value);
      BaseNameIdentity(face.value);
      Ok(PathJoin(PathJoin(root, "assets/anan"), safeFace + ".png"))
  }

  /** The file names Anan's base image can have. */
  const ANAN_FILES: set<string> := {"base.png"} + set f | f in FACE_WHITELIST :: f + ".png"

  /** Whatever the face, a path that comes back names a file directly inside
      Anan's directory, never one outside it. */
  lemma AnanBaseImageConfined(root: string, face: Optional<string>)
    ensures AnanBaseImage(root, face).Ok? ==>
      var path, dir := AnanBaseImage(root, face).value, AnanDir(root) + "/";
      && dir <= path
      && '/' !in path[|dir|..]
      && path[|dir|..] in ANAN_FILES
  {
    var dir := AnanDir(root) + "/";
    if AnanBaseImage(root, face).Ok? {
      var name := if face.None? then "base.png" else face.value + ".png";
      assert AnanBaseImage(root, face).value == dir + name;
      assert (dir + name)[|dir|..] == name;
    }
  }

  /** A traversal attempt is refused by the whitelist. */
  lemma AnanTraversalRefused(root: string)
    ensures AnanBaseImage(root, Some("../../etc/passwd")) == Err(InvalidFace("../../etc/passwd"))
  {
  }

  /** The icon file of each statement kind: a `.png` file with a non-empty
      stem. */
  function StatementIconFile(s: Statement): (r: string)
    ensures |r| > 4 && r[|r| - 4..] == ".png"
  {
    IconStem(s) + ".png"
  }

  /** The stem of each statement kind's icon file. */
  function IconStem(s: Statement): (r: string)
    ensures r != []
  {
    match s
    case AGREEMENT => "agreement"
    case DOUBT => "doubt"
    case PERJURY => "perjury"
    case REFUTATION => "refutation"
    case MAGIC_CHIYUSAISEI => "magic_chiyusaisei"
    case MAGIC_EKITAISOUSA => "magic_ekitaisousa"
    case MAGIC_FUYUU => "magic_fuyuu"
    case MAGIC_GENSHI => "magic_genshi"
    case MAGIC_HAKKA => "magic_hakka"
    case MAGIC_IREKAWARI => "magic_irekawari"
    case MAGIC_KAIRIKI => "magic_kairiki"
    case MAGIC_MAJOGOROSHI => "magic_majogoroshi"
    case MAGIC_MONOMANE => "magic_monomane"
    case MAGIC_SENNOU => "magic_sennou"
    case MAGIC_SENRIGAN => "magic_senrigan"
    case MAGIC_SHINIMODORI => "magic_shinimodori"
    case MAGIC_SHISENYUUDOU => "magic_shisenyuudou"
  }

  /** Distinct statement kinds have distinct icon files. */
  lemma StatementIconFileInjective(a: Statement, b: Statement)
    requires StatementIconFile(a) == StatementIconFile(b)
    ensures a == b
  {
  }

  /** The directory of the trial assets under the plugin root. */
  function TrialDir(root: string): string {
    PathJoin(root, "assets/trial")
  }

  /** The icon image of a statement kind: a `.png` file in the trial
      directory, for every one of the seventeen kinds. */
  function StatementImage(root: string, s: Statement): (r: string)
    ensures var dir := TrialDir(root) + "/";
      && dir <= r
      && r[|dir|..] == StatementIconFile(s)
      && |r| > |dir| + 4 && r[|r| - 4..] == ".png"
  {
    var dir := TrialDir(root) + "/";
    assert PathJoin(TrialDir(root), StatementIconFile(s)) == dir + StatementIconFile(s);
    PathJoin(TrialDir(root), StatementIconFile(s))
  }

  /** Distinct statement kinds get distinct images. */
  lemma StatementImageInjective(root: string, a: Statement, b: Statement)
    requires StatementImage(root, a) == StatementImage(root, b)
    ensures a == b
  {
    StatementIconFileInjective(a, b);
  }
}
