/** The specialist card deck of the Clinicans page
    (components/clinicans/ClinicansCardScroll.tsx).

    The section's scroll progress, a value in [0, 1], is split into one
    equal slot per card. Inside its slot a card spends the first 15% coming
    in, the middle 70% held perfectly still, and the last 15% going out.
    Each animated property is a clamped piecewise-linear map of the
    progress over the keyframe positions [start, entrance, exit, end]. */
module CardScroll {
  import opened Keyframes

  /** Share of a slot spent on the entry zone, and again on the exit zone. */
  const TransitionShare: real := 0.15

  /** How far beyond its slot, on each side, a card stays in the layout. */
  const DisplayMargin: real := 0.05

  /** Keyframe values for [start, entrance, exit, end]. `YValues` are the
      vertical offsets in px ("30px" ... "-30px"); `BlurValues` the blur
      radius in px. */
  const OpacityValues: seq<real> := [0.0, 1.0, 1.0, 0.0]
  const ScaleValues: seq<real> := [0.9, 1.0, 1.0, 1.1]
  const YValues: seq<real> := [30.0, 0.0, 0.0, -30.0]
  const BlurValues: seq<real> := [10.0, 0.0, 0.0, 10.0]

  /** The four keyframe positions of one card. */
  datatype Phase = Phase(start: real, entrance: real, exit: real, end: real)

  predicate Ordered(ph: Phase) {
    ph.start < ph.entrance < ph.exit < ph.end
  }

  /** A card's CSS `filter`: the string "none" when the blur radius is 0,
      otherwise `blur(<radius>px)`. */
  datatype Filter = NoFilter | Blur(radius: real)

  /** Everything the card's wrapper receives in its `style` prop. */
  datatype CardStyle = CardStyle(
    opacity: real, scale: real, y: real, filter: Filter, display: string, zIndex: nat)

  lemma MulMonotone(a: real, b: real, c: real)
    requires a <= b && c >= 0.0
    ensures a * c <= b * c
  {
    assert (b - a) * c >= 0.0;
  }

  /** The phase of card `index` in a deck of `total` cards. The deck only
      ever instantiates cards with an index below the card count. */
  function CardPhase(index: nat, total: nat): (ph: Phase)
    requires index < total
    ensures Ordered(ph)
    ensures 0.0 <= ph.start && ph.end <= 1.0
    ensures ph.end - ph.start == 1.0 / total as real
    ensures ph.entrance - ph.start == ph.end - ph.exit == TransitionShare * (ph.end - ph.start)
    ensures ph.exit - ph.entrance == 0.7 * (ph.end - ph.start)
  {
    var step := 1.0 / total as real;
    assert step > 0.0;
    var start := index as real * step;
    var end := start + step;
    assert end == (index + 1) as real * step;
    assert total as real * step == 1.0;
    MulMonotone((index + 1) as real, total as real, step);
    var zone := step * TransitionShare;
    Phase(start, start + zone, end - zone, end)
  }

  /** The keyframe positions handed to every `useTransform` of a card. */
  function Keys(ph: Phase): (ks: seq<real>)
    requires Ordered(ph)
    ensures |ks| == 4 && StrictlyIncreasing(ks)
    ensures ks[0] == ph.start && ks[3] == ph.end
  {
    [ph.start, ph.entrance, ph.exit, ph.end]
  }

  function FilterOf(blur: real): Filter {
    if blur == 0.0 then NoFilter else Blur(blur)
  }

  /** The CSS text of a filter; `fmt` is JavaScript's number-to-string
      conversion, which this model does not spell out. */
  function FilterCss(f: Filter, fmt: real -> string): string {
    match f
    case NoFilter => "none"
    case Blur(v) => "blur(" + fmt(v) + "px)"
  }

  /** "flex" while the progress is within the card's slot widened by
      `DisplayMargin` on both sides, "none" otherwise. */
  function DisplayOf(ph: Phase, p: real): string {
    if p >= ph.start - DisplayMargin && p <= ph.end + DisplayMargin then "flex" else "none"
  }

  /** The animated value of one property of a card at progress p. */
  function Animate(ph: Phase, vs: seq<real>, p: real): real
    requires Ordered(ph) && |vs| == 4
  {
    Interpolate(Keys(ph), vs, p)
  }

  /** The style of card `index` of `total` at scroll progress p. Whatever
      the progress, no property overshoots its keyframe range. */
  function Style(index: nat, total: nat, p: real): (s: CardStyle)
    requires index < total
    ensures 0.0 <= s.opacity <= 1.0
    ensures 0.9 <= s.scale <= 1.1
    ensures -30.0 <= s.y <= 30.0
    ensures s.filter.Blur? ==> 0.0 < s.filter.radius <= 10.0
    ensures s.zIndex == index
  {
    var ph := CardPhase(index, total);
    var blur := Animate(ph, BlurValues, p);
    InterpolateBounded(Keys(ph), OpacityValues, p, 0.0, 1.0);
    InterpolateBounded(Keys(ph), ScaleValues, p, 0.9, 1.1);
    InterpolateBounded(Keys(ph), YValues, p, -30.0, 30.0);
    InterpolateBounded(Keys(ph), BlurValues, p, 0.0, 10.0);
    CardStyle(
      Animate(ph, OpacityValues, p),
      Animate(ph, ScaleValues, p),
      Animate(ph, YValues, p),
      FilterOf(blur),
      DisplayOf(ph, p),
      index)
  }

  /** Height of the section in vh: one viewport height per card. The
      scroll distance this leaves is `ScrollDistanceVh`. */
  function SectionHeightVh(cardCount: nat): nat {
    cardCount * 100
  }

  /** Height of the progress-bar fill, in percent, at progress p. */
  function ProgressBarPercent(p: real): real {
    Interpolate([0.0, 1.0], [0.0, 100.0], p)
  }

  // ---------------------------------------------------------------------
  // The slots
  // ---------------------------------------------------------------------

  /** The slots tile [0, 1]: the first starts at 0, the last ends at 1,
      and each slot ends exactly where the next begins. */
  lemma SlotsTile(total: nat)
    requires total >= 1
    ensures CardPhase(0, total).start == 0.0
    ensures CardPhase(total - 1, total).end == 1.0
    ensures forall i :: 0 <= i < total - 1 ==> CardPhase(i, total).end == CardPhase(i + 1, total).start
  {
    var step := 1.0 / total as real;
    assert (total - 1) as real * step + step == total as real * step == 1.0;
  }

  /** The slot holding a progress already scaled by the card count:
      the integer part, with the very end assigned to the last slot. */
  function SlotIndex(scaled: real, total: nat): (i: nat)
    requires total >= 1 && 0.0 <= scaled <= total as real
    ensures i < total && i as real <= scaled <= (i + 1) as real
  {
    var k := scaled.Floor;
    if k >= total then total - 1 else k
  }

  /** Dividing a bounded product by its positive factor keeps the bounds,
      scaled by the reciprocal. */
  lemma Unscale(p: real, t: real, lo: real, hi: real)
    requires t > 0.0 && lo <= p * t <= hi
    ensures lo * (1.0 / t) <= p <= hi * (1.0 / t)
  {
    var step := 1.0 / t;
    assert t * step == 1.0;
    assert (p * t) * step == p * (t * step) == p;
    MulMonotone(lo, p * t, step);
    MulMonotone(p * t, hi, step);
  }

  /** Scaled progress between i and i + 1 means progress inside slot i. */
  lemma ScaledInSlot(i: nat, total: nat, p: real)
    requires i < total
    requires i as real <= p * total as real <= (i + 1) as real
    ensures CardPhase(i, total).start <= p <= CardPhase(i, total).end
  {
    Unscale(p, total as real, i as real, (i + 1) as real);
  }

  /** Every progress value in [0, 1] lies in some card's slot. */
  lemma SlotsCover(p: real, total: nat)
    requires total >= 1 && 0.0 <= p <= 1.0
    ensures exists i :: 0 <= i < total && CardPhase(i, total).start <= p <= CardPhase(i, total).end
  {
    MulMonotone(p, 1.0, total as real);
    var i := SlotIndex(p * total as real, total);
    ScaledInSlot(i, total, p);
  }

  /** Hold windows of different cards are disjoint and in card order: the
      earlier card's hold is over strictly before the later card's begins. */
  lemma HoldsDisjoint(i: nat, j: nat, total: nat)
    requires i < j < total
    ensures CardPhase(i, total).exit < CardPhase(j, total).entrance
  {
    var step := 1.0 / total as real;
    var a, b := CardPhase(i, total), CardPhase(j, total);
    assert a.end == (i + 1) as real * step;
    assert b.start == j as real * step;
    MulMonotone((i + 1) as real, j as real, step);
    assert a.exit < a.end <= b.start < b.entrance;
  }

  /** Progress runs from the section's top meeting the viewport's top to
      its bottom meeting the viewport's bottom: the page scrolls the
      section height less one viewport height from progress 0 to
      progress 1. */
  function ScrollDistanceVh(cardCount: nat): int {
    SectionHeightVh(cardCount) - 100
  }

  /** Each card's slot is 100 vh of the section's height (70 vh of hold),
      but the page scrolls only (total - 1) * 100 / total vh through it: a
      lone card gets no scrolling at all, and with two or more cards each
      gets at least half a viewport and less than a whole one. */
  lemma CardScrollDistance(index: nat, total: nat)
    requires index < total
    ensures var ph := CardPhase(index, total);
      && SectionHeightVh(total) as real * (ph.end - ph.start) == 100.0
      && SectionHeightVh(total) as real * (ph.exit - ph.entrance) == 70.0
    ensures var ph := CardPhase(index, total);
      && ScrollDistanceVh(total) as real * (ph.end - ph.start) == 100.0 - 100.0 / total as real
      && ScrollDistanceVh(total) as real * (ph.exit - ph.entrance) == 0.7 * (100.0 - 100.0 / total as real)
    ensures total == 1 ==> ScrollDistanceVh(total) == 0
    ensures total >= 2 ==> var ph := CardPhase(index, total);
      50.0 <= ScrollDistanceVh(total) as real * (ph.end - ph.start) < 100.0
  {
    var t := total as real;
    var step := 1.0 / t;
    assert t * step == 1.0;
    assert 100.0 / t == 100.0 * step;
    assert (total * 100) as real * step == 100.0 * (t * step);
    assert ((total * 100 - 100) as real) * step == 100.0 * (t * step) - 100.0 * step;
    if total >= 2 {
      MulMonotone(2.0, t, step);
    }
  }

  // ---------------------------------------------------------------------
  // The animation of one card
  // ---------------------------------------------------------------------

  /** The dead-stop hold: anywhere in [entrance, exit] the card is fully
      opaque, at natural size, not shifted, not blurred, and displayed. */
  lemma HoldIsStill(index: nat, total: nat, p: real)
    requires index < total
    requires CardPhase(index, total).entrance <= p <= CardPhase(index, total).exit
    ensures Style(index, total, p) == CardStyle(1.0, 1.0, 0.0, NoFilter, "flex", index)
  {
    var ks := Keys(CardPhase(index, total));
    InterpolateFlat(ks, OpacityValues, 1, p);
    InterpolateFlat(ks, ScaleValues, 1, p);
    InterpolateFlat(ks, YValues, 1, p);
    InterpolateFlat(ks, BlurValues, 1, p);
  }

  /** A property whose keyframes are [a, b, b, c] with a != b and c != b
      takes the value b exactly during the hold. */
  lemma PeakOnlyInHold(ph: Phase, vs: seq<real>, p: real)
    requires Ordered(ph) && |vs| == 4
    requires vs[1] == vs[2] && vs[0] != vs[1] && vs[3] != vs[2]
    ensures Animate(ph, vs, p) == vs[1] <==> ph.entrance <= p <= ph.exit
  {
    var ks := Keys(ph);
    if p <= ph.start || p >= ph.end {
    } else if p < ph.entrance {
      InterpolateOnSegment(ks, vs, 0, p);
      LerpStrictlyInside(ks[0], ks[1], vs[0], vs[1], p);
    } else if p <= ph.exit {
      InterpolateFlat(ks, vs, 1, p);
    } else {
      InterpolateOnSegment(ks, vs, 2, p);
      LerpStrictlyInside(ks[2], ks[3], vs[2], vs[3], p);
    }
  }

  /** A card is fully opaque, and unblurred, exactly during its hold. */
  lemma OpaqueExactlyInHold(index: nat, total: nat, p: real)
    requires index < total
    ensures var ph := CardPhase(index, total);
      && (Style(index, total, p).opacity == 1.0 <==> ph.entrance <= p <= ph.exit)
      && (Style(index, total, p).filter == NoFilter <==> ph.entrance <= p <= ph.exit)
  {
    var ph := CardPhase(index, total);
    PeakOnlyInHold(ph, OpacityValues, p);
    PeakOnlyInHold(ph, BlurValues, p);
  }

  /** At any progress at most one card of the deck is fully opaque. */
  lemma AtMostOneCardHeld(i: nat, j: nat, total: nat, p: real)
    requires i < total && j < total
    requires Style(i, total, p).opacity == 1.0 && Style(j, total, p).opacity == 1.0
    ensures i == j
  {
    OpaqueExactlyInHold(i, total, p);
    OpaqueExactlyInHold(j, total, p);
    if i < j {
      HoldsDisjoint(i, j, total);
    } else if j < i {
      HoldsDisjoint(j, i, total);
    }
  }

  /** At the edges of its slot a card is invisible: entering it is small,
      low and blurred; leaving it is large, high and blurred. */
  lemma SlotEdges(index: nat, total: nat)
    requires index < total
    ensures var ph := CardPhase(index, total);
      && Style(index, total, ph.start) == CardStyle(0.0, 0.9, 30.0, Blur(10.0), "flex", index)
      && Style(index, total, ph.end) == CardStyle(0.0, 1.1, -30.0, Blur(10.0), "flex", index)
  {
  }

  /** At progress 0 the first card shows its entry values; at progress 1
      the last card shows its exit values. */
  lemma DeckEnds(total: nat)
    requires total >= 1
    ensures Style(0, total, 0.0).opacity == 0.0 && Style(0, total, 0.0).scale == 0.9
    ensures Style(total - 1, total, 1.0).opacity == 0.0 && Style(total - 1, total, 1.0).scale == 1.1
  {
    SlotsTile(total);
    SlotEdges(0, total);
    SlotEdges(total - 1, total);
  }

  /** Outside its own slot a card is fully transparent and fully blurred. */
  lemma TransparentOutsideSlot(index: nat, total: nat, p: real)
    requires index < total
    requires p <= CardPhase(index, total).start || p >= CardPhase(index, total).end
    ensures Style(index, total, p).opacity == 0.0
    ensures Style(index, total, p).filter == Blur(10.0)
  {
  }

  /** The display band contains the card's whole slot, so any card that is
      at all visible is laid out; a card removed from layout is invisible. */
  lemma VisibleCardIsDisplayed(index: nat, total: nat, p: real)
    requires index < total
    ensures var ph := CardPhase(index, total);
      ph.start <= p <= ph.end ==> Style(index, total, p).display == "flex"
    ensures Style(index, total, p).opacity > 0.0 ==> Style(index, total, p).display == "flex"
    ensures Style(index, total, p).display == "none" ==> Style(index, total, p).opacity == 0.0
  {
    var ph := CardPhase(index, total);
    if p <= ph.start || p >= ph.end {
      TransparentOutsideSlot(index, total, p);
    }
  }

  /** The text of the filter is "none" exactly when the blur radius is 0,
      and `blur(...px)` otherwise. */
  lemma FilterTextMatchesBlur(blur: real, fmt: real -> string)
    ensures FilterCss(FilterOf(blur), fmt) == "none" <==> blur == 0.0
    ensures blur != 0.0 ==> FilterCss(FilterOf(blur), fmt) == "blur(" + fmt(blur) + "px)"
  {
    if blur != 0.0 {
      var s := FilterCss(FilterOf(blur), fmt);
      assert s[0] == 'b';
    }
  }

  /** Five cards, progress 0.1: the first card is held (slot [0, 0.2],
      hold [0.03, 0.17]) and the other four are out of the layout. */
  lemma FiveCardScenario()
    ensures Style(0, 5, 0.1).opacity == 1.0 && Style(0, 5, 0.1).scale == 1.0
    ensures forall i :: 1 <= i < 5 ==> Style(i, 5, 0.1).display == "none"
  {
    HoldIsStill(0, 5, 0.1);
    forall i | 1 <= i < 5 ensures Style(i, 5, 0.1).display == "none" {
      assert CardPhase(i, 5).start >= 0.2;
    }
  }

  /** The progress bar mirrors the raw progress: 0% to 100% over [0, 1],
      pinned at the ends outside it. */
  lemma ProgressBarMirrorsProgress(p: real)
    ensures 0.0 <= p <= 1.0 ==> ProgressBarPercent(p) == 100.0 * p
    ensures p <= 0.0 ==> ProgressBarPercent(p) == 0.0
    ensures p >= 1.0 ==> ProgressBarPercent(p) == 100.0
  {
    if 0.0 <= p <= 1.0 {
      InterpolateOnSegment([0.0, 1.0], [0.0, 100.0], 0, p);
    }
  }
}
