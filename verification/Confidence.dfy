/**
  The confidence composite of an answer (`calculate_confidence` of confidence.py), over real
  numbers. The rounding of the returned scores to six decimals is part of the model; the
  rounding of floating point in between is not.
 */
module Confidence {
  import opened Text

  const MEDIUM_FLOOR := 0.30
  const HIGH_FLOOR := 0.60

  datatype Settings = Settings(confidenceHigh: real, confidenceMedium: real,
                               groundednessHigh: real, groundednessMedium: real)

  /** The ranges and orders that the configuration enforces. */
  ghost predicate ValidSettings(s: Settings) {
    && 0.0 <= s.confidenceMedium < s.confidenceHigh <= 1.0
    && 0.0 <= s.groundednessMedium < s.groundednessHigh <= 1.0
  }

  datatype Inputs = Inputs(top1Retrieval: Option<real>, top1Rerank: Option<real>,
                           markerCount: int, uniqueCitationCount: int, selectedCount: int)

  datatype Label = Low | Medium | High

  datatype Scores = Scores(answerConfidence: real, groundedness: real, confidenceLabel: Label)

  datatype Component = Component(weight: real, value: real, present: bool)

  function Min(a: real, b: real): real { if b < a then b else a }

  function Max(a: real, b: real): real { if b > a then b else a }

  function Clamp(value: real): real {
    Min(1.0, Max(0.0, value))
  }

  // ---- the renormalised weighted mean

  function Present(components: seq<Component>): seq<Component> {
    if components == [] then []
    else (if components[0].present then [components[0]] else []) + Present(components[1..])
  }

  function WeightSum(components: seq<Component>): real {
    if components == [] then 0.0 else components[0].weight + WeightSum(components[1..])
  }

  function WeightedSum(components: seq<Component>): real {
    if components == [] then 0.0
    else components[0].weight * components[0].value + WeightedSum(components[1..])
  }

  function WeightedRenormalized(components: seq<Component>): real {
    var present := Present(components);
    if WeightSum(present) <= 0.0 then 0.0 else WeightedSum(present) / WeightSum(present)
  }

  ghost predicate WithinUnit(components: seq<Component>) {
    forall i :: 0 <= i < |components| ==> components[i].weight >= 0.0 && 0.0 <= components[i].value <= 1.0
  }

  /** The same signals with the same weights, none of them weaker. */
  ghost predicate NotWeaker(a: seq<Component>, b: seq<Component>) {
    && |a| == |b|
    && forall i :: 0 <= i < |a| ==>
         a[i].weight == b[i].weight && a[i].present == b[i].present && a[i].value <= b[i].value
  }

  lemma Cons(c: Component, rest: seq<Component>)
    ensures Present([c] + rest) == (if c.present then [c] else []) + Present(rest)
    ensures WeightSum([c] + rest) == c.weight + WeightSum(rest)
    ensures WeightedSum([c] + rest) == c.weight * c.value + WeightedSum(rest)
  {
    assert ([c] + rest)[1..] == rest;
  }

  lemma {:induction false} SumWithinUnit(components: seq<Component>)
    requires WithinUnit(components)
    ensures 0.0 <= WeightedSum(Present(components)) <= WeightSum(Present(components))
  {
    if components != [] {
      var c, rest := components[0], components[1..];
      assert components == [c] + rest;
      SumWithinUnit(rest);
      Cons(c, rest);
      Cons(c, Present(rest));
      hide Present, WeightSum, WeightedSum;
      Scale(c.weight, c.value, 1.0);
      Scale(c.weight, 0.0, c.value);
      assert [] + Present(rest) == Present(rest);
    }
  }

  lemma Scale(w: real, x: real, y: real)
    requires w >= 0.0 && x <= y
    ensures w * x <= w * y
  {}

  lemma Quotient(x: real, y: real, w: real)
    requires w > 0.0 && x <= y
    ensures x / w <= y / w
  {
    Scale(1.0 / w, x, y);
    assert x / w == (1.0 / w) * x && y / w == (1.0 / w) * y;
  }

  /** The composite of signals within the unit interval lies within the unit interval. */
  lemma RenormalizedWithinUnit(components: seq<Component>)
    requires WithinUnit(components)
    ensures 0.0 <= WeightedRenormalized(components) <= 1.0
  {
    SumWithinUnit(components);
    var present := Present(components);
    if WeightSum(present) > 0.0 {
      Quotient(0.0, WeightedSum(present), WeightSum(present));
      Quotient(WeightedSum(present), WeightSum(present), WeightSum(present));
    }
  }

  lemma {:induction false} SumNotWeaker(a: seq<Component>, b: seq<Component>)
    requires NotWeaker(a, b) && WithinUnit(a)
    ensures WeightSum(Present(a)) == WeightSum(Present(b))
    ensures WeightedSum(Present(a)) <= WeightedSum(Present(b))
  {
    if a != [] {
      var c, e, p, q := a[0], b[0], a[1..], b[1..];
      assert a == [c] + p && b == [e] + q;
      SumNotWeaker(p, q);
      Cons(c, p);
      Cons(e, q);
      Cons(c, Present(p));
      Cons(e, Present(q));
      hide Present, WeightSum, WeightedSum;
      Scale(c.weight, c.value, e.value);
      assert [] + Present(p) == Present(p) && [] + Present(q) == Present(q);
    }
  }

  /** No signal can lower the composite by getting stronger. */
  lemma RenormalizedMonotone(a: seq<Component>, b: seq<Component>)
    requires NotWeaker(a, b) && WithinUnit(a)
    ensures WeightedRenormalized(a) <= WeightedRenormalized(b)
  {
    SumNotWeaker(a, b);
    var w := WeightSum(Present(a));
    if w > 0.0 {
      Quotient(WeightedSum(Present(a)), WeightedSum(Present(b)), w);
    }
  }

  /** A missing signal weighs nothing: with or without its component the composite is the same. */
  lemma {:induction false} AbsentSignalIsIgnored(front: seq<Component>, c: Component, back: seq<Component>)
    requires !c.present
    ensures WeightedRenormalized(front + [c] + back) == WeightedRenormalized(front + back)
  {
    PresentConcat(front, back);
    PresentConcat(front + [c], back);
    PresentConcat(front, [c]);
    assert [c] + [] == [c];
    Cons(c, []);
    assert Present(front + [c]) == Present(front);
  }

  lemma {:induction false} PresentConcat(a: seq<Component>, b: seq<Component>)
    ensures Present(a + b) == Present(a) + Present(b)
  {
    if a == [] {
      assert a + b == b;
    } else {
      var c, rest := a[0], a[1..];
      assert a == [c] + rest && a + b == [c] + (rest + b);
      Cons(c, rest);
      Cons(c, rest + b);
      PresentConcat(rest, b);
      hide Present;
      var head := if c.present then [c] else [];
      assert head + (Present(rest) + Present(b)) == (head + Present(rest)) + Present(b);
    }
  }

  // ---- the parts of the composite

  function OptionalScore(value: Option<real>): real {
    if value.None? then 0.0 else Clamp(value.value)
  }

  function PresentScores(scores: seq<Option<real>>): seq<real> {
    if scores == [] then []
    else (if scores[0].Some? then [OptionalScore(scores[0])] else []) + PresentScores(scores[1..])
  }

  function Sum(values: seq<real>): real {
    if values == [] then 0.0 else values[0] + Sum(values[1..])
  }

  /** `_retrieval_support_score` */
  function RetrievalSupportScore(scores: seq<Option<real>>): real {
    var present := PresentScores(scores);
    if present == [] then 0.0 else Sum(present) / (|present| as real)
  }

  function SafeRatio(numerator: int, denominator: int): real {
    if denominator <= 0 then 0.0 else Clamp(numerator as real / denominator as real)
  }

  function ContextStrength(selectedCount: int): real {
    if selectedCount > 0 then 1.0 else 0.0
  }

  /** `_required_citation_count` */
  function RequiredCitationCount(selectedCount: int, uniqueCitationCount: int): int {
    if selectedCount <= 0 || uniqueCitationCount <= 0 then (if selectedCount > 1 then selectedCount else 1)
    else if uniqueCitationCount < selectedCount then uniqueCitationCount
    else selectedCount
  }

  function CitationCoverage(inputs: Inputs): real {
    var selectedCount := if inputs.selectedCount > 0 then inputs.selectedCount else 0;
    SafeRatio(inputs.uniqueCitationCount, RequiredCitationCount(selectedCount, inputs.uniqueCitationCount))
  }

  function Groundedness(inputs: Inputs): real {
    Clamp(0.75 * CitationCoverage(inputs) + 0.25 * (if inputs.markerCount > 0 then 1.0 else 0.0))
  }

  function Support(inputs: Inputs): real {
    RetrievalSupportScore([inputs.top1Retrieval, inputs.top1Rerank])
  }

  function Components(inputs: Inputs): seq<Component> {
    [Component(0.35, OptionalScore(inputs.top1Retrieval), inputs.top1Retrieval.Some?),
     Component(0.35, OptionalScore(inputs.top1Rerank), inputs.top1Rerank.Some?),
     Component(0.20, Groundedness(inputs), true),
     Component(0.10, ContextStrength(inputs.selectedCount), true)]
  }

  function BelowThreshold(threshold: real): real {
    Max(0.0, Min(1.0, threshold) - 0.01)
  }

  /** `_support_capped_confidence` */
  function SupportCapped(confidence: real, support: real, settings: Settings): real {
    if support < MEDIUM_FLOOR then Min(confidence, BelowThreshold(settings.confidenceMedium))
    else if support < HIGH_FLOOR then Min(confidence, BelowThreshold(settings.confidenceHigh))
    else confidence
  }

  /** The confidence before it is rounded; the label is decided on it. */
  function AnswerConfidence(inputs: Inputs, settings: Settings): real {
    SupportCapped(Clamp(WeightedRenormalized(Components(inputs))), Support(inputs), settings)
  }

  /** `_confidence_label` */
  function ConfidenceLabel(confidence: real, groundedness: real, support: real, settings: Settings): Label {
    if confidence >= settings.confidenceHigh && groundedness >= settings.groundednessHigh && support >= HIGH_FLOOR
    then High
    else if confidence >= settings.confidenceMedium && groundedness >= settings.groundednessMedium &&
            support >= MEDIUM_FLOOR
    then Medium
    else Low
  }

  /** The nearest integer, the even one of two equally near. */
  function RoundHalfEven(x: real): int {
    var f := x.Floor;
    var rest := x - f as real;
    if rest < 0.5 || (rest == 0.5 && f % 2 == 0) then f else f + 1
  }

  /** Rounding to six decimals. */
  function Round6(x: real): real {
    RoundHalfEven(x * 1000000.0) as real / 1000000.0
  }

  /** `calculate_confidence` */
  function Calculate(inputs: Inputs, settings: Settings): Scores {
    var confidence := AnswerConfidence(inputs, settings);
    var groundedness := Groundedness(inputs);
    Scores(Round6(confidence), Round6(groundedness),
           ConfidenceLabel(confidence, groundedness, Support(inputs), settings))
  }

  /** `has_high_retrieval_support` */
  predicate HasHighSupport(inputs: Inputs) {
    Support(inputs) >= HIGH_FLOOR
  }

  // ---- what the parts come to

  /** One citation is full coverage, whatever was selected. */
  lemma CoverageIsAllOrNothing(inputs: Inputs)
    ensures CitationCoverage(inputs) == if inputs.uniqueCitationCount > 0 then 1.0 else 0.0
  {
    var u := inputs.uniqueCitationCount;
    var selectedCount := if inputs.selectedCount > 0 then inputs.selectedCount else 0;
    var n := RequiredCitationCount(selectedCount, u);
    assert n >= 1;
    if u > 0 {
      assert u >= n;
      Quotient(n as real, u as real, n as real);
      assert n as real / n as real == 1.0;
    } else {
      Quotient(u as real, 0.0, n as real);
    }
  }

  lemma GroundednessIs(inputs: Inputs)
    ensures Groundedness(inputs) ==
            (if inputs.uniqueCitationCount > 0 then 0.75 else 0.0) + (if inputs.markerCount > 0 then 0.25 else 0.0)
  {
    CoverageIsAllOrNothing(inputs);
    hide CitationCoverage;
  }

  lemma SupportIs(inputs: Inputs)
    ensures var a, b := inputs.top1Retrieval, inputs.top1Rerank;
      Support(inputs) ==
        if a.Some? && b.Some? then (OptionalScore(a) + OptionalScore(b)) / 2.0
        else OptionalScore(a) + OptionalScore(b)
  {
    hide OptionalScore;
    var a, b := inputs.top1Retrieval, inputs.top1Rerank;
    var x, y := OptionalScore(a), OptionalScore(b);
    assert [a, b][1..] == [b] && [b][1..] == [];
    assert PresentScores([b]) == if b.Some? then [y] else [];
    assert PresentScores([a, b]) == (if a.Some? then [x] else []) + PresentScores([b]);
    NoScore(a);
    NoScore(b);
    SumOfTwo(x, y);
    assert [x] + [y] == [x, y] && [x] + [] == [x] && [] + [y] == [y];
  }

  lemma SumOfTwo(x: real, y: real)
    ensures Sum([x]) == x && Sum([y]) == y && Sum([x, y]) == x + y
  {
    assert [x][1..] == [];
    assert Sum([x]) == x;
    assert [y][1..] == [];
    assert Sum([y]) == y;
    assert [x, y][1..] == [y];
  }

  lemma NoScore(value: Option<real>)
    ensures value.None? ==> OptionalScore(value) == 0.0
  {}

  lemma ComponentsWithinUnit(inputs: Inputs)
    ensures WithinUnit(Components(inputs))
  {
    GroundednessIs(inputs);
    hide Groundedness;
  }

  // ---- bounds

  /** The composite needs no clamping: its signals are within bounds already. */
  lemma ClampIsIdle(inputs: Inputs)
    ensures Clamp(WeightedRenormalized(Components(inputs))) == WeightedRenormalized(Components(inputs))
  {
    ComponentsWithinUnit(inputs);
    hide Components, WeightedRenormalized;
    RenormalizedWithinUnit(Components(inputs));
  }

  lemma AnswerConfidenceWithinUnit(inputs: Inputs, settings: Settings)
    requires ValidSettings(settings)
    ensures 0.0 <= AnswerConfidence(inputs, settings) <= 1.0
  {
    hide WeightedRenormalized, Components, Support;
  }

  lemma RoundMonotone(x: real, y: real)
    requires x <= y
    ensures Round6(x) <= Round6(y)
  {
    var a, b := x * 1000000.0, y * 1000000.0;
    assert a.Floor <= b.Floor;
    assert RoundHalfEven(a) <= RoundHalfEven(b);
    Quotient(RoundHalfEven(a) as real, RoundHalfEven(b) as real, 1000000.0);
  }

  /** The returned scores are confidences, for every input. */
  lemma ScoresWithinUnit(inputs: Inputs, settings: Settings)
    requires ValidSettings(settings)
    ensures 0.0 <= Calculate(inputs, settings).answerConfidence <= 1.0
    ensures 0.0 <= Calculate(inputs, settings).groundedness <= 1.0
  {
    AnswerConfidenceWithinUnit(inputs, settings);
    GroundednessIs(inputs);
    assert Round6(0.0) == 0.0 && Round6(1.0) == 1.0;
    hide AnswerConfidence, Groundedness, Round6;
    RoundMonotone(0.0, AnswerConfidence(inputs, settings));
    RoundMonotone(AnswerConfidence(inputs, settings), 1.0);
    RoundMonotone(0.0, Groundedness(inputs));
    RoundMonotone(Groundedness(inputs), 1.0);
  }

  // ---- monotonicity

  /** No weaker in any signal, and the same scores are there. */
  ghost predicate Below(a: Inputs, b: Inputs) {
    && a.top1Retrieval.Some? == b.top1Retrieval.Some?
    && a.top1Rerank.Some? == b.top1Rerank.Some?
    && (a.top1Retrieval.Some? ==> a.top1Retrieval.value <= b.top1Retrieval.value)
    && (a.top1Rerank.Some? ==> a.top1Rerank.value <= b.top1Rerank.value)
    && a.markerCount <= b.markerCount
    && a.uniqueCitationCount <= b.uniqueCitationCount
    && a.selectedCount <= b.selectedCount
  }

  lemma SupportMonotone(a: Inputs, b: Inputs)
    requires Below(a, b)
    ensures Support(a) <= Support(b)
  {
    SupportIs(a);
    SupportIs(b);
    hide Support;
  }

  lemma GroundednessMonotone(a: Inputs, b: Inputs)
    requires Below(a, b)
    ensures Groundedness(a) <= Groundedness(b)
  {
    GroundednessIs(a);
    GroundednessIs(b);
    hide Groundedness;
  }

  lemma CompositeMonotone(a: Inputs, b: Inputs)
    requires Below(a, b)
    ensures WeightedRenormalized(Components(a)) <= WeightedRenormalized(Components(b))
  {
    GroundednessMonotone(a, b);
    ComponentsWithinUnit(a);
    hide Groundedness, WeightedRenormalized;
    RenormalizedMonotone(Components(a), Components(b));
  }

  lemma ConfidenceMonotone(a: Inputs, b: Inputs, settings: Settings)
    requires ValidSettings(settings) && Below(a, b)
    ensures AnswerConfidence(a, settings) <= AnswerConfidence(b, settings)
  {
    CompositeMonotone(a, b);
    SupportMonotone(a, b);
    hide WeightedRenormalized, Components, Support;
  }

  function Rank(grade: Label): nat {
    match grade
    case Low => 0
    case Medium => 1
    case High => 2
  }

  /** A stronger signal never lowers a score or the label. */
  lemma CalculateMonotone(a: Inputs, b: Inputs, settings: Settings)
    requires ValidSettings(settings) && Below(a, b)
    ensures var x, y := Calculate(a, settings), Calculate(b, settings);
      && x.answerConfidence <= y.answerConfidence
      && x.groundedness <= y.groundedness
      && Rank(x.confidenceLabel) <= Rank(y.confidenceLabel)
  {
    ConfidenceMonotone(a, b, settings);
    GroundednessMonotone(a, b);
    SupportMonotone(a, b);
    hide AnswerConfidence, Groundedness, Support, Round6;
    RoundMonotone(AnswerConfidence(a, settings), AnswerConfidence(b, settings));
    RoundMonotone(Groundedness(a), Groundedness(b));
  }

  // ---- scores and labels

  /**
    A confidence at the high threshold comes with high support, so High means exactly that
    confidence and groundedness are at their high thresholds.
   */
  lemma HighScoresAreHigh(inputs: Inputs, settings: Settings)
    requires ValidSettings(settings)
    ensures AnswerConfidence(inputs, settings) >= settings.confidenceHigh ==> HasHighSupport(inputs)
    ensures Calculate(inputs, settings).confidenceLabel == High <==>
            AnswerConfidence(inputs, settings) >= settings.confidenceHigh &&
            Groundedness(inputs) >= settings.groundednessHigh
  {
    hide WeightedRenormalized, Components, Support, Groundedness;
  }

  /** Medium scores come with medium support. */
  ghost predicate MediumImpliesSupport(settings: Settings) {
    forall inputs :: AnswerConfidence(inputs, settings) >= settings.confidenceMedium ==> Support(inputs) >= MEDIUM_FLOOR
  }

  const NOTHING := Inputs(None, None, 0, 0, 0)

  /** The same holds of the medium threshold exactly when that threshold is not zero. */
  lemma MediumScoresAreMedium(settings: Settings)
    requires ValidSettings(settings)
    ensures MediumImpliesSupport(settings) <==> settings.confidenceMedium > 0.0
  {
    AnswerConfidenceWithinUnit(NOTHING, settings);
    SupportIs(NOTHING);
    hide WeightedRenormalized, Components, Support;
    if settings.confidenceMedium == 0.0 {
      assert AnswerConfidence(NOTHING, settings) >= settings.confidenceMedium;
      assert Support(NOTHING) == 0.0;
    }
  }

  /** Rounding leaves the groundedness as it is and moves the confidence by half a millionth at most. */
  lemma RoundingIsSmall(inputs: Inputs, settings: Settings)
    ensures Calculate(inputs, settings).groundedness == Groundedness(inputs)
    ensures -0.0000005 <= Calculate(inputs, settings).answerConfidence - AnswerConfidence(inputs, settings) <= 0.0000005
  {
    GroundednessIs(inputs);
    assert Round6(0.0) == 0.0 && Round6(0.25) == 0.25 && Round6(0.75) == 0.75 && Round6(1.0) == 1.0;
    RoundsNear(AnswerConfidence(inputs, settings));
    hide Groundedness, AnswerConfidence, Round6;
  }

  lemma RoundsNear(x: real)
    ensures -0.0000005 <= Round6(x) - x <= 0.0000005
  {
    var a := x * 1000000.0;
    var n := RoundHalfEven(a) as real;
    assert -0.5 <= n - a <= 0.5;
    assert Round6(x) - x == (n - a) / 1000000.0;
  }

  /** The least number of millionths that is not below a threshold. */
  function Millionths(threshold: real): (h: int)
    ensures (h - 1) as real < threshold * 1000000.0 <= h as real
  {
    -(-(threshold * 1000000.0)).Floor
  }

  /**
    A value is rounded up to a threshold, or beyond, when it is less than half a millionth
    below the first multiple of a millionth there; at exactly half, the even multiple wins.
   */
  predicate RoundsUpTo(value: real, threshold: real) {
    var h := Millionths(threshold);
    var g := h as real / 1000000.0;
    value > g - 0.0000005 || (value == g - 0.0000005 && h % 2 == 0)
  }

  lemma RoundHalfEvenReaches(x: real, h: int)
    ensures RoundHalfEven(x) >= h <==> x > h as real - 0.5 || (x == h as real - 0.5 && h % 2 == 0)
  {
    if x == h as real - 0.5 {
      assert x.Floor == h - 1;
    }
  }

  lemma RoundReaches(x: real, threshold: real)
    ensures Round6(x) >= threshold <==> RoundsUpTo(x, threshold)
  {
    var h, n := Millionths(threshold), RoundHalfEven(x * 1000000.0);
    RoundHalfEvenReaches(x * 1000000.0, h);
    hide RoundHalfEven;
    assert Round6(x) == n as real / 1000000.0;
    assert Round6(x) >= threshold <==> n as real >= threshold * 1000000.0;
    assert n as real >= threshold * 1000000.0 <==> n >= h;
    assert x > h as real / 1000000.0 - 0.0000005 <==> x * 1000000.0 > h as real - 0.5;
    assert x == h as real / 1000000.0 - 0.0000005 <==> x * 1000000.0 == h as real - 0.5;
  }

  /** Weak support keeps the confidence so far below the high threshold that rounding cannot lift it there. */
  lemma CapStaysBelow(inputs: Inputs, settings: Settings)
    requires ValidSettings(settings) && !HasHighSupport(inputs)
    ensures Round6(AnswerConfidence(inputs, settings)) < settings.confidenceHigh
  {
    var c := AnswerConfidence(inputs, settings);
    assert c <= BelowThreshold(settings.confidenceHigh) by {
      hide WeightedRenormalized, Components, Support;
    }
    RoundMonotone(c, BelowThreshold(settings.confidenceHigh));
    RoundsNear(BelowThreshold(settings.confidenceHigh));
    assert Round6(0.0) == 0.0;
    hide Round6, AnswerConfidence;
  }

  /**
    The returned scores read as High without the label being High exactly when groundedness
    and support are high and the composite of the signals is below the high threshold but
    rounds up to it.
   */
  lemma LabelDisagreesByRounding(inputs: Inputs, settings: Settings)
    requires ValidSettings(settings)
    ensures var r := Calculate(inputs, settings);
      var c := WeightedRenormalized(Components(inputs));
      (r.answerConfidence >= settings.confidenceHigh && r.groundedness >= settings.groundednessHigh &&
       r.confidenceLabel != High)
      <==> (Groundedness(inputs) >= settings.groundednessHigh && Support(inputs) >= HIGH_FLOOR &&
            c < settings.confidenceHigh && RoundsUpTo(c, settings.confidenceHigh))
  {
    HighScoresAreHigh(inputs, settings);
    RoundingIsSmall(inputs, settings);
    ClampIsIdle(inputs);
    var c := WeightedRenormalized(Components(inputs));
    assert HasHighSupport(inputs) ==> AnswerConfidence(inputs, settings) == c by {
      hide WeightedRenormalized, Components, Support;
    }
    RoundReaches(c, settings.confidenceHigh);
    if !HasHighSupport(inputs) {
      CapStaysBelow(inputs, settings);
    }
    hide AnswerConfidence, Groundedness, Support, Round6, ConfidenceLabel, WeightedRenormalized, Components, RoundsUpTo;
  }

  /** With all scores there, the composite is the plain weighted sum of the clamped signals. */
  lemma CompositeIsFlat(inputs: Inputs)
    requires inputs.top1Retrieval.Some? && inputs.top1Rerank.Some?
    ensures WeightedRenormalized(Components(inputs)) ==
            0.35 * Clamp(inputs.top1Retrieval.value) + 0.35 * Clamp(inputs.top1Rerank.value)
            + 0.20 * Groundedness(inputs) + 0.10 * ContextStrength(inputs.selectedCount)
  {
    hide Groundedness, Clamp;
    var c := Components(inputs);
    AllPresent(c);
    SumOfFour(c[0], c[1], c[2], c[3]);
    assert c == [c[0], c[1], c[2], c[3]];
    hide Present, WeightSum, WeightedSum;
    assert WeightSum(c) == 1.0;
  }

  const DEFAULTS := Settings(0.75, 0.45, 0.75, 0.45)
  const NEARLY_HIGH := Inputs(Some(0.642857), Some(0.642857), 1, 1, 1)

  /** It happens at the default thresholds. */
  lemma RoundingCanDisagree()
    ensures Calculate(NEARLY_HIGH, DEFAULTS) == Scores(0.75, 1.0, Medium)
  {
    var a := NEARLY_HIGH;
    GroundednessIs(a);
    SupportIs(a);
    hide Groundedness, Support;
    assert OptionalScore(Some(0.642857)) == 0.642857;
    var c := Components(a);
    var score := Component(0.35, 0.642857, true);
    var grounded, context := Component(0.20, 1.0, true), Component(0.10, 1.0, true);
    assert c == [score, score, grounded, context];
    AllPresent(c);
    SumOfFour(score, score, grounded, context);
    hide WeightedRenormalized;
    assert AnswerConfidence(a, DEFAULTS) == 0.7499999;
    assert Round6(0.7499999) == 0.75 by {
      assert 0.7499999 * 1000000.0 == 749999.9;
      assert (749999.9).Floor == 749999;
    }
  }

  lemma {:induction false} AllPresent(components: seq<Component>)
    requires forall i :: 0 <= i < |components| ==> components[i].present
    ensures Present(components) == components
  {
    if components != [] {
      AllPresent(components[1..]);
    }
  }

  lemma SumOfFour(a: Component, b: Component, c: Component, e: Component)
    ensures WeightSum([a, b, c, e]) == a.weight + b.weight + c.weight + e.weight
    ensures WeightedSum([a, b, c, e]) ==
            a.weight * a.value + b.weight * b.value + c.weight * c.value + e.weight * e.value
  {
    assert [a, b, c, e][1..] == [b, c, e] && [b, c, e][1..] == [c, e] && [c, e][1..] == [e] && [e][1..] == [];
    assert WeightedSum([e]) == e.weight * e.value && WeightSum([e]) == e.weight;
    assert WeightedSum([c, e]) == c.weight * c.value + WeightedSum([e]);
    assert WeightSum([c, e]) == c.weight + WeightSum([e]);
    assert WeightedSum([b, c, e]) == b.weight * b.value + WeightedSum([c, e]);
    assert WeightSum([b, c, e]) == b.weight + WeightSum([c, e]);
  }

  // ---- everything in one place

  /** A score as it counts: within [0, 1], and 0 when it is missing. */
  function Signal(score: Option<real>): real {
    if score.None? || score.value < 0.0 then 0.0 else if score.value > 1.0 then 1.0 else score.value
  }

  function GroundedSignal(inputs: Inputs): real {
    (if inputs.uniqueCitationCount > 0 then 0.75 else 0.0) + if inputs.markerCount > 0 then 0.25 else 0.0
  }

  /** The mean of the scores that are there. */
  function MeanSignal(inputs: Inputs): real {
    var sum := Signal(inputs.top1Retrieval) + Signal(inputs.top1Rerank);
    if inputs.top1Retrieval.Some? && inputs.top1Rerank.Some? then sum / 2.0 else sum
  }

  /** The weights of the signals that are there. */
  function SignalWeight(inputs: Inputs): (w: real)
    ensures w > 0.0
  {
    0.30 + (if inputs.top1Retrieval.Some? then 0.35 else 0.0) + if inputs.top1Rerank.Some? then 0.35 else 0.0
  }

  function Blend(inputs: Inputs): real {
    (0.35 * Signal(inputs.top1Retrieval) + 0.35 * Signal(inputs.top1Rerank) + 0.20 * GroundedSignal(inputs) +
     0.10 * (if inputs.selectedCount > 0 then 1.0 else 0.0)) / SignalWeight(inputs)
  }

  /** The lesser of a confidence and one hundredth below a threshold, which is 0 at least. */
  function CappedBelow(confidence: real, threshold: real): real {
    var cap := if threshold < 0.01 then 0.0 else threshold - 0.01;
    if confidence < cap then confidence else cap
  }

  /** The confidence before it is rounded, from the inputs and thresholds alone. */
  function ConfidenceFrom(inputs: Inputs, settings: Settings): real {
    if MeanSignal(inputs) >= 0.60 then Blend(inputs)
    else if MeanSignal(inputs) >= 0.30 then CappedBelow(Blend(inputs), settings.confidenceHigh)
    else CappedBelow(Blend(inputs), settings.confidenceMedium)
  }

  lemma {:induction false} WeightOfPresent(c: Component, rest: seq<Component>)
    ensures WeightSum(Present([c] + rest)) == (if c.present then c.weight else 0.0) + WeightSum(Present(rest))
    ensures WeightedSum(Present([c] + rest)) ==
            (if c.present then c.weight * c.value else 0.0) + WeightedSum(Present(rest))
  {
    Cons(c, rest);
    Cons(c, Present(rest));
    hide Present, WeightSum, WeightedSum;
    assert [] + Present(rest) == Present(rest);
  }

  lemma SignalIs(score: Option<real>)
    ensures OptionalScore(score) == Signal(score)
  {}

  /** The composite of the signals. */
  lemma BlendIsComposite(inputs: Inputs)
    ensures WeightedRenormalized(Components(inputs)) == Blend(inputs)
  {
    var c := Components(inputs);
    GroundednessIs(inputs);
    SignalIs(inputs.top1Retrieval);
    SignalIs(inputs.top1Rerank);
    hide Groundedness, OptionalScore, Signal;
    assert c == [c[0]] + ([c[1]] + ([c[2]] + ([c[3]] + [])));
    NothingPresent();
    WeightOfPresent(c[3], []);
    WeightOfPresent(c[2], [c[3]] + []);
    WeightOfPresent(c[1], [c[2]] + ([c[3]] + []));
    WeightOfPresent(c[0], [c[1]] + ([c[2]] + ([c[3]] + [])));
    SignalAbsent(inputs.top1Retrieval);
    SignalAbsent(inputs.top1Rerank);
    hide Present, WeightSum, WeightedSum;
  }

  lemma NothingPresent()
    ensures WeightSum(Present([])) == 0.0 && WeightedSum(Present([])) == 0.0
  {}

  lemma SignalAbsent(score: Option<real>)
    ensures score.None? ==> Signal(score) == 0.0
  {}

  /**
    The whole of `calculate_confidence`: the blend of the signals that are there, capped below
    a threshold when their mean is below 0.60 or 0.30; the groundedness; and the label, by the
    two thresholds and the mean.
   */
  lemma CalculateExact(inputs: Inputs, settings: Settings)
    requires ValidSettings(settings)
    ensures var r, c := Calculate(inputs, settings), ConfidenceFrom(inputs, settings);
      && -0.0000005 <= r.answerConfidence - c <= 0.0000005
      && r.groundedness == GroundedSignal(inputs)
      && (r.confidenceLabel == High <==>
            c >= settings.confidenceHigh && GroundedSignal(inputs) >= settings.groundednessHigh &&
            MeanSignal(inputs) >= 0.60)
      && (r.confidenceLabel == Low <==>
            c < settings.confidenceMedium || GroundedSignal(inputs) < settings.groundednessMedium ||
            MeanSignal(inputs) < 0.30)
  {
    GroundednessIs(inputs);
    RoundingIsSmall(inputs, settings);
    BlendIsComposite(inputs);
    ClampIsIdle(inputs);
    SupportIs(inputs);
    SignalIs(inputs.top1Retrieval);
    SignalIs(inputs.top1Rerank);
    hide Groundedness, Round6, WeightedRenormalized, Components, Blend, Support, OptionalScore, Signal;
  }
}
