/**
 * `calculate_match_score`: a fixed rubric of six all-or-nothing criteria
 * worth 20, 20, 15, 15, 15 and 10 points, plus five times the designer's
 * past performance score. Presence is tested two ways, as `calculate_match_score` does:
 * text fields by Python truthiness (missing or empty fails), the rate and
 * the interactivity levels by `is not None` (a present 0 passes).
 */
module Scorer {
  import opened Wrappers
  import opened ListCodec
  import opened Records
  import PyString

  /** Python truthiness of an optional text field: present and not empty. */
  predicate Truthy(s: Option<string>) {
    s.Some? && s.value != ""
  }

  /** Budget: the rate is known and within the budget. */
  predicate Affordable(c: Campaign, d: Designer) {
    d.rateTier.Some? && c.budget >= d.rateTier.value
  }

  /** Ambiance, platform and style: the wanted tag is non-empty and one of the designer's tags, exactly. */
  predicate TagListed(tag: Option<string>, field: Raw) {
    Truthy(tag) && tag.value in DeserializeList(field)
  }

  /** Interactivity: both levels are present and the designer's is at least the wanted one. */
  predicate ExperiencedEnough(c: Campaign, d: Designer) {
    d.gameLogicExperience.Some? && c.interactivity.Some?
    && d.gameLogicExperience.value >= c.interactivity.value
  }

  /** Timeline: both texts are non-empty and the availability sorts no later than the timeline. */
  predicate AvailableInTime(c: Campaign, d: Designer) {
    Truthy(d.availability) && Truthy(c.timeline)
    && PyString.LessOrEqual(d.availability.value, c.timeline.value)
  }

  /** A performance score counts when it is truthy: present and not zero. */
  predicate HasPerformance(d: Designer) {
    d.performanceScore.Some? && d.performanceScore.value != 0.0
  }

  function PerformanceBonus(d: Designer): real {
    if HasPerformance(d) then d.performanceScore.value * 5.0 else 0.0
  }

  /** The score, accumulated term by term in the order `calculate_match_score` adds them. */
  function MatchScore(c: Campaign, d: Designer): (score: real)
    ensures 0.0 <= score - PerformanceBonus(d) <= 95.0
  {
    var s0 := 0.0;
    var s1 := if Affordable(c, d) then s0 + 20.0 else s0;
    var s2 := if TagListed(c.ambiance, d.sceneTags) then s1 + 20.0 else s1;
    var s3 := if TagListed(c.platformPref, d.exportFormats) then s2 + 15.0 else s2;
    var s4 := if ExperiencedEnough(c, d) then s3 + 15.0 else s3;
    var s5 := if TagListed(c.style, d.visualMetadata) then s4 + 15.0 else s4;
    var s6 := if AvailableInTime(c, d) then s5 + 10.0 else s5;
    if HasPerformance(d) then s6 + d.performanceScore.value * 5.0 else s6
  }

  // ---------------------------------------------------------------------------
  // The rubric as a table, and the score as its sum
  // ---------------------------------------------------------------------------

  datatype Criterion = Budget | Ambiance | Platform | Interactivity | Style | Timeline

  const Rubric: seq<Criterion> := [Budget, Ambiance, Platform, Interactivity, Style, Timeline]

  function Weight(k: Criterion): real {
    match k
    case Budget => 20.0
    case Ambiance => 20.0
    case Platform => 15.0
    case Interactivity => 15.0
    case Style => 15.0
    case Timeline => 10.0
  }

  predicate Passes(k: Criterion, c: Campaign, d: Designer) {
    match k
    case Budget => Affordable(c, d)
    case Ambiance => TagListed(c.ambiance, d.sceneTags)
    case Platform => TagListed(c.platformPref, d.exportFormats)
    case Interactivity => ExperiencedEnough(c, d)
    case Style => TagListed(c.style, d.visualMetadata)
    case Timeline => AvailableInTime(c, d)
  }

  /** No partial credit: a criterion earns its whole weight or nothing. */
  function Points(k: Criterion, c: Campaign, d: Designer): real {
    if Passes(k, c, d) then Weight(k) else 0.0
  }

  function SumPoints(ks: seq<Criterion>, c: Campaign, d: Designer): real {
    if ks == [] then 0.0 else Points(ks[0], c, d) + SumPoints(ks[1..], c, d)
  }

  function SumWeights(ks: seq<Criterion>): real {
    if ks == [] then 0.0 else Weight(ks[0]) + SumWeights(ks[1..])
  }

  /** The weights of the six criteria add up to 95; performance supplies the rest. */
  lemma RubricTotal()
    ensures SumWeights(Rubric) == 95.0
  {
  }

  /** The score is the sum of the six criteria's points plus the performance bonus. */
  lemma ScoreIsRubricSum(c: Campaign, d: Designer)
    ensures MatchScore(c, d) == SumPoints(Rubric, c, d) + PerformanceBonus(d)
  {
    var tail := [Ambiance, Platform, Interactivity, Style, Timeline];
    assert Rubric[1..] == tail;
    assert tail[1..] == [Platform, Interactivity, Style, Timeline];
    assert tail[2..] == [Interactivity, Style, Timeline];
    assert tail[3..] == [Style, Timeline];
    assert tail[4..] == [Timeline];
    calc {
      SumPoints(Rubric, c, d);
      Points(Budget, c, d) + SumPoints(tail, c, d);
      Points(Budget, c, d) + Points(Ambiance, c, d) + SumPoints(tail[1..], c, d);
      Points(Budget, c, d) + Points(Ambiance, c, d) + Points(Platform, c, d) + SumPoints(tail[2..], c, d);
      Points(Budget, c, d) + Points(Ambiance, c, d) + Points(Platform, c, d) + Points(Interactivity, c, d)
        + SumPoints(tail[3..], c, d);
      Points(Budget, c, d) + Points(Ambiance, c, d) + Points(Platform, c, d) + Points(Interactivity, c, d)
        + Points(Style, c, d) + SumPoints(tail[4..], c, d);
      Points(Budget, c, d) + Points(Ambiance, c, d) + Points(Platform, c, d) + Points(Interactivity, c, d)
        + Points(Style, c, d) + Points(Timeline, c, d);
    }
  }

  /**
   * Bounds: without a (truthy) performance score the total is at most 95;
   * with a performance score in [0, 1] it lies in [0, 100].
   */
  lemma ScoreBounds(c: Campaign, d: Designer)
    ensures !HasPerformance(d) ==> 0.0 <= MatchScore(c, d) <= 95.0
    ensures d.performanceScore.Some? && 0.0 <= d.performanceScore.value <= 1.0
      ==> 0.0 <= MatchScore(c, d) <= 100.0
  {
  }

  // ---------------------------------------------------------------------------
  // One criterion at a time
  // ---------------------------------------------------------------------------

  /** Budget: worth 20 exactly when the rate is present and the budget covers it. */
  lemma BudgetCriterion(c: Campaign, d: Designer)
    ensures MatchScore(c, d) == MatchScore(c, d.(rateTier := None))
      + (if d.rateTier.Some? && c.budget >= d.rateTier.value then 20.0 else 0.0)
  {
  }

  /** Raising the rate, all else fixed, never raises the score. */
  lemma RaisingRateNeverHelps(c: Campaign, d: Designer, higher: real)
    requires d.rateTier.Some? && d.rateTier.value <= higher
    ensures MatchScore(c, d.(rateTier := Some(higher))) <= MatchScore(c, d)
  {
  }

  /** Raising the rate past the budget costs exactly the 20 budget points. */
  lemma PricedOut(c: Campaign, d: Designer, higher: real)
    requires d.rateTier.Some? && d.rateTier.value <= c.budget < higher
    ensures MatchScore(c, d.(rateTier := Some(higher))) == MatchScore(c, d) - 20.0
  {
  }

  /** Ambiance: worth 20 exactly when the wanted mood is non-empty and is one of the scene tags. */
  lemma AmbianceCriterion(c: Campaign, d: Designer)
    ensures MatchScore(c, d) == MatchScore(c.(ambiance := None), d)
      + (if c.ambiance.Some? && c.ambiance.value != "" && c.ambiance.value in DeserializeList(d.sceneTags)
         then 20.0 else 0.0)
  {
  }

  /** Platform: worth 15 exactly when the wanted platform is non-empty and is one of the export formats. */
  lemma PlatformCriterion(c: Campaign, d: Designer)
    ensures MatchScore(c, d) == MatchScore(c.(platformPref := None), d)
      + (if c.platformPref.Some? && c.platformPref.value != ""
            && c.platformPref.value in DeserializeList(d.exportFormats)
         then 15.0 else 0.0)
  {
  }

  /** Style: worth 15 exactly when the wanted style is non-empty and is one of the visual metadata tags. */
  lemma StyleCriterion(c: Campaign, d: Designer)
    ensures MatchScore(c, d) == MatchScore(c.(style := None), d)
      + (if c.style.Some? && c.style.value != "" && c.style.value in DeserializeList(d.visualMetadata)
         then 15.0 else 0.0)
  {
  }

  /** An empty wanted tag earns nothing, even when the designer lists the empty tag. */
  lemma EmptyTagEarnsNothing(c: Campaign, d: Designer)
    requires c.ambiance == Some("") && "" in DeserializeList(d.sceneTags)
    ensures MatchScore(c, d) == MatchScore(c.(ambiance := None), d)
  {
  }

  /** Interactivity: worth 15 exactly when both levels are present and the designer's is high enough. */
  lemma InteractivityCriterion(c: Campaign, d: Designer)
    ensures MatchScore(c, d) == MatchScore(c.(interactivity := None), d)
      + (if d.gameLogicExperience.Some? && c.interactivity.Some?
            && d.gameLogicExperience.value >= c.interactivity.value
         then 15.0 else 0.0)
  {
  }

  /** Presence, not truthiness: a designer with level 0 meets a wanted level of 0. */
  lemma ZeroInteractivityCounts(c: Campaign, d: Designer)
    requires c.interactivity == Some(0) && d.gameLogicExperience == Some(0)
    ensures MatchScore(c, d) == MatchScore(c.(interactivity := None), d) + 15.0
  {
  }

  /** Timeline: worth 10 exactly when both texts are non-empty and availability <= timeline as strings. */
  lemma TimelineCriterion(c: Campaign, d: Designer)
    ensures MatchScore(c, d) == MatchScore(c.(timeline := None), d)
      + (if d.availability.Some? && d.availability.value != "" && c.timeline.Some? && c.timeline.value != ""
            && PyString.LexLe(d.availability.value, c.timeline.value)
         then 10.0 else 0.0)
  {
    if d.availability.Some? && c.timeline.Some? {
      PyString.LessOrEqualIsLex(d.availability.value, c.timeline.value);
    }
  }

  /** Performance: a score of 0.0 is treated exactly like a missing score. */
  lemma ZeroPerformanceIsAbsent(c: Campaign, d: Designer)
    ensures MatchScore(c, d.(performanceScore := Some(0.0))) == MatchScore(c, d.(performanceScore := None))
  {
  }

  /** Performance: a non-zero score adds five times itself, without a cap. */
  lemma PerformanceCriterion(c: Campaign, d: Designer)
    ensures MatchScore(c, d) == MatchScore(c, d.(performanceScore := None))
      + (if d.performanceScore.Some? && d.performanceScore.value != 0.0
         then 5.0 * d.performanceScore.value else 0.0)
  {
  }

  lemma TagListedSeesList(tag: Option<string>, f: Raw, g: Raw)
    requires DeserializeList(f) == DeserializeList(g)
    ensures TagListed(tag, f) == TagListed(tag, g)
  {
  }

  /** The score sees the three list fields only through their normalised lists. */
  lemma ScoreSeesNormalisedLists(c: Campaign, d: Designer, scene: Raw, formats: Raw, visual: Raw)
    requires DeserializeList(scene) == DeserializeList(d.sceneTags)
    requires DeserializeList(formats) == DeserializeList(d.exportFormats)
    requires DeserializeList(visual) == DeserializeList(d.visualMetadata)
    ensures MatchScore(c, d.(sceneTags := scene, exportFormats := formats, visualMetadata := visual))
         == MatchScore(c, d)
  {
    TagListedSeesList(c.ambiance, scene, d.sceneTags);
    TagListedSeesList(c.platformPref, formats, d.exportFormats);
    TagListedSeesList(c.style, visual, d.visualMetadata);
  }

  /** The list fields may be stored as JSON text: the score is the same as for the lists themselves. */
  lemma StoredListsScoreAlike(c: Campaign, d: Designer, scene: seq<string>, formats: seq<string>, visual: seq<string>)
    requires d.sceneTags == List(scene) && d.exportFormats == List(formats) && d.visualMetadata == List(visual)
    ensures MatchScore(c, d) == MatchScore(c, d.(sceneTags := Str(SerializeList(Some(scene))),
                                                 exportFormats := Str(SerializeList(Some(formats))),
                                                 visualMetadata := Str(SerializeList(Some(visual)))))
  {
    var e := d.(sceneTags := Str(SerializeList(Some(scene))),
                exportFormats := Str(SerializeList(Some(formats))),
                visualMetadata := Str(SerializeList(Some(visual))));
    DeserializeSerialize(scene);
    DeserializeSerialize(formats);
    DeserializeSerialize(visual);
    ScoreSeesNormalisedLists(c, d, e.sceneTags, e.exportFormats, e.visualMetadata);
  }

  // ---------------------------------------------------------------------------
  // The worked example
  // ---------------------------------------------------------------------------

  const ExampleCampaign: Campaign :=
    Campaign(1, 500.0, Some("calm"), Some("Quest"), Some(3), Some("minimalist"), Some("2024-06-01"), "")

  function ExampleDesigner(rate: real): Designer {
    Designer(1, "", Some(rate), List(["calm", "vibrant"]), List(["Quest", "WebXR"]), Some(5),
             List(["minimalist"]), Some("2024-05-01"), Some(0.8))
  }

  lemma ExampleDatesInOrder()
    ensures PyString.LessOrEqual("2024-05-01", "2024-06-01")
  {
    assert "2024-05-01" == "2024-0" + "5-01" && "2024-06-01" == "2024-0" + "6-01";
    PyString.LessOrEqualAfterCommonPrefix("2024-0", "5-01", "6-01");
  }

  /** At rate 400 the example passes every criterion but the budget one depends on the rate. */
  lemma ExampleCriteria(rate: real)
    ensures TagListed(ExampleCampaign.ambiance, ExampleDesigner(rate).sceneTags)
    ensures TagListed(ExampleCampaign.platformPref, ExampleDesigner(rate).exportFormats)
    ensures TagListed(ExampleCampaign.style, ExampleDesigner(rate).visualMetadata)
    ensures ExperiencedEnough(ExampleCampaign, ExampleDesigner(rate))
    ensures AvailableInTime(ExampleCampaign, ExampleDesigner(rate))
    ensures HasPerformance(ExampleDesigner(rate))
  {
    assert ["calm", "vibrant"][0] == "calm";
    assert ["Quest", "WebXR"][0] == "Quest";
    assert ["minimalist"][0] == "minimalist";
    ExampleDatesInOrder();
  }

  /** Every criterion passes at rate 400 (99 = 95 + 0.8 * 5); at rate 600 the budget fails (79). */
  lemma WorkedExample()
    ensures MatchScore(ExampleCampaign, ExampleDesigner(400.0)) == 99.0
    ensures MatchScore(ExampleCampaign, ExampleDesigner(600.0)) == 79.0
  {
    ExampleCriteria(400.0);
    ExampleCriteria(600.0);
  }

  /** Tags match exactly: "Calm" does not match a designer who lists "calm". */
  lemma TagsAreCaseSensitive()
    ensures MatchScore(ExampleCampaign.(ambiance := Some("Calm")), ExampleDesigner(400.0)) == 79.0
  {
    var c, d := ExampleCampaign, ExampleDesigner(400.0);
    WorkedExample();
    AmbianceCriterion(c, d);
    assert "Calm" != "calm" && "Calm" != "vibrant" by {
      assert "Calm"[0] != "calm"[0];
      assert "Calm"[0] != "vibrant"[0];
    }
    AmbianceCriterion(c.(ambiance := Some("Calm")), d);
    assert c.(ambiance := Some("Calm")).(ambiance := None) == c.(ambiance := None);
  }
}
