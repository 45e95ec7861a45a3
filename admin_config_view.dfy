/**
 * The decisions of the administrator's event configuration screen: which
 * configuration to show for an event, the total-weight check over every
 * segment, and the save handlers of the segment, criteria and round forms.
 * Numbers typed into the forms arrive already parsed: None stands for text
 * that is not a number.
 */
module AdminConfigView {
  import opened Wrappers
  import opened Models
  import Text
  import Weights
  import PageantConfigView

  /** What the screen shows for the requested event. */
  datatype Screen = EventNotFound | PageantConfig(event: Event) | QuizConfig(event: Event)

  const NotFoundText := "Event not found!"

  /** A missing event shows only the not-found text; a "Pageant" gets the pageant configuration, any other type the quiz one. */
  function ScreenFor(event: Option<Event>): (s: Screen)
    ensures event.None? <==> s == EventNotFound
    ensures event.Some? ==> (s == PageantConfig(event.value) <==> event.value.eventType == "Pageant")
    ensures event.Some? ==> (s == QuizConfig(event.value) <==> event.value.eventType != "Pageant")
  {
    if event.None? then EventNotFound
    else if event.value.eventType == "Pageant" then PageantConfig(event.value)
    else QuizConfig(event.value)
  }

  // ---------------------------------------------------------------
  // Total weight over every segment
  // ---------------------------------------------------------------

  /** The sum of the percentage weights of all segments, final ones included. */
  function TotalWeight(segs: seq<Segment>): real {
    if segs == [] then 0.0 else TotalWeight(segs[..|segs| - 1]) + segs[|segs| - 1].percentageWeight
  }

  /** The sum of the percentage weights of the final segments only. */
  function FinalWeight(segs: seq<Segment>): real {
    if segs == [] then 0.0
    else
      var last := segs[|segs| - 1];
      FinalWeight(segs[..|segs| - 1]) + (if last.isFinal then last.percentageWeight else 0.0)
  }

  /** The accumulation loop of the pageant panel: every segment counts. */
  method SumTotalWeight(segs: seq<Segment>) returns (total: real)
    ensures total == TotalWeight(segs)
  {
    total := 0.0;
    var i := 0;
    while i < |segs|
      invariant 0 <= i <= |segs|
      invariant total == TotalWeight(segs[..i])
    {
      assert segs[..i + 1][..i] == segs[..i];
      total := total + segs[i].percentageWeight;
      i := i + 1;
    }
    assert segs[..i] == segs;
  }

  /**
   * This screen's total is the other screen's preliminary total plus the
   * weights of final segments, so the two agree exactly when those are 0.
   */
  lemma {:induction false} TotalIsPrelimPlusFinals(segs: seq<Segment>)
    ensures TotalWeight(segs) == PageantConfigView.PrelimWeight(segs) + FinalWeight(segs)
  {
    if segs != [] {
      TotalIsPrelimPlusFinals(segs[..|segs| - 1]);
    }
  }

  /** The status against 100% with exact comparisons. */
  function ConfigStatus(total: real): (st: PageantConfigView.WeightStatus)
    ensures st.Over? <==> total > 1.0
    ensures st.Under? <==> total < 1.0
    ensures st.Complete? <==> total == 1.0
    ensures !st.Complete? ==> st.percent == Text.TruncToInt(total * 100.0)
  {
    if total > 1.0 then PageantConfigView.Over(Text.TruncToInt(total * 100.0))
    else if total < 1.0 then PageantConfigView.Under(Text.TruncToInt(total * 100.0))
    else PageantConfigView.Complete
  }

  function ConfigStatusMessage(st: PageantConfigView.WeightStatus): string {
    match st
    case Over(p) => "\U{26A0}\U{FE0F} Total Weight is " + Text.ShowInt(p) + "%. It should be 100%."
    case Under(p) => "\U{2139}\U{FE0F} Total Weight is " + Text.ShowInt(p) + "%. Add more segments."
    case Complete => "\U{2705} Total Weight is 100%. Config Complete."
  }

  /**
   * A total this screen calls complete, the pageant screen calls complete
   * too; the converse fails, since the pageant screen tolerates a small band.
   */
  lemma ExactCompleteIsWithinBand(total: real)
    ensures ConfigStatus(total).Complete? ==> PageantConfigView.PrelimStatus(total).Complete?
    ensures PageantConfigView.PrelimStatus(1.00005).Complete? && !ConfigStatus(1.00005).Complete?
  {
  }

  /**
   * The two checks disagree on an event whose final segment carries a weight:
   * two 30% segments and a 40% final read as complete here and as 60% on the
   * pageant screen.
   */
  lemma ChecksDisagreeOnWeightedFinal(a: Segment, b: Segment, f: Segment)
    requires !a.isFinal && !b.isFinal && f.isFinal
    requires a.percentageWeight == 0.3 && b.percentageWeight == 0.3 && f.percentageWeight == 0.4
    ensures ConfigStatus(TotalWeight([a, b, f])).Complete?
    ensures PageantConfigView.PrelimStatus(PageantConfigView.PrelimWeight([a, b, f])) == PageantConfigView.Under(60)
  {
    var segs := [a, b, f];
    assert segs[..2] == [a, b] && [a, b][..1] == [a] && [a][..0] == [];
    assert TotalWeight([a]) == 0.3;
    assert TotalWeight([a, b]) == 0.6;
    assert TotalWeight(segs) == 1.0;
    assert PageantConfigView.PrelimWeight([a]) == 0.3;
    assert PageantConfigView.PrelimWeight([a, b]) == 0.6;
    assert PageantConfigView.PrelimWeight(segs) == 0.6;
    assert (0.6 * 100.0).Floor == 60;
  }

  // ---------------------------------------------------------------
  // Save handlers
  // ---------------------------------------------------------------

  /** The calls this screen makes to the pageant and quiz services. */
  datatype Request =
    | AddSegment(eventId: int, name: string, weight: real, order: int)
    | AddCriteria(forSegment: Option<int>, name: string, weight: real)
    | AddRound(eventId: int, name: string, points: real, totalQuestions: int, order: int)

  datatype SaveOutcome = Invalid(message: string) | Call(request: Request)

  /** A segment is always added at order 1 with the normalised weight. */
  function SaveSegment(eventId: int, name: string, weightEntry: Option<real>): (r: SaveOutcome)
    ensures weightEntry.None? ==> r == Invalid("Invalid Weight")
    ensures weightEntry.Some? ==>
              (r.Call? && r.request.AddSegment? && r.request.order == 1 &&
               r.request.eventId == eventId && r.request.name == name &&
               r.request.weight == Weights.Normalize(weightEntry.value))
  {
    if weightEntry.None? then Invalid("Invalid Weight")
    else Call(AddSegment(eventId, name, Weights.Normalize(weightEntry.value), 1))
  }

  /** A criterion goes to the segment whose add button was pressed, with the normalised weight. */
  function SaveCriteria(selectedSegmentId: Option<int>, name: string, weightEntry: Option<real>): (r: SaveOutcome)
    ensures weightEntry.None? ==> r == Invalid("Invalid Weight")
    ensures weightEntry.Some? ==>
              (r.Call? && r.request.AddCriteria? && r.request.forSegment == selectedSegmentId &&
               r.request.name == name && r.request.weight == Weights.Normalize(weightEntry.value))
  {
    if weightEntry.None? then Invalid("Invalid Weight")
    else Call(AddCriteria(selectedSegmentId, name, Weights.Normalize(weightEntry.value)))
  }

  /** A round needs both numbers; it is always added at order 1. */
  function SaveRound(eventId: int, name: string, pointsEntry: Option<real>, questionsEntry: Option<int>)
    : (r: SaveOutcome)
    ensures r.Invalid? <==> pointsEntry.None? || questionsEntry.None?
    ensures r.Invalid? ==> r.message == "Invalid Input"
    ensures r.Call? ==> r.request == AddRound(eventId, name, pointsEntry.value, questionsEntry.value, 1)
  {
    if pointsEntry.None? || questionsEntry.None? then Invalid("Invalid Input")
    else Call(AddRound(eventId, name, pointsEntry.value, questionsEntry.value, 1))
  }
}
