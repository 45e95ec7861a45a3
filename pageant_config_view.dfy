/**
 * The decisions of the pageant configuration screen: the preliminary weight
 * total and its status, the guard and dialog choice of an activation toggle,
 * the save handlers of the segment and criteria forms, the preview that
 * splits a ranking into qualifiers and eliminated, and the CONFIRM checks.
 * Segment activation, final-round activation, rankings and the segment and
 * criteria writes belong to services outside this model; the screen's calls
 * to them are returned as request values.
 */
module PageantConfigView {
  import opened Wrappers
  import opened Models
  import Text
  import Weights

  // ---------------------------------------------------------------
  // Preliminary weight total and its status
  // ---------------------------------------------------------------

  /** The sum of the percentage weights of the non-final segments. */
  function PrelimWeight(segs: seq<Segment>): real {
    if segs == [] then 0.0
    else
      var last := segs[|segs| - 1];
      PrelimWeight(segs[..|segs| - 1]) + (if last.isFinal then 0.0 else last.percentageWeight)
  }

  /** The accumulation loop of the screen's refresh: final segments add nothing. */
  method SumPrelimWeights(segs: seq<Segment>) returns (total: real)
    ensures total == PrelimWeight(segs)
  {
    total := 0.0;
    var i := 0;
    while i < |segs|
      invariant 0 <= i <= |segs|
      invariant total == PrelimWeight(segs[..i])
    {
      assert segs[..i + 1][..i] == segs[..i];
      if !segs[i].isFinal {
        total := total + segs[i].percentageWeight;
      }
      i := i + 1;
    }
    assert segs[..i] == segs;
  }

  /** Adding or changing a final segment never moves the preliminary total. */
  lemma {:induction false} PrelimWeightIgnoresFinals(segs: seq<Segment>, k: nat, f: Segment)
    requires k < |segs| && segs[k].isFinal && f.isFinal
    ensures PrelimWeight(segs[k := f]) == PrelimWeight(segs)
    ensures PrelimWeight(segs + [f]) == PrelimWeight(segs)
  {
    var n := |segs| - 1;
    assert (segs + [f])[..|segs|] == segs;
    if k < n {
      assert segs[k := f][..n] == segs[..n][k := f];
      PrelimWeightIgnoresFinals(segs[..n], k, f);
    } else {
      assert segs[k := f][..n] == segs[..n];
    }
  }

  /** Where a weight total stands against 100%, with the whole percentage shown. */
  datatype WeightStatus = Over(percent: int) | Under(percent: int) | Complete

  /** The preliminary status, with a tolerance band around 100%. */
  function PrelimStatus(total: real): (st: WeightStatus)
    ensures st.Over? <==> total > 1.0001
    ensures st.Under? <==> total < 0.999
    ensures st.Complete? <==> 0.999 <= total <= 1.0001
    ensures !st.Complete? ==> st.percent == Text.TruncToInt(total * 100.0)
  {
    if total > 1.0001 then Over(Text.TruncToInt(total * 100.0))
    else if total < 0.999 then Under(Text.TruncToInt(total * 100.0))
    else Complete
  }

  function PrelimStatusMessage(st: WeightStatus): string {
    match st
    case Over(p) => "\U{26A0}\U{FE0F} Prelim Weight is " + Text.ShowInt(p) + "%. It should be 100%."
    case Under(p) => "\U{2139}\U{FE0F} Prelim Weight is " + Text.ShowInt(p) + "%. Add more segments."
    case Complete => "\U{2705} Prelim Weight is 100%."
  }

  // ---------------------------------------------------------------
  // Activation toggle: final-round lock and dialog choice
  // ---------------------------------------------------------------

  /** Some segment of the event is both active and final. */
  predicate FinalRoundIsActive(segs: seq<Segment>) {
    exists i :: 0 <= i < |segs| && segs[i].isActive && segs[i].isFinal
  }

  /** The first active segment in table order. */
  function FirstActive(segs: seq<Segment>): (r: Option<Segment>)
    ensures r.Some? ==> r.value in segs && r.value.isActive
    ensures r.None? ==> forall i :: 0 <= i < |segs| ==> !segs[i].isActive
  {
    if segs == [] then None
    else if segs[0].isActive then Some(segs[0])
    else FirstActive(segs[1..])
  }

  /**
   * The outcome of pressing a toggle: refused while the final round holds the
   * lock, nothing to do, the strict (type CONFIRM) dialog, or the simple one.
   */
  datatype Decision = Locked | NoOp | StrictDialog | SimpleDialog

  const LockedMessage := "Cannot switch segments while Final Round is active!"

  /**
   * `segId` is the segment pressed (None for "Deactivate All"); `activeSeg`
   * is the id of the segment the event service reports as active.
   */
  function ToggleDecision(segs: seq<Segment>, activeSeg: Option<int>, segId: Option<int>): Decision {
    var activeObj := FirstActive(segs);
    if FinalRoundIsActive(segs) && segId.Some? && !(activeObj.Some? && activeObj.value.id == segId.value) then Locked
    else if segId.None? then (if activeSeg.None? then NoOp else StrictDialog)
    else if activeSeg.Some? then StrictDialog
    else SimpleDialog
  }

  /**
   * The final-round lock. While the first active segment is a final round,
   * pressing any other segment is refused with the lock message; pressing
   * that segment itself, or "Deactivate All", is never refused. The screen
   * wires a final segment's own button to final activation, not to this
   * toggle, so the "that segment itself" case is not reached from the screen.
   */
  lemma FinalLock(segs: seq<Segment>, activeSeg: Option<int>, segId: Option<int>, i: int)
    requires 0 <= i < |segs| && segs[i].isActive && segs[i].isFinal && FirstActive(segs) == Some(segs[i])
    ensures segId.Some? && segId.value != segs[i].id ==> ToggleDecision(segs, activeSeg, segId) == Locked
    ensures segId.None? || segId.value == segs[i].id ==> ToggleDecision(segs, activeSeg, segId) != Locked
  {
    assert FinalRoundIsActive(segs);
  }

  /**
   * The dialog table once the lock lets the press through: no segment pressed
   * and none active is a no-op; any active segment means the strict dialog;
   * a segment pressed with none active means the simple dialog.
   */
  lemma DialogChoice(segs: seq<Segment>, activeSeg: Option<int>, segId: Option<int>)
    requires ToggleDecision(segs, activeSeg, segId) != Locked
    ensures ToggleDecision(segs, activeSeg, segId) == NoOp <==> segId.None? && activeSeg.None?
    ensures ToggleDecision(segs, activeSeg, segId) == StrictDialog <==> activeSeg.Some?
    ensures ToggleDecision(segs, activeSeg, segId) == SimpleDialog <==> segId.Some? && activeSeg.None?
  {
  }

  /** Without an active final round nothing is ever locked. */
  lemma NoFinalNoLock(segs: seq<Segment>, activeSeg: Option<int>, segId: Option<int>)
    requires forall i :: 0 <= i < |segs| ==> !(segs[i].isActive && segs[i].isFinal)
    ensures ToggleDecision(segs, activeSeg, segId) != Locked
  {
  }

  // ---------------------------------------------------------------
  // CONFIRM checks
  // ---------------------------------------------------------------

  /** The strict dialog accepts CONFIRM in any case, with surrounding whitespace. */
  predicate StrictConfirmValid(text: string) {
    Text.Upper(Text.Strip(text)) == "CONFIRM"
  }

  /** Final-round activation accepts exactly CONFIRM. */
  predicate FinalConfirmValid(text: string) {
    text == "CONFIRM"
  }

  /** What final activation accepts, the strict dialog accepts too. */
  lemma FinalConfirmIsStricter(text: string)
    requires FinalConfirmValid(text)
    ensures StrictConfirmValid(text)
  {
    Text.StripTrimmed(text);
    var u := Text.Upper(text);
    assert forall i :: 0 <= i < |text| ==> u[i] == text[i];
  }

  /** The strict dialog also accepts a lower-case, padded " confirm ", which final activation refuses. */
  lemma StrictAcceptsPadded()
    ensures StrictConfirmValid(" confirm ") && !FinalConfirmValid(" confirm ")
  {
    var inner := "confirm";
    assert " confirm " == [' '] + inner + [' '];
    StripOnePad(inner);
    UpperConfirm();
  }

  lemma UpperConfirm()
    ensures Text.Upper("confirm") == "CONFIRM"
  {
    var u := Text.Upper("confirm");
    assert u[0] == 'C' && u[1] == 'O' && u[2] == 'N' && u[3] == 'F';
    assert u[4] == 'I' && u[5] == 'R' && u[6] == 'M';
  }

  /** One blank on each side of a trimmed word is stripped away. */
  lemma StripOnePad(t: string)
    requires t != [] && !Text.IsSpace(t[0]) && !Text.IsSpace(t[|t| - 1])
    ensures Text.Strip([' '] + t + [' ']) == t
  {
    var padded := [' '] + t + [' '];
    assert padded[1..] == t + [' '];
    assert Text.StripLeft(padded) == Text.StripLeft(t + [' ']);
    assert Text.StripLeft(t + [' ']) == t + [' '];
    assert (t + [' '])[..|t|] == t;
    assert Text.StripRight(t + [' ']) == Text.StripRight(t);
    assert Text.StripRight(t) == t;
  }

  /** An empty field never passes the CONFIRM check. */
  lemma EmptyTextIsNotConfirm()
    ensures !StrictConfirmValid([])
  {
    assert Text.Upper(Text.Strip([])) == [];
  }

  // ---------------------------------------------------------------
  // Screen state and save handlers
  // ---------------------------------------------------------------

  /** The calls the screen makes to the event and pageant services. */
  datatype Request =
    | AddSegment(eventId: int, name: string, weight: real, order: int, isFinal: bool, qualifierLimit: int)
    | UpdateSegment(segmentId: int, name: string, weight: real, isFinal: bool, qualifierLimit: int)
    | AddCriteria(forSegment: Option<int>, name: string, weight: real)
    | UpdateCriteria(criteriaId: int, name: string, weight: real)
    | SetActiveSegment(eventId: int, target: Option<int>)

  /** A save either fails on its input, with the message shown, or makes one call. */
  datatype SaveOutcome = Invalid(message: string) | Call(request: Request)

  /**
   * The screen's own state. Numbers typed into the forms arrive already
   * parsed: None stands for text that is not a number.
   */
  class ConfigScreen {
    const eventId: int
    var pendingActionSegId: Option<int>
    var editingSegmentId: Option<int>
    var editingCriteriaId: Option<int>
    var selectedSegmentId: Option<int>
    /** The text in the strict dialog's CONFIRM field. */
    var strictText: string
    /** Whether the strict dialog's Proceed button is enabled; it starts disabled. */
    var strictEnabled: bool

    constructor (eventId: int)
      ensures this.eventId == eventId
      ensures pendingActionSegId == None && editingSegmentId == None
      ensures editingCriteriaId == None && selectedSegmentId == None
      ensures strictText == [] && !strictEnabled
    {
      this.eventId := eventId;
      pendingActionSegId, editingSegmentId, editingCriteriaId, selectedSegmentId := None, None, None, None;
      strictText, strictEnabled := [], false;
    }

    /** The Proceed button is enabled exactly when the field's text passes the CONFIRM check. */
    predicate StrictButtonAgrees()
      reads this
    {
      strictEnabled == StrictConfirmValid(strictText)
    }

    /** Remembers the pressed segment, then decides what the press does. */
    method RequestToggleStatus(segs: seq<Segment>, activeSeg: Option<int>, segId: Option<int>) returns (d: Decision)
      modifies this`pendingActionSegId
      ensures pendingActionSegId == segId
      ensures d == ToggleDecision(segs, activeSeg, segId)
    {
      pendingActionSegId := segId;
      d := ToggleDecision(segs, activeSeg, segId);
    }

    /** Confirming the simple dialog toggles the remembered segment. */
    function ConfirmSimple(): (r: Request)
      reads this
      ensures r.SetActiveSegment? && r.eventId == eventId && r.target == pendingActionSegId
    {
      SetActiveSegment(eventId, pendingActionSegId)
    }

    /** Typing in the CONFIRM field enables Proceed iff the new text passes the check. */
    method ValidateStrict(text: string)
      modifies this`strictText, this`strictEnabled
      ensures strictText == text && strictEnabled == StrictConfirmValid(text)
      ensures StrictButtonAgrees()
    {
      strictText := text;
      strictEnabled := StrictConfirmValid(text);
    }

    /**
     * Pressing Proceed, as the screen does it: a disabled button does nothing;
     * an enabled one toggles the remembered segment and clears the field, but
     * leaves the button enabled.
     */
    method ConfirmStrict() returns (r: Option<Request>)
      modifies this`strictText
      ensures r.Some? <==> strictEnabled
      ensures r.Some? ==> r.value == SetActiveSegment(eventId, pendingActionSegId) && strictText == []
      ensures r.None? ==> strictText == old(strictText)
    {
      if strictEnabled {
        r := Some(SetActiveSegment(eventId, pendingActionSegId));
        strictText := [];
      } else {
        r := None;
      }
    }

    /**
     * Pressing Proceed with the button reset as well: while the button agrees
     * with the field, the dialog proceeds iff the text in the field passes the
     * CONFIRM check, and the cleared field disables the button again.
     */
    method ConfirmStrictReset() returns (r: Option<Request>)
      requires StrictButtonAgrees()
      modifies this`strictText, this`strictEnabled
      ensures r.Some? <==> StrictConfirmValid(old(strictText))
      ensures r.Some? ==> r.value == SetActiveSegment(eventId, pendingActionSegId) && strictText == [] && !strictEnabled
      ensures r.None? ==> strictText == old(strictText) && strictEnabled == old(strictEnabled)
      ensures StrictButtonAgrees()
    {
      if strictEnabled {
        r := Some(SetActiveSegment(eventId, pendingActionSegId));
        strictText, strictEnabled := [], false;
        EmptyTextIsNotConfirm();
      } else {
        r := None;
      }
    }

    method OpenAddSegment()
      modifies this`editingSegmentId
      ensures editingSegmentId == None
    {
      editingSegmentId := None;
    }

    method OpenEditSegment(seg: Segment)
      modifies this`editingSegmentId
      ensures editingSegmentId == Some(seg.id)
    {
      editingSegmentId := Some(seg.id);
    }

    method OpenAddCriteria(segmentId: int)
      modifies this`selectedSegmentId, this`editingCriteriaId
      ensures selectedSegmentId == Some(segmentId) && editingCriteriaId == None
    {
      selectedSegmentId, editingCriteriaId := Some(segmentId), None;
    }

    method OpenEditCriteria(criteriaId: int)
      modifies this`editingCriteriaId
      ensures editingCriteriaId == Some(criteriaId)
    {
      editingCriteriaId := Some(criteriaId);
    }

    /**
     * Saving the segment form. A final segment is saved with weight 0 and the
     * entered qualifier count (its weight text is not read); any other segment
     * with its normalised weight and a qualifier count of 0. The call is an
     * update while a segment is being edited, otherwise an add at order 1.
     */
    function SaveSegment(name: string, isFinal: bool, weightEntry: Option<real>, qualifierEntry: Option<int>)
      : (r: SaveOutcome)
      reads this
      ensures r.Invalid? <==> (if isFinal then qualifierEntry.None? else weightEntry.None?)
      ensures r.Invalid? ==> r.message == "Invalid Input"
      ensures r.Call? && isFinal ==>
                (r.request.AddSegment? || r.request.UpdateSegment?) &&
                r.request.weight == 0.0 && r.request.qualifierLimit == qualifierEntry.value
      ensures r.Call? && !isFinal ==>
                (r.request.AddSegment? || r.request.UpdateSegment?) &&
                r.request.weight == Weights.Normalize(weightEntry.value) && r.request.qualifierLimit == 0
      ensures r.Call? ==> (r.request.UpdateSegment? <==> editingSegmentId.Some?)
      ensures r.Call? && r.request.UpdateSegment? ==> r.request.segmentId == editingSegmentId.value
      ensures r.Call? && r.request.AddSegment? ==> r.request.eventId == eventId && r.request.order == 1
      ensures r.Call? ==> r.request.name == name && r.request.isFinal == isFinal
    {
      if !isFinal && weightEntry.None? then Invalid("Invalid Input")
      else
        var w := if !isFinal then Weights.Normalize(weightEntry.value) else 0.0;
        if isFinal && qualifierEntry.None? then Invalid("Invalid Input")
        else
          var limit := if isFinal then qualifierEntry.value else 0;
          if editingSegmentId.Some? then Call(UpdateSegment(editingSegmentId.value, name, w, isFinal, limit))
          else Call(AddSegment(eventId, name, w, 1, isFinal, limit))
    }

    /** Saving the criteria form: the normalised weight, as an update or an add. */
    function SaveCriteria(name: string, weightEntry: Option<real>): (r: SaveOutcome)
      reads this
      ensures r.Invalid? <==> weightEntry.None?
      ensures r.Invalid? ==> r.message == "Invalid Weight"
      ensures r.Call? ==> (r.request.UpdateCriteria? <==> editingCriteriaId.Some?)
      ensures r.Call? && r.request.UpdateCriteria? ==> r.request.criteriaId == editingCriteriaId.value
      ensures r.Call? && !r.request.UpdateCriteria? ==> r.request.AddCriteria? && r.request.forSegment == selectedSegmentId
      ensures r.Call? ==> (r.request.AddCriteria? || r.request.UpdateCriteria?) &&
                          r.request.name == name && r.request.weight == Weights.Normalize(weightEntry.value)
    {
      if weightEntry.None? then Invalid("Invalid Weight")
      else
        var w := Weights.Normalize(weightEntry.value);
        if editingCriteriaId.Some? then Call(UpdateCriteria(editingCriteriaId.value, name, w))
        else Call(AddCriteria(selectedSegmentId, name, w))
    }
  }

  /**
   * The strict dialog as written: after one confirmed toggle (with any text
   * that passes the check, such as CONFIRM) the field is empty but Proceed
   * stays enabled, so the next strict toggle goes through without CONFIRM
   * being typed.
   */
  method ProceedsOnEmptyText(typed: string) returns (first: Option<Request>, second: Option<Request>, textAtSecond: string)
    requires StrictConfirmValid(typed)
    ensures first.Some? && second.Some?
    ensures textAtSecond == [] && !StrictConfirmValid(textAtSecond)
  {
    var screen := new ConfigScreen(1);
    screen.ValidateStrict(typed);
    first := screen.ConfirmStrict();
    textAtSecond := screen.strictText;
    second := screen.ConfirmStrict();
    EmptyTextIsNotConfirm();
  }

  /** With the reset, the same presses proceed once; the second needs CONFIRM typed again. */
  method ResetRequiresRetyping(typed: string) returns (first: Option<Request>, second: Option<Request>)
    requires StrictConfirmValid(typed)
    ensures first.Some? && second.None?
  {
    var screen := new ConfigScreen(1);
    screen.ValidateStrict(typed);
    first := screen.ConfirmStrictReset();
    second := screen.ConfirmStrictReset();
  }

  /** The whole percentage the edit form is pre-filled with for a stored weight. */
  function PrefillPercent(weight: real): int {
    Text.TruncToInt(weight * 100.0)
  }

  /**
   * Saving an edit form unchanged, in exact arithmetic: a stored whole
   * percentage from 2% to 100% comes back as it was, but a stored 1% is
   * pre-filled as "1", which the normaliser reads as the fraction 1, that is
   * 100%. (With binary floating point some percentages also drop by one.)
   */
  lemma EditUnchangedRoundTrip(p: int)
    requires 1 <= p <= 100
    ensures var w := p as real / 100.0;
            Weights.Normalize(PrefillPercent(w) as real) == if p == 1 then 1.0 else w
  {
    var w := p as real / 100.0;
    assert w * 100.0 == p as real;
    assert (p as real).Floor == p;
  }

  // ---------------------------------------------------------------
  // Final-round preview: qualifiers and eliminated
  // ---------------------------------------------------------------

  /** One entry of a gender's preliminary ranking, best first. */
  datatype Ranked = Ranked(name: string, score: real)

  datatype PreviewLine = Heading(title: string) | Line(rank: int, name: string, score: real) | NoScoresYet

  /** The lines of the entries ranked within the limit, rank = position + 1. */
  function QualifierLines(rl: seq<Ranked>, limit: int): seq<PreviewLine> {
    if rl == [] then []
    else
      var n := |rl| - 1;
      QualifierLines(rl[..n], limit) + (if n < limit then [Line(n + 1, rl[n].name, rl[n].score)] else [])
  }

  /** The lines of the entries ranked below the limit. */
  function EliminatedLines(rl: seq<Ranked>, limit: int): seq<PreviewLine> {
    if rl == [] then []
    else
      var n := |rl| - 1;
      EliminatedLines(rl[..n], limit) + (if n < limit then [] else [Line(n + 1, rl[n].name, rl[n].score)])
  }

  /** Entry `i` extends exactly one of the two lists of the prefix before it. */
  lemma LinesStep(rl: seq<Ranked>, i: int, limit: int)
    requires 0 <= i < |rl|
    ensures var line := Line(i + 1, rl[i].name, rl[i].score);
            QualifierLines(rl[..i + 1], limit) ==
              QualifierLines(rl[..i], limit) + (if i < limit then [line] else [])
    ensures var line := Line(i + 1, rl[i].name, rl[i].score);
            EliminatedLines(rl[..i + 1], limit) ==
              EliminatedLines(rl[..i], limit) + (if i < limit then [] else [line])
  {
    assert rl[..i + 1][..i] == rl[..i];
  }

  /** The heading line of a gender's section. */
  function SectionHeading(title: string): PreviewLine {
    Heading("--- " + title + " ---")
  }

  /** A gender's section of the qualifier list: a heading, then its qualifier lines; nothing for an empty ranking. */
  function QualifierSection(rl: seq<Ranked>, title: string, limit: int): seq<PreviewLine> {
    if rl == [] then [] else [SectionHeading(title)] + QualifierLines(rl, limit)
  }

  /** A gender's section of the eliminated list. */
  function EliminatedSection(rl: seq<Ranked>, title: string, limit: int): seq<PreviewLine> {
    if rl == [] then [] else [SectionHeading(title)] + EliminatedLines(rl, limit)
  }

  /**
   * Appends one gender's section to both lists: a heading in each, then each
   * entry to the qualifiers when its position is below the limit, otherwise
   * to the eliminated. An empty ranking adds nothing.
   */
  method BuildList(rl: seq<Ranked>, title: string, limit: int, q0: seq<PreviewLine>, e0: seq<PreviewLine>)
    returns (q: seq<PreviewLine>, e: seq<PreviewLine>)
    ensures q == q0 + QualifierSection(rl, title, limit)
    ensures e == e0 + EliminatedSection(rl, title, limit)
  {
    if rl == [] {
      assert q0 + [] == q0 && e0 + [] == e0;
      q, e := q0, e0;
    } else {
      var h := SectionHeading(title);
      var ql, el := QualifierLines(rl, limit), EliminatedLines(rl, limit);
      assert QualifierSection(rl, title, limit) == [h] + ql;
      assert EliminatedSection(rl, title, limit) == [h] + el;
      q, e := DistributeLines(rl, limit, q0 + [h], e0 + [h]);
      assert q == q0 + ([h] + ql);
      assert e == e0 + ([h] + el);
    }
  }

  /** The loop of `BuildList`: each entry goes to exactly one list, ranked by its position. */
  method DistributeLines(rl: seq<Ranked>, limit: int, pq: seq<PreviewLine>, pe: seq<PreviewLine>)
    returns (q: seq<PreviewLine>, e: seq<PreviewLine>)
    ensures q == pq + QualifierLines(rl, limit)
    ensures e == pe + EliminatedLines(rl, limit)
  {
    q, e := pq, pe;
    var i := 0;
    while i < |rl|
      invariant 0 <= i <= |rl|
      invariant q == pq + QualifierLines(rl[..i], limit)
      invariant e == pe + EliminatedLines(rl[..i], limit)
    {
      var line := Line(i + 1, rl[i].name, rl[i].score);
      LinesStep(rl, i, limit);
      if i < limit {
        q := q + [line];
      } else {
        e := e + [line];
      }
      i := i + 1;
    }
    assert rl[..i] == rl;
  }

  /**
   * The preview: the male section, then the female one, and a
   * "No scores recorded yet." note exactly when both ranking lists are empty.
   */
  method FinalPreview(male: seq<Ranked>, female: seq<Ranked>, limit: int)
    returns (qualifiers: seq<PreviewLine>, eliminated: seq<PreviewLine>)
    ensures var q := QualifierSection(male, "MALE", limit) + QualifierSection(female, "FEMALE", limit);
            qualifiers == if q == [] then [NoScoresYet] else q
    ensures eliminated == EliminatedSection(male, "MALE", limit) + EliminatedSection(female, "FEMALE", limit)
  {
    var q1, e1 := BuildList(male, "MALE", limit, [], []);
    assert q1 == QualifierSection(male, "MALE", limit);
    assert e1 == EliminatedSection(male, "MALE", limit);
    qualifiers, eliminated := BuildList(female, "FEMALE", limit, q1, e1);
    if qualifiers == [] {
      qualifiers := [NoScoresYet];
    }
  }

  /** Qualifier lines rank from 1 up to the limit, eliminated lines above it, never beyond the list. */
  lemma {:induction false} LinesRanks(rl: seq<Ranked>, limit: int)
    ensures forall l :: l in QualifierLines(rl, limit) ==> l.Line? && 1 <= l.rank <= |rl| && l.rank <= limit
    ensures forall l :: l in EliminatedLines(rl, limit) ==> l.Line? && 1 <= l.rank <= |rl| && l.rank > limit
  {
    if rl != [] {
      LinesRanks(rl[..|rl| - 1], limit);
    }
  }

  /** There are min(limit, n) qualifier lines (none for a limit of 0 or less); the rest are eliminated. */
  lemma {:induction false} LinesCount(rl: seq<Ranked>, limit: int)
    ensures |QualifierLines(rl, limit)| + |EliminatedLines(rl, limit)| == |rl|
    ensures |QualifierLines(rl, limit)| == if limit <= 0 then 0 else if limit < |rl| then limit else |rl|
  {
    if rl != [] {
      LinesCount(rl[..|rl| - 1], limit);
    }
  }

  /**
   * Every entry lands in exactly one group, with rank = position + 1: in the
   * qualifiers exactly when its position is below the limit, otherwise in the
   * eliminated.
   */
  lemma {:induction false} LinesPartition(rl: seq<Ranked>, limit: int, i: int)
    requires 0 <= i < |rl|
    ensures Line(i + 1, rl[i].name, rl[i].score) in QualifierLines(rl, limit) <==> i < limit
    ensures Line(i + 1, rl[i].name, rl[i].score) in EliminatedLines(rl, limit) <==> i >= limit
  {
    var n := |rl| - 1;
    var line := Line(i + 1, rl[i].name, rl[i].score);
    var qp, ep := QualifierLines(rl[..n], limit), EliminatedLines(rl[..n], limit);
    if i < n {
      assert rl[..n][i] == rl[i];
      LinesPartition(rl[..n], limit, i);
    } else {
      LinesRanks(rl[..n], limit);
    }
  }
}
