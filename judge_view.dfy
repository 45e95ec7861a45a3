/**
 * The judge's scoring form: each criterion of the contestant has a text
 * input pre-filled with the judge's earlier score. Submitting checks every
 * input, marks the bad ones, and only when none is bad sends one score per
 * criterion, counting the ones the scoring service accepted.
 */
module JudgeView {
  import opened Wrappers
  import Text

  /** A score input: its criterion, the text in the field, and the criterion's maximum score. */
  datatype Input = Input(critId: int, text: string, maxScore: real)

  /** What the check makes of one input. */
  datatype Verdict = Blank | NotNumber | BeyondRange | Accepted(value: real)

  /** The error shown under a rejected field: "Required", "Number only" or "Max <maximum>". */
  datatype FieldMessage = Required | NumberOnly | MaxHint(maxScore: real)

  /**
   * The check of one field. The text is stripped; a blank one is missing, one
   * that does not parse as a number is not a number, and a number is accepted
   * iff it lies between 0 and the maximum, both included.
   */
  function Classify(text: string, maxScore: real, parse: string -> Option<real>): (v: Verdict)
    ensures v == Blank <==> Text.Strip(text) == []
    ensures v == NotNumber <==> Text.Strip(text) != [] && parse(Text.Strip(text)).None?
    ensures v.Accepted? <==>
              Text.Strip(text) != [] && parse(Text.Strip(text)).Some? &&
              0.0 <= parse(Text.Strip(text)).value <= maxScore
    ensures v.Accepted? ==> v.value == parse(Text.Strip(text)).value
  {
    var t := Text.Strip(text);
    if t == [] then Blank
    else match parse(t)
      case None => NotNumber
      case Some(val) => if val < 0.0 || val > maxScore then BeyondRange else Accepted(val)
  }

  /** The field's error after the check; an accepted field has its error cleared. */
  function MessageFor(v: Verdict, maxScore: real): Option<FieldMessage> {
    match v
    case Blank => Some(Required)
    case NotNumber => Some(NumberOnly)
    case BeyondRange => Some(MaxHint(maxScore))
    case Accepted(_) => None
  }

  /** The entry logged for a rejected field. */
  function NoteFor(v: Verdict): string
    requires !v.Accepted?
  {
    match v
    case Blank => "Missing fields"
    case NotNumber => "Invalid number"
    case BeyondRange => "Score out of range"
  }

  /** The error a field shows after the check. */
  function ErrorTextOf(input: Input, parse: string -> Option<real>): Option<FieldMessage> {
    MessageFor(VerdictOf(input, parse), input.maxScore)
  }

  function VerdictOf(input: Input, parse: string -> Option<real>): Verdict {
    Classify(input.text, input.maxScore, parse)
  }

  /** The (criterion, score) pairs of the accepted inputs, in form order. */
  function ValidPairs(inputs: seq<Input>, parse: string -> Option<real>): seq<(int, real)> {
    if inputs == [] then []
    else
      ValidPairs(inputs[..|inputs| - 1], parse) + PairOf(inputs[|inputs| - 1], parse)
  }

  /** The pair an input contributes: its criterion and value when accepted, nothing otherwise. */
  function PairOf(input: Input, parse: string -> Option<real>): seq<(int, real)> {
    var v := VerdictOf(input, parse);
    if v.Accepted? then [(input.critId, v.value)] else []
  }

  lemma PairOfMeans(input: Input, parse: string -> Option<real>, pr: (int, real))
    ensures pr in PairOf(input, parse) <==> VerdictOf(input, parse) == Accepted(pr.1) && input.critId == pr.0
  {
  }

  /** The error log of the rejected inputs, in form order. */
  function ErrorNotes(inputs: seq<Input>, parse: string -> Option<real>): seq<string> {
    if inputs == [] then []
    else
      ErrorNotes(inputs[..|inputs| - 1], parse) + NoteOf(inputs[|inputs| - 1], parse)
  }

  /** The note an input logs: none when accepted, the note of its verdict otherwise. */
  function NoteOf(input: Input, parse: string -> Option<real>): seq<string> {
    var v := VerdictOf(input, parse);
    if v.Accepted? then [] else [NoteFor(v)]
  }

  /** One more input extends exactly one of the two lists by its own entry. */
  lemma ListsStep(inputs: seq<Input>, i: nat, parse: string -> Option<real>)
    requires i < |inputs|
    ensures ValidPairs(inputs[..i + 1], parse) == ValidPairs(inputs[..i], parse) + PairOf(inputs[i], parse)
    ensures ErrorNotes(inputs[..i + 1], parse) == ErrorNotes(inputs[..i], parse) + NoteOf(inputs[i], parse)
  {
    assert inputs[..i + 1][..i] == inputs[..i];
  }

  /** Every input lands in exactly one of the two lists. */
  lemma {:induction false} EachInputOnce(inputs: seq<Input>, parse: string -> Option<real>)
    ensures |ValidPairs(inputs, parse)| + |ErrorNotes(inputs, parse)| == |inputs|
  {
    if inputs != [] {
      EachInputOnce(inputs[..|inputs| - 1], parse);
    }
  }

  /** Every accepted input contributes its pair. */
  lemma AcceptedInputsAreSent(inputs: seq<Input>, parse: string -> Option<real>)
    ensures forall i :: 0 <= i < |inputs| && VerdictOf(inputs[i], parse).Accepted? ==>
              (inputs[i].critId, VerdictOf(inputs[i], parse).value) in ValidPairs(inputs, parse)
  {
    forall i | 0 <= i < |inputs| && VerdictOf(inputs[i], parse).Accepted? {
      AcceptedInputSent(inputs, i, parse);
    }
  }

  /** The accepted input at position `i` contributes its pair. */
  lemma {:induction false} AcceptedInputSent(inputs: seq<Input>, i: nat, parse: string -> Option<real>)
    requires i < |inputs| && VerdictOf(inputs[i], parse).Accepted?
    ensures (inputs[i].critId, VerdictOf(inputs[i], parse).value) in ValidPairs(inputs, parse)
    decreases |inputs|
  {
    var k := |inputs| - 1;
    var init := inputs[..k];
    var pr := (inputs[i].critId, VerdictOf(inputs[i], parse).value);
    assert ValidPairs(inputs, parse) == ValidPairs(init, parse) + PairOf(inputs[k], parse);
    if i < k {
      assert init[i] == inputs[i];
      AcceptedInputSent(init, i, parse);
    } else {
      assert i == k;
      var v := VerdictOf(inputs[k], parse);
      assert v == VerdictOf(inputs[i], parse);
      assert v.Accepted? && pr == (inputs[k].critId, v.value);
      assert PairOf(inputs[k], parse) == [pr];
    }
  }

  /** Every pair comes from an accepted input carrying that criterion and value. */
  lemma {:induction false} SentPairsWereAccepted(inputs: seq<Input>, parse: string -> Option<real>)
    ensures forall pr :: pr in ValidPairs(inputs, parse) ==>
              exists i :: 0 <= i < |inputs| && VerdictOf(inputs[i], parse) == Accepted(pr.1) && inputs[i].critId == pr.0
  {
    if inputs != [] {
      var k := |inputs| - 1;
      var init := inputs[..k];
      SentPairsWereAccepted(init, parse);
      assert ValidPairs(inputs, parse) == ValidPairs(init, parse) + PairOf(inputs[k], parse);
      forall pr | pr in ValidPairs(inputs, parse)
        ensures exists i :: 0 <= i < |inputs| && VerdictOf(inputs[i], parse) == Accepted(pr.1) && inputs[i].critId == pr.0
      {
        if pr in ValidPairs(init, parse) {
          var i :| 0 <= i < |init| && VerdictOf(init[i], parse) == Accepted(pr.1) && init[i].critId == pr.0;
          assert inputs[i] == init[i];
        } else {
          PairOfMeans(inputs[k], parse, pr);
          assert VerdictOf(inputs[k], parse) == Accepted(pr.1) && inputs[k].critId == pr.0;
        }
      }
    }
  }

  /** With no error at all, every input was accepted. */
  lemma NoErrorsMeansAllAccepted(inputs: seq<Input>, parse: string -> Option<real>)
    requires ErrorNotes(inputs, parse) == []
    ensures |ValidPairs(inputs, parse)| == |inputs|
  {
    EachInputOnce(inputs, parse);
  }

  /** How many of the given calls the scoring service reports as saved. */
  function Successes(calls: seq<(int, real)>, submit: (int, real) -> bool): nat {
    if calls == [] then 0
    else Successes(calls[..|calls| - 1], submit) + (if submit(calls[|calls| - 1].0, calls[|calls| - 1].1) then 1 else 0)
  }

  /** The count of saved scores never exceeds the number of calls. */
  lemma {:induction false} SuccessesAtMostCalls(calls: seq<(int, real)>, submit: (int, real) -> bool)
    ensures Successes(calls, submit) <= |calls|
    ensures Successes(calls, submit) == |calls| <==> forall k :: 0 <= k < |calls| ==> submit(calls[k].0, calls[k].1)
  {
    if calls != [] {
      var init := calls[..|calls| - 1];
      SuccessesAtMostCalls(init, submit);
      assert forall k :: 0 <= k < |init| ==> init[k] == calls[k];
    }
  }

  /** The text a field starts with: the judge's earlier score for the criterion, else empty. */
  function Prefill(existing: map<int, real>, critId: int, show: real -> string): string {
    if critId in existing then show(existing[critId]) else ""
  }

  /**
   * A field left as pre-filled: a criterion never scored is reported missing;
   * an earlier score in range is sent again unchanged, provided its written
   * form reads back as the same number.
   */
  lemma PrefillResubmits(existing: map<int, real>, critId: int, show: real -> string,
                         maxScore: real, parse: string -> Option<real>)
    ensures critId !in existing ==> Classify(Prefill(existing, critId, show), maxScore, parse) == Blank
    ensures critId in existing && Text.Strip(show(existing[critId])) != [] &&
            parse(Text.Strip(show(existing[critId]))) == Some(existing[critId]) &&
            0.0 <= existing[critId] <= maxScore ==>
              Classify(Prefill(existing, critId, show), maxScore, parse) == Accepted(existing[critId])
  {
    if critId !in existing {
      Text.StripEmptyIffBlank("");
    }
  }

  /** The open scoring form of one contestant: its inputs and the error shown under each. */
  class ScoringForm {
    var inputs: seq<Input>
    var errorTexts: seq<Option<FieldMessage>>

    ghost predicate Valid()
      reads this
    {
      |errorTexts| == |inputs|
    }

    constructor(inputs: seq<Input>)
      ensures Valid() && this.inputs == inputs
      ensures forall i :: 0 <= i < |errorTexts| ==> errorTexts[i].None?
    {
      this.inputs := inputs;
      errorTexts := seq(|inputs|, i => None);
    }

    /**
     * The validation loop: every field gets its message; the rejected ones
     * are logged in `errors` and the accepted ones collected in `valid`.
     */
    method CheckFields(parse: string -> Option<real>) returns (errors: seq<string>, valid: seq<(int, real)>)
      requires Valid()
      modifies this`errorTexts
      ensures Valid()
      ensures forall i :: 0 <= i < |inputs| ==>
                errorTexts[i] == ErrorTextOf(inputs[i], parse)
      ensures errors == ErrorNotes(inputs, parse) && valid == ValidPairs(inputs, parse)
    {
      errors := [];
      valid := [];
      var i := 0;
      while i < |inputs|
        invariant 0 <= i <= |inputs| && |errorTexts| == |inputs|
        invariant forall k :: 0 <= k < i ==>
                    errorTexts[k] == ErrorTextOf(inputs[k], parse)
        invariant errors == ErrorNotes(inputs[..i], parse) && valid == ValidPairs(inputs[..i], parse)
      {
        var input := inputs[i];
        errorTexts := errorTexts[i := ErrorTextOf(input, parse)];
        valid := valid + PairOf(input, parse);
        errors := errors + NoteOf(input, parse);
        ListsStep(inputs, i, parse);
        i := i + 1;
      }
      assert inputs[..i] == inputs;
    }

    /**
     * The submit button. With any error nothing is sent. Otherwise each
     * valid pair is sent once, in order, and `saved` counts the calls the
     * service accepted.
     */
    method SubmitClick(parse: string -> Option<real>, submit: (int, real) -> bool)
      returns (errors: seq<string>, valid: seq<(int, real)>, calls: seq<(int, real)>, saved: nat, notice: string)
      requires Valid()
      modifies this`errorTexts
      ensures Valid()
      ensures forall i :: 0 <= i < |inputs| ==>
                errorTexts[i] == ErrorTextOf(inputs[i], parse)
      ensures errors == ErrorNotes(inputs, parse) && valid == ValidPairs(inputs, parse)
      ensures errors != [] ==> calls == [] && saved == 0 && notice == "Please fix errors before submitting."
      ensures errors == [] ==> calls == valid && saved == Successes(calls, submit) && |calls| == |inputs|
      ensures errors == [] ==> notice == "Saved " + Text.ShowInt(saved) + " scores!"
      ensures saved <= |inputs|
    {
      errors, valid := CheckFields(parse);
      if errors != [] {
        calls, saved := [], 0;
        notice := "Please fix errors before submitting.";
        return;
      }
      NoErrorsMeansAllAccepted(inputs, parse);
      calls, saved := SendScores(valid, submit);
      notice := "Saved " + Text.ShowInt(saved) + " scores!";
    }
  }

  /** The saving loop: one call per pair, in order, counting the accepted ones. */
  method SendScores(valid: seq<(int, real)>, submit: (int, real) -> bool) returns (calls: seq<(int, real)>, saved: nat)
    ensures calls == valid && saved == Successes(valid, submit)
    ensures saved <= |valid|
  {
    calls := [];
    saved := 0;
    var j := 0;
    while j < |valid|
      invariant 0 <= j <= |valid|
      invariant calls == valid[..j] && saved == Successes(calls, submit)
    {
      var pr := valid[j];
      calls := calls + [pr];
      if submit(pr.0, pr.1) {
        saved := saved + 1;
      }
      assert calls[..|calls| - 1] == valid[..j];
      j := j + 1;
    }
    assert calls == valid;
    SuccessesAtMostCalls(calls, submit);
  }
}
