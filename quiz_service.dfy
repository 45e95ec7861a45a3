/**
 * The quiz score ledger: rounds, the keyed upsert of answers, and the live
 * per-contestant totals sorted from the highest down.
 */
module QuizService {
  import opened Wrappers
  import opened Models
  import Sorting
  import ContestantService
  import Text

  /** What the call reports when the round id names no segment (the points lookup fails). */
  const NoRoundMessage := "'NoneType' object has no attribute 'points_per_question'"

  /**
   * Adds a quiz round. The points per question, question count and order
   * are stored as given; a round carries no percentage weight.
   */
  method AddRound(db: Store, eventId: int, name: string, points: real, totalQuestions: int, order: int)
    returns (reply: Reply)
    requires db.Valid()
    modifies db`segments, db`nextSegmentId
    ensures db.Valid()
    ensures reply == Reply(true, "Round added.")
    ensures db.segments == old(db.segments) +
              [Segment(old(db.nextSegmentId), eventId, name, order, 0.0, false, false, 0, points, totalQuestions, None)]
  {
    var round := Segment(db.nextSegmentId, eventId, name, order, 0.0, false, false, 0, points, totalQuestions, None);
    db.segments := db.segments + [round];
    db.nextSegmentId := db.nextSegmentId + 1;
    reply := Reply(true, "Round added.");
  }

  /**
   * The value stored for an answer: the round's points when correct, else 0.
   * The round is only looked at for a correct answer, so only then does a
   * missing round make the lookup fail (None).
   */
  function PointsFor(round: Option<Segment>, isCorrect: bool): (p: Option<real>)
    ensures p.None? <==> isCorrect && round.None?
    ensures isCorrect && round.Some? ==> p == Some(round.value.pointsPerQuestion)
    ensures !isCorrect ==> p == Some(0.0)
  {
    if isCorrect then (if round.Some? then Some(round.value.pointsPerQuestion) else None) else Some(0.0)
  }

  /** The first row holding `key`, as the `.first()` lookup finds it. */
  function KeyIndex(scores: seq<Score>, key: ScoreKey): (r: Option<nat>)
    ensures r.Some? ==> r.value < |scores| && KeyOf(scores[r.value]) == key
    ensures r.Some? ==> forall j :: 0 <= j < r.value ==> KeyOf(scores[j]) != key
    ensures r.None? ==> forall j :: 0 <= j < |scores| ==> KeyOf(scores[j]) != key
  {
    if scores == [] then None
    else if KeyOf(scores[0]) == key then Some(0)
    else match KeyIndex(scores[1..], key)
      case None => None
      case Some(i) => Some(i + 1)
  }

  /**
   * The ledger after recording an answer: the row with the key is updated in
   * place (correctness, value, scorer), or a new row is appended.
   */
  function Upsert(scores: seq<Score>, nextId: int, tabulatorId: int, key: ScoreKey, isCorrect: bool, points: real)
    : seq<Score>
  {
    match KeyIndex(scores, key)
    case Some(i) => scores[i := scores[i].(isCorrect := isCorrect, scoreValue := points, judgeId := tabulatorId)]
    case None => scores + [Score(nextId, key.contestantId, key.segmentId, tabulatorId, key.questionNumber, isCorrect, points)]
  }

  /**
   * Records an answer of a contestant to a question of a round. A correct
   * answer to a round id that names no segment fails and changes nothing.
   */
  method SubmitAnswer(db: Store, tabulatorId: int, contestantId: int, roundId: int, questionNum: int, isCorrect: bool)
    returns (reply: Reply)
    requires db.Valid()
    modifies db`scores, db`nextScoreId
    ensures db.Valid()
    ensures PointsFor(FindSegment(old(db.segments), roundId), isCorrect).None? ==>
              reply == Reply(false, NoRoundMessage) && db.scores == old(db.scores)
    ensures PointsFor(FindSegment(old(db.segments), roundId), isCorrect).Some? ==>
              reply == Reply(true, "Answer recorded.") &&
              db.scores == Upsert(old(db.scores), old(db.nextScoreId), tabulatorId,
                                  ScoreKey(contestantId, roundId, questionNum), isCorrect,
                                  PointsFor(FindSegment(old(db.segments), roundId), isCorrect).value)
    ensures db.nextScoreId ==
              old(db.nextScoreId) +
              if PointsFor(FindSegment(old(db.segments), roundId), isCorrect).Some? &&
                 KeyIndex(old(db.scores), ScoreKey(contestantId, roundId, questionNum)).None?
              then 1 else 0
  {
    var key := ScoreKey(contestantId, roundId, questionNum);
    var existing := KeyIndex(db.scores, key);
    var roundInfo := FindSegment(db.segments, roundId);
    var lookup := PointsFor(roundInfo, isCorrect);
    if lookup.None? {
      return Reply(false, NoRoundMessage);
    }
    var points := lookup.value;
    UpsertKeepsStoreInvariants(db.scores, db.nextScoreId, tabulatorId, key, isCorrect, points);
    if existing.Some? {
      var i := existing.value;
      db.scores := db.scores[i := db.scores[i].(isCorrect := isCorrect, scoreValue := points, judgeId := tabulatorId)];
    } else {
      db.scores := db.scores + [Score(db.nextScoreId, contestantId, roundId, tabulatorId, questionNum, isCorrect, points)];
      db.nextScoreId := db.nextScoreId + 1;
    }
    reply := Reply(true, "Answer recorded.");
  }

  /** An upsert keeps keys unique and row ids unique and below the (possibly advanced) counter. */
  lemma UpsertKeepsStoreInvariants(scores: seq<Score>, nextId: int, tabulatorId: int, key: ScoreKey, isCorrect: bool, points: real)
    requires ScoreKeysUnique(scores)
    requires IdsUnique(Ids(scores, ScoreId)) && IdsBelow(Ids(scores, ScoreId), nextId)
    ensures var r := Upsert(scores, nextId, tabulatorId, key, isCorrect, points);
            ScoreKeysUnique(r) && IdsUnique(Ids(r, ScoreId)) &&
            IdsBelow(Ids(r, ScoreId), if KeyIndex(scores, key).Some? then nextId else nextId + 1)
  {
    var r := Upsert(scores, nextId, tabulatorId, key, isCorrect, points);
    var ids, rids := Ids(scores, ScoreId), Ids(r, ScoreId);
    if KeyIndex(scores, key).None? {
      forall i, j | 0 <= i < j < |r| ensures KeyOf(r[i]) != KeyOf(r[j]) && rids[i] != rids[j] {
        if j < |scores| { assert ids[i] != ids[j]; } else { assert ids[i] < nextId; }
      }
    } else {
      var k := KeyIndex(scores, key).value;
      forall i, j | 0 <= i < j < |r| ensures KeyOf(r[i]) != KeyOf(r[j]) && rids[i] != rids[j] {
        assert ids[i] != ids[j];
      }
    }
  }

  /**
   * After an upsert the key is held by exactly one row, and that row holds
   * the latest answer: its correctness, its value and its scorer.
   */
  lemma UpsertRecordsAnswer(scores: seq<Score>, nextId: int, tabulatorId: int, key: ScoreKey, isCorrect: bool, points: real)
    requires ScoreKeysUnique(scores)
    ensures var r := Upsert(scores, nextId, tabulatorId, key, isCorrect, points);
            exists i :: 0 <= i < |r| && KeyOf(r[i]) == key
    ensures var r := Upsert(scores, nextId, tabulatorId, key, isCorrect, points);
            forall i, j :: 0 <= i < |r| && 0 <= j < |r| && KeyOf(r[i]) == key && KeyOf(r[j]) == key ==> i == j
    ensures var r := Upsert(scores, nextId, tabulatorId, key, isCorrect, points);
            forall i :: 0 <= i < |r| && KeyOf(r[i]) == key ==>
              r[i].isCorrect == isCorrect && r[i].scoreValue == points && r[i].judgeId == tabulatorId
  {
    var r := Upsert(scores, nextId, tabulatorId, key, isCorrect, points);
    match KeyIndex(scores, key)
    case Some(k) =>
      assert KeyOf(r[k]) == key;
      assert forall i :: 0 <= i < |r| && KeyOf(r[i]) == key ==> i == k;
    case None =>
      assert KeyOf(r[|scores|]) == key;
  }

  /**
   * Rows with any other key are untouched and stay where they were; the
   * table grows by one row exactly when the key was absent.
   */
  lemma UpsertKeepsOthers(scores: seq<Score>, nextId: int, tabulatorId: int, key: ScoreKey, isCorrect: bool, points: real)
    ensures var r := Upsert(scores, nextId, tabulatorId, key, isCorrect, points);
            |r| == |scores| + (if exists j :: 0 <= j < |scores| && KeyOf(scores[j]) == key then 0 else 1)
    ensures var r := Upsert(scores, nextId, tabulatorId, key, isCorrect, points);
            forall j :: 0 <= j < |scores| && KeyOf(scores[j]) != key ==> r[j] == scores[j]
  {
    if KeyIndex(scores, key).Some? {
      var k := KeyIndex(scores, key).value;
      assert 0 <= k < |scores| && KeyOf(scores[k]) == key;
    }
  }

  /**
   * Last write wins: submitting an answer to the same key twice is the same
   * as submitting only the second answer, so no duplicate row ever appears.
   */
  lemma ResubmitOverwrites(scores: seq<Score>, nextId: int, laterId: int, key: ScoreKey,
                           t1: int, c1: bool, p1: real, t2: int, c2: bool, p2: real)
    ensures Upsert(Upsert(scores, nextId, t1, key, c1, p1), laterId, t2, key, c2, p2) ==
            Upsert(scores, nextId, t2, key, c2, p2)
  {
    var once := Upsert(scores, nextId, t1, key, c1, p1);
    match KeyIndex(scores, key)
    case Some(k) =>
      assert KeyOf(once[k]) == key;
      assert forall j :: 0 <= j < k ==> once[j] == scores[j];
      assert KeyIndex(once, key) == Some(k);
    case None =>
      assert KeyOf(once[|scores|]) == key;
      assert forall j :: 0 <= j < |scores| ==> once[j] == scores[j];
      assert KeyIndex(once, key) == Some(|scores|);
  }

  /** A row's contribution to a contestant's event total: the join on the round's event. */
  function Contribution(sc: Score, segments: seq<Segment>, contestantId: int, eventId: int): real {
    if sc.contestantId == contestantId && RoundInEvent(segments, sc.segmentId, eventId) then sc.scoreValue else 0.0
  }

  predicate RoundInEvent(segments: seq<Segment>, segmentId: int, eventId: int) {
    exists i :: 0 <= i < |segments| && segments[i].id == segmentId && segments[i].eventId == eventId
  }

  /** The SQL sum of score values of one contestant over the rounds of one event (0 when none). */
  function EventPoints(scores: seq<Score>, segments: seq<Segment>, contestantId: int, eventId: int): real {
    if scores == [] then 0.0
    else Contribution(scores[0], segments, contestantId, eventId) + EventPoints(scores[1..], segments, contestantId, eventId)
  }

  lemma {:induction false} EventPointsAppend(scores: seq<Score>, x: Score, segments: seq<Segment>, c: int, e: int)
    ensures EventPoints(scores + [x], segments, c, e) == EventPoints(scores, segments, c, e) + Contribution(x, segments, c, e)
  {
    if scores == [] {
      assert [x][1..] == [];
    } else {
      assert (scores + [x])[1..] == scores[1..] + [x];
      EventPointsAppend(scores[1..], x, segments, c, e);
    }
  }

  lemma {:induction false} EventPointsUpdate(scores: seq<Score>, k: nat, x: Score, segments: seq<Segment>, c: int, e: int)
    requires k < |scores|
    ensures EventPoints(scores[k := x], segments, c, e) ==
            EventPoints(scores, segments, c, e) - Contribution(scores[k], segments, c, e) + Contribution(x, segments, c, e)
  {
    if k == 0 {
      assert scores[k := x][1..] == scores[1..];
    } else {
      assert scores[k := x][1..] == scores[1..][k - 1 := x];
      EventPointsUpdate(scores[1..], k - 1, x, segments, c, e);
    }
  }

  /**
   * How one recorded answer moves a live total: the contestant's total in the
   * round's event drops the old value of the key (if any) and gains the new
   * one; every other total is unchanged.
   */
  lemma UpsertMovesTotal(scores: seq<Score>, nextId: int, tabulatorId: int, key: ScoreKey, isCorrect: bool, points: real,
                         segments: seq<Segment>, c: int, e: int)
    ensures var before := EventPoints(scores, segments, c, e);
            var after := EventPoints(Upsert(scores, nextId, tabulatorId, key, isCorrect, points), segments, c, e);
            var was := match KeyIndex(scores, key) case Some(k) => scores[k].scoreValue case None => 0.0;
            if key.contestantId == c && RoundInEvent(segments, key.segmentId, e) then after == before - was + points
            else after == before
  {
    match KeyIndex(scores, key)
    case Some(k) =>
      EventPointsUpdate(scores, k, scores[k].(isCorrect := isCorrect, scoreValue := points, judgeId := tabulatorId), segments, c, e);
    case None =>
      EventPointsAppend(scores, Score(nextId, key.contestantId, key.segmentId, tabulatorId, key.questionNumber, isCorrect, points), segments, c, e);
  }

  datatype LiveScore = LiveScore(contestantId: int, name: string, totalScore: int)

  /** One live entry per contestant, in the given order, before sorting. */
  function Tally(cs: seq<Contestant>, scores: seq<Score>, segments: seq<Segment>, eventId: int): (r: seq<LiveScore>)
    ensures |r| == |cs|
  {
    seq(|cs|, i requires 0 <= i < |cs| =>
      LiveScore(cs[i].id, cs[i].name, Text.TruncToInt(EventPoints(scores, segments, cs[i].id, eventId))))
  }

  /** The sort key that puts the highest total first. */
  function NegTotal(s: LiveScore): int {
    -s.totalScore
  }

  /**
   * The live standings of an event: every contestant of the event (whatever
   * its status) with the whole-number total of its points in the event's
   * rounds, highest total first, ties in table order.
   */
  method GetLiveScores(db: Store, eventId: int) returns (results: seq<LiveScore>)
    ensures var cs := ContestantService.Matching(db.contestants, eventId, false);
            |results| == |cs| &&
            multiset(results) == multiset(Tally(cs, db.scores, db.segments, eventId))
    ensures forall i, j :: 0 <= i < j < |results| ==> results[i].totalScore >= results[j].totalScore
    ensures forall t :: (Sorting.WithKey(results, NegTotal, t) ==
              Sorting.WithKey(Tally(ContestantService.Matching(db.contestants, eventId, false), db.scores, db.segments, eventId),
                              NegTotal, t))
  {
    var contestants := ContestantService.Matching(db.contestants, eventId, false);
    results := [];
    var i := 0;
    while i < |contestants|
      invariant 0 <= i <= |contestants|
      invariant results == Tally(contestants[..i], db.scores, db.segments, eventId)
    {
      var c := contestants[i];
      var totalPoints := EventPoints(db.scores, db.segments, c.id, eventId);
      results := results + [LiveScore(c.id, c.name, Text.TruncToInt(totalPoints))];
      i := i + 1;
    }
    assert contestants[..i] == contestants;
    var unsorted := results;
    results := Sorting.SortBy(unsorted, NegTotal);
    forall t ensures Sorting.WithKey(results, NegTotal, t) == Sorting.WithKey(unsorted, NegTotal, t) {
      Sorting.SortByStable(unsorted, NegTotal, t);
    }
  }

}
