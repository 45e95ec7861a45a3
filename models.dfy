/**
 * The persistent entities of the system and an in-memory store holding one
 * table per entity. The store stands in for the relational database: each
 * table is a sequence in insertion order (the order an unordered query
 * returns rows in), and each table has its own auto-increment counter.
 */
module Models {
  import opened Wrappers

  datatype User = User(id: int, name: string, username: string, passwordHash: string, role: string, isActive: bool)

  datatype Event = Event(id: int, name: string, eventType: string, status: string)

  /**
   * A pageant segment or a quiz round. `participatingIds` is the optional
   * comma-separated allow-list of contestant ids of a clincher or final round.
   */
  datatype Segment = Segment(
    id: int, eventId: int, name: string, orderIndex: int,
    percentageWeight: real, isActive: bool, isFinal: bool, qualifierLimit: int,
    pointsPerQuestion: real, totalQuestions: int, participatingIds: Option<string>)

  datatype Contestant = Contestant(
    id: int, eventId: int, candidateNumber: int, name: string, gender: string,
    imagePath: Option<string>, status: string)

  /** A quiz score row: one answer of one contestant to one question of one round. */
  datatype Score = Score(
    id: int, contestantId: int, segmentId: int, judgeId: int,
    questionNumber: int, isCorrect: bool, scoreValue: real)

  /** The natural key of a quiz score row. */
  datatype ScoreKey = ScoreKey(contestantId: int, segmentId: int, questionNumber: int)

  function KeyOf(s: Score): ScoreKey {
    ScoreKey(s.contestantId, s.segmentId, s.questionNumber)
  }

  /** No two score rows share a (contestant, round, question) key. */
  predicate ScoreKeysUnique(scores: seq<Score>) {
    forall i, j :: 0 <= i < j < |scores| ==> KeyOf(scores[i]) != KeyOf(scores[j])
  }

  /** No two contestants of one event share a candidate number within a gender. */
  predicate CandidateNumbersUnique(rows: seq<Contestant>) {
    forall i, j :: 0 <= i < j < |rows| ==>
      !(rows[i].eventId == rows[j].eventId && rows[i].candidateNumber == rows[j].candidateNumber &&
        rows[i].gender == rows[j].gender)
  }

  predicate UsernamesUnique(users: seq<User>) {
    forall i, j :: 0 <= i < j < |users| ==> users[i].username != users[j].username
  }

  /** Every row id is below the table's next auto-increment value, hence distinct from it. */
  predicate IdsBelow(ids: seq<int>, next: int) {
    forall i :: 0 <= i < |ids| ==> ids[i] < next
  }

  predicate IdsUnique(ids: seq<int>) {
    forall i, j :: 0 <= i < j < |ids| ==> ids[i] != ids[j]
  }

  /** The primary keys of a table's rows, in table order. */
  function Ids<T>(rows: seq<T>, key: T -> int): (r: seq<int>)
    ensures |r| == |rows| && forall i :: 0 <= i < |rows| ==> r[i] == key(rows[i])
  {
    seq(|rows|, i requires 0 <= i < |rows| => key(rows[i]))
  }

  function UserId(u: User): int { u.id }
  function EventId(e: Event): int { e.id }
  function SegmentId(s: Segment): int { s.id }
  function ContestantId(c: Contestant): int { c.id }
  function ScoreId(s: Score): int { s.id }

  /** `db.query(Segment).get(id)`: the segment with primary key `id`, if any. */
  function FindSegment(segments: seq<Segment>, id: int): (r: Option<Segment>)
    ensures r.Some? <==> exists i :: 0 <= i < |segments| && segments[i].id == id
    ensures r.Some? ==> r.value in segments && r.value.id == id
  {
    if segments == [] then None
    else if segments[0].id == id then Some(segments[0])
    else FindSegment(segments[1..], id)
  }

  /** The database: one table per entity and one auto-increment counter per table. */
  class Store {
    var users: seq<User>
    var events: seq<Event>
    var segments: seq<Segment>
    var contestants: seq<Contestant>
    var scores: seq<Score>
    var nextUserId: int
    var nextEventId: int
    var nextSegmentId: int
    var nextContestantId: int
    var nextScoreId: int

    /** Primary keys are unique and the uniqueness rules the services enforce hold. */
    ghost predicate Valid()
      reads this
    {
      && IdsUnique(Ids(users, UserId)) && IdsBelow(Ids(users, UserId), nextUserId)
      && IdsUnique(Ids(events, EventId)) && IdsBelow(Ids(events, EventId), nextEventId)
      && IdsUnique(Ids(segments, SegmentId)) && IdsBelow(Ids(segments, SegmentId), nextSegmentId)
      && IdsUnique(Ids(contestants, ContestantId)) && IdsBelow(Ids(contestants, ContestantId), nextContestantId)
      && IdsUnique(Ids(scores, ScoreId)) && IdsBelow(Ids(scores, ScoreId), nextScoreId)
      && UsernamesUnique(users)
      && CandidateNumbersUnique(contestants)
      && ScoreKeysUnique(scores)
    }

    /** An empty database; auto-increment keys start at 1. */
    constructor ()
      ensures Valid()
      ensures users == [] && events == [] && segments == [] && contestants == [] && scores == []
    {
      users, events, segments, contestants, scores := [], [], [], [], [];
      nextUserId, nextEventId, nextSegmentId, nextContestantId, nextScoreId := 1, 1, 1, 1, 1;
    }
  }
}
