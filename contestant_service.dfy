/**
 * The contestant registry: insertion guarded by uniqueness of the candidate
 * number within an event and gender, the filtered and ordered listing, and
 * deletion by primary key.
 */
module ContestantService {
  import opened Wrappers
  import opened Models
  import Text
  import Sorting

  /** A contestant with this number already exists for this event and gender. */
  predicate NumberTaken(rows: seq<Contestant>, eventId: int, number: int, gender: string) {
    exists i :: 0 <= i < |rows| && rows[i].eventId == eventId && rows[i].candidateNumber == number &&
                rows[i].gender == gender
  }

  function DuplicateMessage(number: int, gender: string): string {
    "Candidate #" + Text.ShowInt(number) + " (" + gender + ") already exists."
  }

  /**
   * Adds a contestant unless the (event, number, gender) triple is taken.
   * A new contestant starts with status "Active".
   */
  method AddContestant(db: Store, eventId: int, number: int, name: string, gender: string, imagePath: Option<string>)
    returns (reply: Reply)
    requires db.Valid()
    modifies db`contestants, db`nextContestantId
    ensures db.Valid()
    ensures NumberTaken(old(db.contestants), eventId, number, gender) ==>
              reply == Reply(false, DuplicateMessage(number, gender)) && db.contestants == old(db.contestants)
    ensures !NumberTaken(old(db.contestants), eventId, number, gender) ==>
              reply == Reply(true, "Contestant added.") &&
              db.contestants == old(db.contestants) +
                [Contestant(old(db.nextContestantId), eventId, number, name, gender, imagePath, "Active")]
  {
    if NumberTaken(db.contestants, eventId, number, gender) {
      return Reply(false, DuplicateMessage(number, gender));
    }
    var c := Contestant(db.nextContestantId, eventId, number, name, gender, imagePath, "Active");
    db.contestants := db.contestants + [c];
    db.nextContestantId := db.nextContestantId + 1;
    reply := Reply(true, "Contestant added.");
  }

  /** Adding a contestant blocks its own triple and no other one. */
  lemma {:induction false} AddBlocksOnlyItsTriple(rows: seq<Contestant>, c: Contestant, eventId: int, number: int, gender: string)
    ensures NumberTaken(rows + [c], eventId, number, gender) <==>
            NumberTaken(rows, eventId, number, gender) ||
            (c.eventId == eventId && c.candidateNumber == number && c.gender == gender)
  {
    var r := rows + [c];
    if NumberTaken(r, eventId, number, gender) {
      var i :| 0 <= i < |r| && r[i].eventId == eventId && r[i].candidateNumber == number && r[i].gender == gender;
      if i < |rows| { assert rows[i] == r[i]; }
    }
    if NumberTaken(rows, eventId, number, gender) {
      var i :| 0 <= i < |rows| && rows[i].eventId == eventId && rows[i].candidateNumber == number && rows[i].gender == gender;
      assert r[i] == rows[i];
    }
    assert r[|rows|] == c;
  }

  /** Whether a row is selected by the event filter and, when asked, the 'Active' filter. */
  predicate Selected(c: Contestant, eventId: int, activeOnly: bool) {
    c.eventId == eventId && (!activeOnly || c.status == "Active")
  }

  /** The selected rows in table order. */
  function Matching(rows: seq<Contestant>, eventId: int, activeOnly: bool): (r: seq<Contestant>)
    ensures |r| <= |rows|
    ensures forall c :: c in r <==> c in rows && Selected(c, eventId, activeOnly)
  {
    if rows == [] then []
    else (if Selected(rows[0], eventId, activeOnly) then [rows[0]] else []) + Matching(rows[1..], eventId, activeOnly)
  }

  function CandidateNumber(c: Contestant): int {
    c.candidateNumber
  }

  /**
   * The event's contestants (only the 'Active' ones when `activeOnly`),
   * ordered by candidate number; rows with equal numbers keep table order.
   */
  function GetContestants(db: Store, eventId: int, activeOnly: bool): (r: seq<Contestant>)
    reads db
    ensures forall c :: c in r <==> c in db.contestants && c.eventId == eventId && (activeOnly ==> c.status == "Active")
    ensures forall i, j :: 0 <= i < j < |r| ==> r[i].candidateNumber <= r[j].candidateNumber
    ensures multiset(r) == multiset(Matching(db.contestants, eventId, activeOnly))
  {
    var m := Matching(db.contestants, eventId, activeOnly);
    var r := Sorting.SortBy(m, CandidateNumber);
    forall c ensures c in r <==> c in m {
      assert c in r <==> c in multiset(r);
      assert c in m <==> c in multiset(m);
    }
    r
  }

  /** The table with the row of primary key `id` removed. */
  function Without(rows: seq<Contestant>, id: int): (r: seq<Contestant>)
    ensures forall c :: c in r <==> c in rows && c.id != id
  {
    if rows == [] then []
    else (if rows[0].id == id then [] else [rows[0]]) + Without(rows[1..], id)
  }

  /** With unique ids, deleting an existing id removes exactly one row. */
  lemma {:induction false} WithoutRemovesOne(rows: seq<Contestant>, id: int)
    requires IdsUnique(Ids(rows, ContestantId))
    ensures |Without(rows, id)| == |rows| - (if exists i :: 0 <= i < |rows| && rows[i].id == id then 1 else 0)
  {
    if rows != [] {
      var ids := Ids(rows, ContestantId);
      assert Ids(rows[1..], ContestantId) == ids[1..];
      WithoutRemovesOne(rows[1..], id);
      if rows[0].id == id {
        assert forall i :: 1 <= i < |rows| ==> rows[i].id != id by {
          forall i | 1 <= i < |rows| ensures rows[i].id != id { assert ids[0] != ids[i]; }
        }
        assert !exists i :: 0 <= i < |rows[1..]| && rows[1..][i].id == id;
      } else {
        assert (exists i :: 0 <= i < |rows| && rows[i].id == id) <==>
               (exists i :: 0 <= i < |rows[1..]| && rows[1..][i].id == id);
      }
    }
  }

  /** Deletes the contestant with primary key `id`, or reports that there is none. */
  method DeleteContestant(db: Store, id: int) returns (reply: Reply)
    requires db.Valid()
    modifies db`contestants
    ensures db.Valid()
    ensures (exists i :: 0 <= i < |old(db.contestants)| && old(db.contestants)[i].id == id) ==>
              reply == Reply(true, "Deleted.") && db.contestants == Without(old(db.contestants), id)
    ensures !(exists i :: 0 <= i < |old(db.contestants)| && old(db.contestants)[i].id == id) ==>
              reply == Reply(false, "Not found.") && db.contestants == old(db.contestants)
  {
    if exists i :: 0 <= i < |db.contestants| && db.contestants[i].id == id {
      WithoutKeepsInvariants(db.contestants, id, db.nextContestantId);
      db.contestants := Without(db.contestants, id);
      reply := Reply(true, "Deleted.");
    } else {
      reply := Reply(false, "Not found.");
    }
  }

  /** Putting a row in front of rows it clashes with in no way keeps the table invariants. */
  lemma ConsKeepsInvariants(x: Contestant, t: seq<Contestant>, next: int)
    requires IdsUnique(Ids(t, ContestantId)) && IdsBelow(Ids(t, ContestantId), next) && CandidateNumbersUnique(t)
    requires x.id < next
    requires forall j :: 0 <= j < |t| ==> t[j].id != x.id
    requires forall j :: 0 <= j < |t| ==>
               !(t[j].eventId == x.eventId && t[j].candidateNumber == x.candidateNumber && t[j].gender == x.gender)
    ensures IdsUnique(Ids([x] + t, ContestantId)) && IdsBelow(Ids([x] + t, ContestantId), next)
    ensures CandidateNumbersUnique([x] + t)
  {
    var r := [x] + t;
    assert forall j :: 1 <= j < |r| ==> r[j] == t[j - 1];
    var ids, tids := Ids(r, ContestantId), Ids(t, ContestantId);
    forall i, j | 0 <= i < j < |r| ensures ids[i] != ids[j] {
      if i > 0 { assert tids[i - 1] != tids[j - 1]; }
    }
  }

  /** Removing rows keeps ids unique, below the counter, and candidate numbers unique. */
  lemma {:induction false} WithoutKeepsInvariants(rows: seq<Contestant>, id: int, next: int)
    requires IdsUnique(Ids(rows, ContestantId)) && IdsBelow(Ids(rows, ContestantId), next)
    requires CandidateNumbersUnique(rows)
    ensures IdsUnique(Ids(Without(rows, id), ContestantId)) && IdsBelow(Ids(Without(rows, id), ContestantId), next)
    ensures CandidateNumbersUnique(Without(rows, id))
  {
    if rows != [] {
      var ids := Ids(rows, ContestantId);
      assert Ids(rows[1..], ContestantId) == ids[1..];
      assert CandidateNumbersUnique(rows[1..]);
      WithoutKeepsInvariants(rows[1..], id, next);
      var t := Without(rows[1..], id);
      if rows[0].id != id {
        forall j | 0 <= j < |t| ensures t[j].id != rows[0].id && !(t[j].eventId == rows[0].eventId &&
            t[j].candidateNumber == rows[0].candidateNumber && t[j].gender == rows[0].gender) {
          assert t[j] in rows[1..];
          var k :| 1 <= k < |rows| && rows[k] == t[j];
          assert ids[0] != ids[k];
        }
        assert ids[0] < next;
        ConsKeepsInvariants(rows[0], t, next);
        assert Without(rows, id) == [rows[0]] + t;
      } else {
        assert Without(rows, id) == t;
      }
    }
  }
}
