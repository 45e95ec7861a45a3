/**
 * The public leaderboard: where the gallery's back button leads, which
 * scores the leaderboard of an event shows (overall standings, or the last
 * round when that round is a final or clincher, restricted to its allow-list
 * of contestants), and how a refresh lays the results out as ranked podium
 * cards and list rows. The scores come in already computed.
 */
module ViewerDashboard {
  import opened Wrappers
  import opened Models
  import Text
  import QuizService

  // ---------------------------------------------------------------
  // Gallery back button
  // ---------------------------------------------------------------

  /** Administrators go to the dashboard, judges and tabulators to their panels, anyone else to the login. */
  function GoBackRoute(role: Option<string>): (route: string)
    ensures route == "/admin" <==> role == Some("Admin") || role == Some("AdminViewer")
    ensures route == "/judge" <==> role == Some("Judge")
    ensures route == "/tabulator" <==> role == Some("Tabulator")
    ensures route == "/login" <==>
              !(role == Some("Admin") || role == Some("AdminViewer") || role == Some("Judge") || role == Some("Tabulator"))
  {
    if role == Some("Admin") || role == Some("AdminViewer") then "/admin"
    else if role == Some("Judge") then "/judge"
    else if role == Some("Tabulator") then "/tabulator"
    else "/login"
  }

  // ---------------------------------------------------------------
  // Which scores to show
  // ---------------------------------------------------------------

  /**
   * The event's segment with the highest order index; among equal indices
   * the one met first in the table.
   */
  function LastSegment(segs: seq<Segment>, eventId: int): (r: Option<Segment>)
    ensures r.None? <==> forall k :: 0 <= k < |segs| ==> segs[k].eventId != eventId
    ensures r.Some? ==> r.value in segs && r.value.eventId == eventId
    ensures r.Some? ==> forall k :: 0 <= k < |segs| && segs[k].eventId == eventId ==>
              segs[k].orderIndex <= r.value.orderIndex
  {
    if segs == [] then None
    else
      var prev := LastSegment(segs[..|segs| - 1], eventId);
      var last := segs[|segs| - 1];
      assert forall k :: 0 <= k < |segs| - 1 ==> segs[k] == segs[..|segs| - 1][k];
      if last.eventId == eventId && (prev.None? || last.orderIndex > prev.value.orderIndex) then Some(last)
      else prev
  }

  /** The leaderboard shows a single round when the last segment is final or is named as a final or clincher. */
  predicate IsRoundMode(last: Option<Segment>) {
    last.Some? &&
    (last.value.isFinal || Text.Contains(last.value.name, "Clincher") || Text.Contains(last.value.name, "Final"))
  }

  function ModeLabel(last: Option<Segment>): string {
    if IsRoundMode(last) then "ROUND: " + Text.Upper(last.value.name) else "OVERALL STANDINGS"
  }

  /** The label tells the two modes apart: only a round label starts with "ROUND: ". */
  lemma ModeLabelTellsMode(last: Option<Segment>)
    ensures |ModeLabel(last)| >= 7
    ensures ModeLabel(last)[..7] == "ROUND: " <==> IsRoundMode(last)
  {
    if IsRoundMode(last) {
      assert ("ROUND: " + Text.Upper(last.value.name))[..7] == "ROUND: ";
    } else {
      assert ModeLabel(last)[..7] == "OVERALL";
    }
  }

  /** Blank pieces are skipped; any other piece that is not an integer makes the whole list fail. */
  function ParsePieces(pieces: seq<string>): (r: Option<seq<int>>)
    ensures r.Some? ==> |r.value| <= |pieces|
  {
    if pieces == [] then Some([])
    else
      var rest := ParsePieces(pieces[1..]);
      if Text.Strip(pieces[0]) == [] then rest
      else
        match Text.ParseInt(pieces[0])
        case None => None
        case Some(n) => if rest.None? then None else Some([n] + rest.value)
  }

  /** A piece that is not blank and not an integer: `int()` raises on it. */
  predicate BadPiece(piece: string) {
    Text.Strip(piece) != [] && Text.ParseInt(piece).None?
  }

  /** Parsing fails exactly when some non-blank piece is not an integer. */
  lemma {:induction false} ParsePiecesFails(pieces: seq<string>)
    ensures ParsePieces(pieces).None? <==> exists k :: 0 <= k < |pieces| && BadPiece(pieces[k])
  {
    if pieces != [] {
      ParsePiecesFails(pieces[1..]);
      if BadPiece(pieces[0]) {
        BadHeadFails(pieces);
      } else {
        GoodHeadDefers(pieces);
        BadPieceShift(pieces);
      }
    }
  }

  lemma BadHeadFails(pieces: seq<string>)
    requires pieces != [] && BadPiece(pieces[0])
    ensures ParsePieces(pieces).None?
  {
  }

  lemma GoodHeadDefers(pieces: seq<string>)
    requires pieces != [] && !BadPiece(pieces[0])
    ensures ParsePieces(pieces).None? <==> ParsePieces(pieces[1..]).None?
  {
  }

  lemma BadPieceShift(pieces: seq<string>)
    requires pieces != [] && !BadPiece(pieces[0])
    ensures (exists k :: 0 <= k < |pieces| && BadPiece(pieces[k])) <==>
            (exists k :: 0 <= k < |pieces[1..]| && BadPiece(pieces[1..][k]))
  {
    var tl := pieces[1..];
    if exists k :: 0 <= k < |pieces| && BadPiece(pieces[k]) {
      var k :| 0 <= k < |pieces| && BadPiece(pieces[k]);
      assert k > 0 && tl[k - 1] == pieces[k];
    }
    if exists k :: 0 <= k < |tl| && BadPiece(tl[k]) {
      var k :| 0 <= k < |tl| && BadPiece(tl[k]);
      assert pieces[k + 1] == tl[k];
    }
  }

  /** The pieces that are not blank, in order: the ones the comprehension keeps. */
  function NonBlank(pieces: seq<string>): (r: seq<string>)
    ensures |r| <= |pieces|
    ensures forall k :: 0 <= k < |r| ==> Text.Strip(r[k]) != [] && r[k] in pieces
  {
    if pieces == [] then []
    else if Text.Strip(pieces[0]) == [] then NonBlank(pieces[1..])
    else [pieces[0]] + NonBlank(pieces[1..])
  }

  /** Parsing keeps exactly the non-blank pieces, each as its integer, in order. */
  lemma {:induction false} ParsePiecesValues(pieces: seq<string>)
    ensures ValuesOfNonBlank(pieces)
  {
    if pieces != [] {
      var head, tl := pieces[0], pieces[1..];
      assert pieces == [head] + tl;
      ParsePiecesValues(tl);
      if Text.Strip(head) == [] {
        ParsePiecesSkip(head, tl);
        assert NonBlank(pieces) == NonBlank(tl);
      } else {
        ValuesConsStep(head, tl);
      }
    }
  }

  /** A successful parse holds, in order, the integer of every non-blank piece and nothing else. */
  predicate ValuesOfNonBlank(pieces: seq<string>) {
    ParsePieces(pieces).Some? ==>
      |ParsePieces(pieces).value| == |NonBlank(pieces)| &&
      forall k :: 0 <= k < |NonBlank(pieces)| ==>
        Text.ParseInt(NonBlank(pieces)[k]) == Some(ParsePieces(pieces).value[k])
  }

  lemma ValuesConsStep(head: string, tl: seq<string>)
    requires Text.Strip(head) != [] && ValuesOfNonBlank(tl)
    ensures ValuesOfNonBlank([head] + tl)
  {
    if ParsePieces([head] + tl).Some? {
      ParsePiecesHead(head, tl);
      NonBlankCons(head, tl);
      PairwiseCons(Text.ParseInt, head, Text.ParseInt(head).value, NonBlank(tl), ParsePieces(tl).value);
    }
  }

  /** A non-blank piece in front is kept. */
  lemma NonBlankCons(head: string, tl: seq<string>)
    requires Text.Strip(head) != []
    ensures NonBlank([head] + tl) == [head] + NonBlank(tl)
  {
    assert ([head] + tl)[0] == head && ([head] + tl)[1..] == tl;
  }

  /** Prepending a piece and its integer keeps the two lists in step. */
  lemma PairwiseCons(parse: string -> Option<int>, h: string, n: int, texts: seq<string>, values: seq<int>)
    requires parse(h) == Some(n) && |texts| == |values|
    requires forall k :: 0 <= k < |texts| ==> parse(texts[k]) == Some(values[k])
    ensures forall k :: 0 <= k < |texts| + 1 ==> parse(([h] + texts)[k]) == Some(([n] + values)[k])
  {
    forall k | 0 <= k < |texts| + 1
      ensures parse(([h] + texts)[k]) == Some(([n] + values)[k])
    {
      if k > 0 {
        assert ([h] + texts)[k] == texts[k - 1] && ([n] + values)[k] == values[k - 1];
      }
    }
  }

  /** A successful parse with a non-blank piece in front starts with that piece's integer. */
  lemma ParsePiecesHead(head: string, tl: seq<string>)
    requires Text.Strip(head) != [] && ParsePieces([head] + tl).Some?
    ensures Text.ParseInt(head).Some? && ParsePieces(tl).Some?
    ensures ParsePieces([head] + tl).value == [Text.ParseInt(head).value] + ParsePieces(tl).value
  {
    assert ([head] + tl)[0] == head && ([head] + tl)[1..] == tl;
  }

  /** A blank piece in front is skipped. */
  lemma ParsePiecesSkip(head: string, tl: seq<string>)
    requires Text.Strip(head) == []
    ensures ParsePieces([head] + tl) == ParsePieces(tl)
  {
    assert ([head] + tl)[1..] == tl;
  }

  /** The comma-separated allow-list of a round; None is the case where `int()` raises. */
  function ParseAllowList(text: string): Option<seq<int>> {
    ParsePieces(Text.Split(text, ','))
  }

  /** Decimal ids joined with commas, as an allow-list is written. */
  function ShowIds(ids: seq<int>): (pieces: seq<string>)
    ensures |pieces| == |ids|
    ensures forall k :: 0 <= k < |ids| ==> pieces[k] == Text.ShowInt(ids[k])
  {
    seq(|ids|, k requires 0 <= k < |ids| => Text.ShowInt(ids[k]))
  }

  lemma ShowIntHasNoComma(n: int)
    ensures ',' !in Text.ShowInt(n)
    ensures Text.Strip(Text.ShowInt(n)) == Text.ShowInt(n) != []
  {
    Text.ShowIntPlain(n);
  }

  lemma ParseShownPieces(ids: seq<int>)
    ensures ParsePieces(ShowIds(ids)) == Some(ids)
  {
    var pieces := ShowIds(ids);
    forall k | 0 <= k < |ids|
      ensures Text.Strip(pieces[k]) != [] && Text.ParseInt(pieces[k]) == Some(ids[k])
    {
      ShowIntHasNoComma(ids[k]);
      Text.ParseShowInt(ids[k]);
    }
    ParseGoodPieces(pieces, ids);
  }

  /** Pieces that each read as an integer parse to the list of those integers. */
  lemma {:induction false} ParseGoodPieces(pieces: seq<string>, ids: seq<int>)
    requires |pieces| == |ids|
    requires forall k :: 0 <= k < |pieces| ==> Text.Strip(pieces[k]) != [] && Text.ParseInt(pieces[k]) == Some(ids[k])
    ensures ParsePieces(pieces) == Some(ids)
  {
    if pieces != [] {
      var tl, rest := pieces[1..], ids[1..];
      forall k | 0 <= k < |tl|
        ensures Text.Strip(tl[k]) != [] && Text.ParseInt(tl[k]) == Some(rest[k])
      {
        assert tl[k] == pieces[k + 1] && rest[k] == ids[k + 1];
      }
      ParseGoodPieces(tl, rest);
      ParsePiecesCons(pieces[0], tl, ids[0], rest);
      assert [pieces[0]] + tl == pieces && [ids[0]] + rest == ids;
    }
  }

  /** An integer piece in front adds its value in front. */
  lemma ParsePiecesCons(head: string, tl: seq<string>, n: int, rest: seq<int>)
    requires Text.ParseInt(head) == Some(n) && ParsePieces(tl) == Some(rest)
    ensures ParsePieces([head] + tl) == Some([n] + rest)
  {
    assert ([head] + tl)[1..] == tl;
  }

  /** Any non-empty list of ids written out with commas reads back as the same list. */
  lemma AllowListRoundTrip(ids: seq<int>)
    requires ids != []
    ensures ParseAllowList(Text.Join(ShowIds(ids), ',')) == Some(ids)
  {
    forall k | 0 <= k < |ids| { ShowIntHasNoComma(ids[k]); }
    Text.SplitJoin(ShowIds(ids), ',');
    ParseShownPieces(ids);
  }

  /** A list of commas and blanks parses to no ids at all, so it lets nobody through. */
  lemma BlankAllowListIsEmpty()
    ensures ParseAllowList(" , ") == Some([])
  {
    assert Text.Split(" , ", ',') == [" ", " "] by {
      assert " , "[1..] == ", ";
      assert ", "[1..] == " ";
      assert " "[1..] == [];
      assert Text.Split([], ',') == [[]];
      Text.SplitCons(" ", [], ',');
      assert " " + [] == " ";
      assert Text.Split(" ", ',') == [" "];
      assert Text.Split(", ", ',') == [[], " "];
    }
    assert Text.Strip(" ") == [] by { Text.StripEmptyIffBlank(" "); }
    assert [" ", " "][1..] == [" "];
  }

  /** The scores of the listed contestants, in their original order. */
  function Allowed(scores: seq<QuizService.LiveScore>, ids: seq<int>): (r: seq<QuizService.LiveScore>)
    ensures forall x :: x in r <==> x in scores && x.contestantId in ids
    ensures |r| <= |scores|
  {
    if scores == [] then []
    else
      var rest := Allowed(scores[1..], ids);
      assert forall x :: x in scores <==> x == scores[0] || x in scores[1..];
      if scores[0].contestantId in ids then [scores[0]] + rest else rest
  }

  /** Filtering distributes over concatenation, so it keeps the relative order of what it keeps. */
  lemma {:induction false} AllowedAppend(a: seq<QuizService.LiveScore>, b: seq<QuizService.LiveScore>, ids: seq<int>)
    ensures Allowed(a + b, ids) == Allowed(a, ids) + Allowed(b, ids)
  {
    if a != [] {
      var ab := a + b;
      assert ab[0] == a[0] && ab[1..] == a[1..] + b;
      AllowedAppend(a[1..], b, ids);
      var keep := if a[0].contestantId in ids then [a[0]] else [];
      assert Allowed(ab, ids) == keep + Allowed(a[1..] + b, ids);
      assert Allowed(a, ids) == keep + Allowed(a[1..], ids);
    } else {
      assert a + b == b;
    }
  }

  /** A list that admits every contestant on the board changes nothing. */
  lemma {:induction false} AllowedEveryone(scores: seq<QuizService.LiveScore>, ids: seq<int>)
    requires forall k :: 0 <= k < |scores| ==> scores[k].contestantId in ids
    ensures Allowed(scores, ids) == scores
  {
    if scores != [] {
      AllowedEveryone(scores[1..], ids);
    }
  }

  /** The scores on the board and the label saying which mode they are in. */
  datatype Board = Board(scores: seq<QuizService.LiveScore>, mode: string)

  /**
   * The choice of scores: the overall standings, or the last round's scores,
   * filtered by its allow-list when that list is non-empty text. None is the
   * case where a piece of the list is not an integer.
   */
  function FinalScores(segs: seq<Segment>, eventId: int, overall: seq<QuizService.LiveScore>,
                       roundScores: seq<QuizService.LiveScore>): (r: Option<Board>)
    ensures var last := LastSegment(segs, eventId);
            !IsRoundMode(last) ==> r == Some(Board(overall, "OVERALL STANDINGS"))
    ensures var last := LastSegment(segs, eventId);
            IsRoundMode(last) && (last.value.participatingIds.None? || last.value.participatingIds.value == []) ==>
              r == Some(Board(roundScores, "ROUND: " + Text.Upper(last.value.name)))
    ensures var last := LastSegment(segs, eventId);
            IsRoundMode(last) && last.value.participatingIds.Some? && last.value.participatingIds.value != [] ==>
              (r.None? <==> ParseAllowList(last.value.participatingIds.value).None?) &&
              (r.Some? ==>
                 r.value == Board(Allowed(roundScores, ParseAllowList(last.value.participatingIds.value).value),
                                  "ROUND: " + Text.Upper(last.value.name)))
  {
    var last := LastSegment(segs, eventId);
    var mode := ModeLabel(last);
    if IsRoundMode(last) then
      if last.value.participatingIds.Some? && last.value.participatingIds.value != [] then
        match ParseAllowList(last.value.participatingIds.value)
        case None => None
        case Some(ids) => Some(Board(Allowed(roundScores, ids), mode))
      else Some(Board(roundScores, mode))
    else Some(Board(overall, mode))
  }

  // ---------------------------------------------------------------
  // Laying out the board
  // ---------------------------------------------------------------

  /** One ranked entry, on the podium or in the list below it. */
  datatype Card = Card(rank: int, name: string, score: int)

  datatype ListItem = NoScores | Ranked(card: Card)

  const NoScoresText := "No scores available yet."

  function CardAt(results: seq<QuizService.LiveScore>, p: nat): Card
    requires p < |results|
  {
    Card(p + 1, results[p].name, results[p].totalScore)
  }

  /** The podium, left to right: second, first, third, as far as there are results. */
  function Podium(results: seq<QuizService.LiveScore>): seq<Card> {
    (if |results| >= 2 then [CardAt(results, 1)] else []) +
    (if |results| >= 1 then [CardAt(results, 0)] else []) +
    (if |results| >= 3 then [CardAt(results, 2)] else [])
  }

  /** The rows below the podium: the i-th of the rest is ranked i + 4. */
  function Rows(results: seq<QuizService.LiveScore>): seq<Card> {
    if |results| <= 3 then []
    else seq(|results| - 3, i requires 0 <= i < |results| - 3 => Card(i + 4, results[i + 3].name, results[i + 3].totalScore))
  }

  /**
   * Every result is shown exactly once, carrying rank position + 1; ranks
   * are distinct even where scores are equal.
   */
  lemma EveryResultRankedOnce(results: seq<QuizService.LiveScore>)
    ensures |Podium(results) + Rows(results)| == |results|
    ensures forall p :: 0 <= p < |results| ==> CardAt(results, p) in Podium(results) + Rows(results)
    ensures forall c :: c in Podium(results) + Rows(results) ==>
              1 <= c.rank <= |results| && c == CardAt(results, c.rank - 1)
  {
    PodiumCards(results);
    RowCards(results);
    var shown := Podium(results) + Rows(results);
    forall p | 0 <= p < |results|
      ensures CardAt(results, p) in shown
    {
      if p >= 3 {
        assert Rows(results)[p - 3] == CardAt(results, p);
        assert CardAt(results, p) in Rows(results);
      } else {
        assert CardAt(results, p) in Podium(results);
      }
    }
  }

  /** The podium holds exactly the first three results, each at its own rank. */
  lemma PodiumCards(results: seq<QuizService.LiveScore>)
    ensures |Podium(results)| == if |results| < 3 then |results| else 3
    ensures forall p :: 0 <= p < |results| && p < 3 ==> CardAt(results, p) in Podium(results)
    ensures forall c :: c in Podium(results) ==> 1 <= c.rank <= |results| && c.rank <= 3 && c == CardAt(results, c.rank - 1)
  {
  }

  /** The rows hold exactly the results from the fourth on, each at its own rank. */
  lemma RowCards(results: seq<QuizService.LiveScore>)
    ensures |Rows(results)| == if |results| <= 3 then 0 else |results| - 3
    ensures forall i :: 0 <= i < |Rows(results)| ==> Rows(results)[i] == CardAt(results, i + 3)
    ensures forall c :: c in Rows(results) ==> 4 <= c.rank <= |results| && c == CardAt(results, c.rank - 1)
  {
  }

  /** Distinct displayed entries have distinct ranks. */
  lemma RanksDistinct(results: seq<QuizService.LiveScore>)
    ensures forall i, j :: 0 <= i < j < |Podium(results) + Rows(results)| ==>
              (Podium(results) + Rows(results))[i].rank != (Podium(results) + Rows(results))[j].rank
  {
    var shown := Podium(results) + Rows(results);
    var pod := Podium(results);
    forall i, j | 0 <= i < j < |shown|
      ensures shown[i].rank != shown[j].rank
    {
      if j < |pod| {
      } else if i < |pod| {
        assert shown[i].rank <= 3;
        assert shown[j] == Rows(results)[j - |pod|];
      } else {
        assert shown[i] == Rows(results)[i - |pod|];
        assert shown[j] == Rows(results)[j - |pod|];
      }
    }
  }

  /** The event's title, or a placeholder when the event does not exist. */
  function TitleFor(event: Option<Event>): string {
    if event.Some? then event.value.name else "Event Not Found"
  }

  /** The leaderboard screen: its texts, podium and list, and whether polling goes on. */
  class LeaderboardScreen {
    var title: string
    var status: string
    var podium: seq<Card>
    var listing: seq<ListItem>
    var isActive: bool

    constructor()
      ensures title == "Loading..." && status == "Waiting for updates..."
      ensures podium == [] && listing == [] && isActive
    {
      title := "Loading...";
      status := "Waiting for updates...";
      podium := [];
      listing := [];
      isActive := true;
    }

    /**
     * One refresh. The title is set first; when choosing the scores failed
     * (None) nothing else changes. Otherwise the status names the mode, an
     * empty board shows only the no-scores notice, and a non-empty one the
     * podium and the ranked rows.
     */
    method Refresh(event: Option<Event>, board: Option<Board>)
      modifies this`title, this`status, this`podium, this`listing
      ensures title == TitleFor(event)
      ensures board.None? ==> status == old(status) && podium == old(podium) && listing == old(listing)
      ensures board.Some? ==> status == board.value.mode + " • Live Updates"
      ensures board.Some? && board.value.scores == [] ==> podium == [] && listing == [NoScores]
      ensures board.Some? && board.value.scores != [] ==>
                podium == Podium(board.value.scores) &&
                listing == seq(|Rows(board.value.scores)|, i requires 0 <= i < |Rows(board.value.scores)| =>
                             Ranked(Rows(board.value.scores)[i]))
    {
      title := TitleFor(event);
      if board.None? {
        return;
      }
      var results := board.value.scores;
      status := board.value.mode + " • Live Updates";
      podium := [];
      listing := [];
      if results == [] {
        listing := listing + [NoScores];
        return;
      }
      if |results| >= 2 {
        podium := podium + [Card(2, results[1].name, results[1].totalScore)];
      }
      podium := podium + [Card(1, results[0].name, results[0].totalScore)];
      if |results| >= 3 {
        podium := podium + [Card(3, results[2].name, results[2].totalScore)];
      }
      assert podium == Podium(results);
      var others := if |results| > 3 then results[3..] else [];
      var i := 0;
      while i < |others|
        invariant 0 <= i <= |others|
        invariant title == TitleFor(event) && status == board.value.mode + " • Live Updates"
        invariant podium == Podium(results)
        invariant |others| == |Rows(results)|
        invariant listing == seq(i, k requires 0 <= k < i => Ranked(Rows(results)[k]))
      {
        listing := listing + [Ranked(Card(i + 4, others[i].name, others[i].totalScore))];
        i := i + 1;
      }
    }

    /** Leaving the leaderboard stops the polling and returns to the gallery. */
    method GoBack() returns (route: string)
      modifies this`isActive
      ensures !isActive && route == "/leaderboard"
    {
      isActive := false;
      route := "/leaderboard";
    }
  }
}
