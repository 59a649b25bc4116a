/** The pages TopN cuts out of a board (server/storage/storage.go). */
module LeaderboardPages {
  import opened FiniteSets
  import opened Leaderboard

  datatype Entry = Entry(rank: int, row: Row)

  function Max(a: int, b: int): int { if a > b then a else b }

  function Clamp(n: int, len: nat): nat { if n <= 0 then 0 else if n < len then n else len }

  /** The whole board with its ranks. */
  function Ranked(board: seq<Row>): (r: seq<Entry>)
    ensures |r| == |board|
  {
    seq(|board|, i requires 0 <= i < |board| => Entry(i + 1, board[i]))
  }

  /** A page as a part of the ranked board: LIMIT and OFFSET in terms of the two ranks asked for. */
  function PageOf(board: seq<Row>, minRank: int, maxRank: int): seq<Entry> {
    var from := Max(minRank - 1, 0);
    var upto := from + Max(maxRank - from, 1);
    Ranked(board)[Clamp(from, |board|)..Clamp(upto, |board|)]
  }

  method TopN(board: seq<Row>, minRank: int, maxRank: int) returns (entries: seq<Entry>)
    ensures entries == PageOf(board, minRank, maxRank)
  {
    var offset := Max(minRank - 1, 0);
    var limit := Max(maxRank - offset, 1);
    var lo, hi := Clamp(offset, |board|), Clamp(offset + limit, |board|);
    var rows := board[lo..hi];
    entries := [];
    for i := 0 to |rows|
      invariant |entries| == i && forall j :: 0 <= j < i ==> entries[j] == Entry(offset + j + 1, rows[j])
    {
      entries := entries + [Entry(offset + i + 1, rows[i])];
    }
    assert |rows| > 0 ==> lo == offset;
  }

  /** The entry is the board's row at its rank, and that rank was asked for. */
  predicate AskedFor(board: seq<Row>, minRank: int, maxRank: int, e: Entry) {
    minRank <= e.rank <= maxRank && 1 <= e.rank <= |board| && e.row == board[e.rank - 1]
  }

  /** A page never leaves out what was asked for, and is part of the board. */
  lemma PageMembers(board: seq<Row>, minRank: int, maxRank: int, e: Entry)
    ensures var from := Max(minRank, 1);
      e in PageOf(board, minRank, maxRank) <==> AskedFor(board, from, Max(maxRank, from), e)
  {
    var from := Max(minRank, 1);
    if AskedFor(board, from, Max(maxRank, from), e) {
      assert PageOf(board, minRank, maxRank)[e.rank - from] == e;
    }
  }

  /**
   For all boards and all integers: a page holds exactly the ranks asked for unless the range,
   once its lower end is clamped to rank one, is empty and starts on the board.
   */
  lemma PageHoldsRangeIff(board: seq<Row>, minRank: int, maxRank: int)
    ensures (forall e :: e in PageOf(board, minRank, maxRank) <==> AskedFor(board, minRank, maxRank, e))
        <==> Max(minRank, 1) <= maxRank || Max(minRank, 1) > |board|
  {
    hide PageOf;
    var from := Max(minRank, 1);
    forall e ensures e in PageOf(board, minRank, maxRank) <==> AskedFor(board, from, Max(maxRank, from), e) {
      PageMembers(board, minRank, maxRank, e);
    }
    if maxRank < from <= |board| {
      var e := Entry(from, board[from - 1]);
      assert AskedFor(board, from, from, e) && !AskedFor(board, minRank, maxRank, e);
      assert e in PageOf(board, minRank, maxRank);
    } else {
      assert forall e :: AskedFor(board, from, Max(maxRank, from), e) <==> AskedFor(board, minRank, maxRank, e);
    }
  }

  /** For a range the right way round, a page holds exactly the ranks of the range that the board has. */
  lemma PageHoldsRange(board: seq<Row>, minRank: int, maxRank: int, e: Entry)
    requires Max(minRank, 1) <= maxRank
    ensures e in PageOf(board, minRank, maxRank) <==> AskedFor(board, minRank, maxRank, e)
  {
    PageMembers(board, minRank, maxRank, e);
  }

  /** An empty range on the board gives one row: the one at its lower end, which is clamped to rank one. */
  lemma EmptyRangeGivesOneRow(board: seq<Row>, minRank: int, maxRank: int)
    requires maxRank < Max(minRank, 1) <= |board|
    ensures PageOf(board, minRank, maxRank) == [Entry(Max(minRank, 1), board[Max(minRank, 1) - 1])]
  {
  }

  ghost predicate Cuts(cuts: seq<nat>) {
    cuts != [] && cuts[0] == 0 && forall i :: 0 <= i < |cuts| - 1 ==> cuts[i] < cuts[i + 1]
  }

  function Pages(board: seq<Row>, cuts: seq<nat>, k: nat): seq<Entry>
    requires k < |cuts|
  {
    if k == 0 then [] else Pages(board, cuts, k - 1) + PageOf(board, cuts[k - 1] + 1, cuts[k])
  }

  /** Consecutive pages, of whatever sizes, put together give the board: no rank twice, none missing. */
  lemma {:induction false} PagesTile(board: seq<Row>, cuts: seq<nat>, k: nat)
    requires Cuts(cuts) && k < |cuts|
    ensures Pages(board, cuts, k) == Ranked(board)[..Clamp(cuts[k], |board|)]
  {
    if k == 0 {
    } else {
      PagesTile(board, cuts, k - 1);
      var a, b := Clamp(cuts[k - 1], |board|), Clamp(cuts[k], |board|);
      assert cuts[k - 1] < cuts[k];
      assert PageOf(board, cuts[k - 1] + 1, cuts[k]) == Ranked(board)[a..b];
      assert Ranked(board)[..a] + Ranked(board)[a..b] == Ranked(board)[..b];
    }
  }

  // ----- Pages from queries that order ties differently -----

  /** How many rows are at most v. */
  function CutOf(board: seq<Row>, v: real): (m: nat)
    requires Sorted(board)
    ensures CutsAt(board, v, m)
  {
    if board == [] then 0
    else
      var last := |board| - 1;
      if board[last].value <= v then |board| else CutOf(board[..last], v)
  }

  /** A cut at a value takes the same owners from every board. */
  lemma CutsAgree(rows: set<Row>, a: seq<Row>, b: seq<Row>, v: real)
    requires IsBoard(rows, a) && IsBoard(rows, b)
    ensures CutOf(a, v) == CutOf(b, v) && PrefixOwners(a, CutOf(a, v)) == PrefixOwners(b, CutOf(b, v))
  {
    hide CutOf, PrefixOwners, IsBest, OnBoard;
    FilterPushDown(rows, a, v, CutOf(a, v));
    FilterPushDown(rows, b, v, CutOf(b, v));
    PrefixOwnersCount(a, CutOf(a, v));
    PrefixOwnersCount(b, CutOf(b, v));
  }

  lemma NoLonger(rows: set<Row>, a: seq<Row>, b: seq<Row>, i: nat)
    requires IsBoard(rows, a) && IsBoard(rows, b) && i < |a|
    ensures i < |b| && b[i].value <= a[i].value
  {
    hide CutOf, IsBest, OnBoard, OneRowEach;
    CutsAgree(rows, a, b, a[i].value);
    assert i < CutOf(a, a[i].value);
  }

  /** Two boards of the same candidates have the same length and the same value at every position. */
  lemma BoardsAgree(rows: set<Row>, a: seq<Row>, b: seq<Row>)
    requires IsBoard(rows, a) && IsBoard(rows, b)
    ensures |a| == |b| && forall i :: 0 <= i < |a| ==> a[i].value == b[i].value
  {
    hide IsBoard;
    if |a| > 0 {
      NoLonger(rows, a, b, |a| - 1);
    }
    if |b| > 0 {
      NoLonger(rows, b, a, |b| - 1);
    }
    forall i | 0 <= i < |a| ensures a[i].value == b[i].value {
      NoLonger(rows, a, b, i);
      NoLonger(rows, b, a, i);
    }
  }

  predicate NoTieCrosses(board: seq<Row>, c: nat) {
    0 < c < |board| ==> board[c - 1].value < board[c].value
  }

  /** The rows up to c of one board, and the later ones of another. */
  function Spliced(a: seq<Row>, b: seq<Row>, c: nat): seq<Row>
    requires |a| == |b|
  {
    if c < |a| then a[..c] + b[c..] else a
  }

  lemma SpliceKeepsOwners(rows: set<Row>, a: seq<Row>, b: seq<Row>, c: nat)
    requires IsBoard(rows, a) && IsBoard(rows, b) && |a| == |b| && 0 < c < |a| && NoTieCrosses(a, c)
    ensures PrefixOwners(a, c) == PrefixOwners(b, c)
  {
    hide CutOf, PrefixOwners, IsBest, OnBoard, OneRowEach;
    CutsAgree(rows, a, b, a[c - 1].value);
    assert CutOf(a, a[c - 1].value) == c;
  }

  /** Where no tie crosses the cut, the front of one board and the back of another make a board. */
  lemma SpliceIsBoard(rows: set<Row>, a: seq<Row>, b: seq<Row>, c: nat)
    requires IsBoard(rows, a) && IsBoard(rows, b) && NoTieCrosses(a, c)
    ensures |a| == |b| && IsBoard(rows, Spliced(a, b, c))
  {
    hide IsBest, OnBoard, OneRowEach, Sorted, PrefixOwners, Spliced;
    BoardsAgree(rows, a, b);
    if 0 < c < |a| {
      SpliceKeepsOwners(rows, a, b, c);
      SpliceHasAll(rows, a, b, c);
      SpliceOneEach(a, b, c);
      SpliceSorted(a, b, c);
      SpliceAreBest(rows, a, b, c);
    } else {
      SpliceOfAll(a, b, c);
    }
  }

  lemma SpliceOfAll(a: seq<Row>, b: seq<Row>, c: nat)
    requires |a| == |b| && (c == 0 || |a| <= c)
    ensures Spliced(a, b, c) == if c < |a| then b else a
  {
  }

  lemma SpliceAreBest(rows: set<Row>, a: seq<Row>, b: seq<Row>, c: nat)
    requires |a| == |b| && 0 < c < |a|
    requires forall i :: 0 <= i < |a| ==> IsBest(rows, a[i]) && IsBest(rows, b[i])
    ensures forall i :: 0 <= i < |Spliced(a, b, c)| ==> IsBest(rows, Spliced(a, b, c)[i])
  {
    hide IsBest;
    assert forall i :: 0 <= i < |a| ==> Spliced(a, b, c)[i] == if i < c then a[i] else b[i];
  }

  lemma SpliceHasAll(rows: set<Row>, a: seq<Row>, b: seq<Row>, c: nat)
    requires |a| == |b| && 0 < c < |a| && PrefixOwners(a, c) == PrefixOwners(b, c)
    requires forall r :: r in rows ==> OnBoard(b, r.owner)
    ensures forall r :: r in rows ==> OnBoard(Spliced(a, b, c), r.owner)
  {
    var s := Spliced(a, b, c);
    forall r | r in rows ensures OnBoard(s, r.owner) {
      var i :| 0 <= i < |b| && b[i].owner == r.owner;
      if i < c {
        assert r.owner in PrefixOwners(b, c);
        var j :| 0 <= j < c && a[j].owner == r.owner;
        assert s[j].owner == r.owner;
      } else {
        assert s[i].owner == r.owner;
      }
    }
  }

  lemma SpliceOneEach(a: seq<Row>, b: seq<Row>, c: nat)
    requires |a| == |b| && 0 < c < |a| && PrefixOwners(a, c) == PrefixOwners(b, c) && OneRowEach(a) && OneRowEach(b)
    ensures OneRowEach(Spliced(a, b, c))
  {
    var s := Spliced(a, b, c);
    forall i, j | 0 <= i < j < |s| ensures s[i].owner != s[j].owner {
      if i < c <= j {
        assert a[i].owner in PrefixOwners(a, c);
        var k :| 0 <= k < c && b[k].owner == a[i].owner;
        assert b[k].owner != b[j].owner;
      }
    }
  }

  lemma SpliceSorted(a: seq<Row>, b: seq<Row>, c: nat)
    requires |a| == |b| && 0 < c < |a| && Sorted(a) && Sorted(b) && forall i :: 0 <= i < |a| ==> a[i].value == b[i].value
    ensures Sorted(Spliced(a, b, c))
  {
    assert forall i :: 0 <= i < |a| ==> Spliced(a, b, c)[i].value == a[i].value;
  }

  /** The board with the rows around c exchanged. */
  function Exchanged(board: seq<Row>, c: nat): (r: seq<Row>)
    requires 0 < c < |board|
  {
    board[c - 1 := board[c]][c := board[c - 1]]
  }

  lemma ExchangedIsBoard(rows: set<Row>, board: seq<Row>, c: nat)
    requires IsBoard(rows, board) && 0 < c < |board| && board[c - 1].value == board[c].value
    ensures IsBoard(rows, Exchanged(board, c))
  {
    hide IsBest, OnBoard, Exchanged;
    ExchangedRows(board, c);
    forall r | r in rows ensures OnBoard(Exchanged(board, c), r.owner) {
      ExchangedHas(board, c, r.owner);
    }
  }

  lemma ExchangedRows(board: seq<Row>, c: nat)
    requires 0 < c < |board|
    ensures var x := Exchanged(board, c);
      |x| == |board| && forall i :: 0 <= i < |x| ==> x[i] == board[if i == c then c - 1 else if i == c - 1 then c else i]
  {
  }

  lemma ExchangedHas(board: seq<Row>, c: nat, owner: int)
    requires 0 < c < |board|
    ensures OnBoard(board, owner) ==> OnBoard(Exchanged(board, c), owner)
  {
    if i :| 0 <= i < |board| && board[i].owner == owner {
      assert Exchanged(board, c)[if i == c then c - 1 else if i == c - 1 then c else i].owner == owner;
    }
  }

  /** Two pages may come from any two boards and still fit together exactly when no tie crosses the cut between them. */
  lemma CutIsSafeIff(rows: set<Row>, board: seq<Row>, c: nat)
    requires IsBoard(rows, board) && 0 < c < |board|
    ensures (forall b :: IsBoard(rows, b) && |b| == |board| ==> IsBoard(rows, Spliced(board, b, c))) <==> NoTieCrosses(board, c)
  {
    hide IsBoard;
    if NoTieCrosses(board, c) {
      forall b | IsBoard(rows, b) ensures |b| == |board| ==> IsBoard(rows, Spliced(board, b, c)) {
        SpliceIsBoard(rows, board, b, c);
      }
    } else {
      BoardIsSorted(rows, board, c);
      ExchangedIsBoard(rows, board, c);
      RepeatsOwner(rows, board, c);
    }
  }

  lemma BoardIsSorted(rows: set<Row>, board: seq<Row>, c: nat)
    requires IsBoard(rows, board) && 0 < c < |board|
    ensures board[c - 1].value <= board[c].value
  {
  }

  lemma RepeatsOwner(rows: set<Row>, board: seq<Row>, c: nat)
    requires 0 < c < |board|
    ensures !IsBoard(rows, Spliced(board, Exchanged(board, c), c))
  {
    var s := Spliced(board, Exchanged(board, c), c);
    assert s[c - 1].owner == s[c].owner;
  }

  /** Consecutive pages, each cut from its own board. */
  function MixedPages(boards: seq<seq<Row>>, cuts: seq<nat>, k: nat): seq<Entry>
    requires k < |cuts| && k <= |boards|
  {
    if k == 0 then [] else MixedPages(boards, cuts, k - 1) + PageOf(boards[k - 1], cuts[k - 1] + 1, cuts[k])
  }

  /** Where no tie crosses a cut, pages of different queries are together the front of one board: each owner once. */
  lemma {:induction false} MixedPagesTile(rows: set<Row>, boards: seq<seq<Row>>, cuts: seq<nat>, k: nat) returns (board: seq<Row>)
    requires Cuts(cuts) && 0 < k < |cuts| && k <= |boards| && forall j :: 0 <= j < k ==> IsBoard(rows, boards[j])
    requires forall j :: 0 < j < k ==> NoTieCrosses(boards[0], cuts[j])
    ensures IsBoard(rows, board) && MixedPages(boards, cuts, k) == Ranked(board)[..Clamp(cuts[k], |board|)]
  {
    hide IsBoard, Ranked;
    var b := boards[k - 1];
    PageOfRange(b, cuts[k - 1], cuts[k]);
    if k == 1 {
      board := b;
      assert MixedPages(boards, cuts, 0) == [];
      assert Ranked(b)[0..Clamp(cuts[1], |b|)] == Ranked(b)[..Clamp(cuts[1], |b|)];
    } else {
      var front := MixedPagesTile(rows, boards, cuts, k - 1);
      BoardsAgree(rows, front, boards[0]);
      SpliceIsBoard(rows, front, b, cuts[k - 1]);
      board := Spliced(front, b, cuts[k - 1]);
      SplicedPages(front, b, cuts[k - 1], cuts[k]);
    }
  }

  lemma PageOfRange(board: seq<Row>, c: nat, d: nat)
    requires c < d
    ensures PageOf(board, c + 1, d) == Ranked(board)[Clamp(c, |board|)..Clamp(d, |board|)]
  {
  }

  lemma SplicedPages(a: seq<Row>, b: seq<Row>, c: nat, d: nat)
    requires |a| == |b| && c < d
    ensures Ranked(a)[..Clamp(c, |a|)] + Ranked(b)[Clamp(c, |b|)..Clamp(d, |b|)] == Ranked(Spliced(a, b, c))[..Clamp(d, |a|)]
  {
  }

  /** Some board exists for any candidates, so what is said of every board is said of something. */
  lemma {:induction false} BoardExists(rows: set<Row>) returns (board: seq<Row>)
    ensures IsBoard(rows, board)
    decreases |rows|
  {
    if rows == {} {
      board := [];
    } else {
      var first := FirstRow(rows);
      var others := set c | c in rows && c.owner != first.owner;
      SmallerWithout(others, rows, first);
      var rest := BoardExists(others);
      board := [first] + rest;
      BoardGrows(rows, others, first, rest);
    }
  }

  lemma BoardGrows(rows: set<Row>, others: set<Row>, first: Row, rest: seq<Row>)
    requires first in rows && others == set c | c in rows && c.owner != first.owner
    requires forall c :: c in rows ==> !Precedes(c, first)
    requires IsBoard(others, rest)
    ensures IsBoard(rows, [first] + rest)
  {
    hide OnBoard;
    var board := [first] + rest;
    forall i | 0 <= i < |rest|
      ensures IsBest(rows, rest[i]) && rest[i].owner != first.owner && first.value <= rest[i].value
    {
      assert IsBest(others, rest[i]);
    }
    assert IsBest(rows, first);
    assert forall i :: 0 <= i < |board| ==> board[i] == if i == 0 then first else rest[i - 1];
    BoardCovers(rows, others, first, rest);
  }

  lemma BoardCovers(rows: set<Row>, others: set<Row>, first: Row, rest: seq<Row>)
    requires others == set c | c in rows && c.owner != first.owner
    requires forall c :: c in others ==> OnBoard(rest, c.owner)
    ensures forall c :: c in rows ==> OnBoard([first] + rest, c.owner)
  {
    RestOnBoard(first, rest);
    forall c | c in rows
      ensures OnBoard([first] + rest, c.owner)
    {
      if c.owner == first.owner {
        assert ([first] + rest)[0].owner == c.owner;
      } else {
        assert c in others && OnBoard(rest, c.owner);
      }
    }
  }

  lemma RestOnBoard(first: Row, rest: seq<Row>)
    ensures forall o :: OnBoard(rest, o) ==> OnBoard([first] + rest, o)
  {
    forall o | OnBoard(rest, o)
      ensures OnBoard([first] + rest, o)
    {
      var i :| 0 <= i < |rest| && rest[i].owner == o;
      assert ([first] + rest)[i + 1].owner == o;
    }
  }

  lemma SmallerWithout<T>(a: set<T>, b: set<T>, x: T)
    requires a <= b && x in b && x !in a
    ensures |a| < |b|
  {
    SubsetIsSmaller(a, b - {x});
  }

  lemma {:induction false} FirstRow(rows: set<Row>) returns (first: Row)
    requires rows != {}
    ensures first in rows && forall c :: c in rows ==> !Precedes(c, first)
    decreases |rows|
  {
    first :| first in rows;
    var others := rows - {first};
    if others == {} {
      assert rows == {first};
    } else {
      var best := FirstRow(others);
      if Precedes(best, first) {
        first := best;
      }
      forall c | c in rows
        ensures !Precedes(c, first)
      {
        assert c in others || c in rows - others;
      }
    }
  }
}
