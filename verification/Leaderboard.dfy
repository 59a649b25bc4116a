/**
 The leaderboard queries (server/storage/storage.go) over the tables' rows. A
 query's rows form a set: no result below can tell a repeated row from one row,
 because each owner keeps one row and only those are sorted or counted.
 */
module Leaderboard {
  import opened FiniteSets
  import opened GoStrings

  const OWNER_OFFSET := 1_000_000_000

  datatype Persona = Persona(id: int, accountId: int, name: string)

  datatype Stat = Stat(personaId: int, key: string, value: real, period: int, updated: int)

  datatype Player = Player(id: int, sourceKey: string, name: string)

  datatype Run = Run(playerId: int, key: string, value: real, period: int, updated: int)

  datatype Link = Link(sourceKey: string, personaId: int)

  datatype Database = Database(personas: set<Persona>, stats: set<Stat>, players: set<Player>, runs: set<Run>, links: set<Link>)

  /** A board: the stat key, the period and, for weekly and monthly boards, the oldest time that counts. */
  datatype Query = Query(key: string, period: int, cutoff: Option<int>)

  predicate Selects(q: Query, key: string, period: int, updated: int) {
    key == q.key && period == q.period && (q.cutoff.None? || updated >= q.cutoff.value)
  }

  // ----- Integrity: primary keys, unique columns, references -----

  ghost predicate PersonasOk(db: Database) {
    && (forall p :: p in db.personas ==> 0 < p.id < OWNER_OFFSET)
    && (forall p, p' :: p in db.personas && p' in db.personas && (p.id == p'.id || p.name == p'.name) ==> p == p')
  }

  ghost predicate StatsOk(db: Database) {
    && (forall s, s' ::
          s in db.stats && s' in db.stats && s.personaId == s'.personaId && s.key == s'.key && s.period == s'.period
          ==> s == s')
    && (forall s :: s in db.stats ==> exists p :: p in db.personas && p.id == s.personaId)
  }

  ghost predicate PlayersOk(db: Database) {
    && (forall h :: h in db.players ==> 0 <= h.id)
    && (forall h, h' :: h in db.players && h' in db.players && (h.id == h'.id || h.sourceKey == h'.sourceKey) ==> h == h')
  }

  ghost predicate RunsOk(db: Database) {
    forall r, r' :: r in db.runs && r' in db.runs && r.playerId == r'.playerId && r.key == r'.key && r.period == r'.period ==> r == r'
  }

  ghost predicate LinksOk(db: Database) {
    && (forall l, l' :: l in db.links && l' in db.links && l.sourceKey == l'.sourceKey ==> l == l')
    && (forall l :: l in db.links ==> exists p :: p in db.personas && p.id == l.personaId)
  }

  ghost predicate Ok(db: Database) {
    PersonasOk(db) && StatsOk(db) && PlayersOk(db) && RunsOk(db) && LinksOk(db)
  }

  // ----- The candidates of TopN -----

  datatype Row = Row(owner: int, name: string, value: real, imported: bool, timeOnly: bool)

  ghost function LiveRows(db: Database, q: Query): set<Row> {
    set s, p | s in db.stats && p in db.personas && p.id == s.personaId
               && Selects(q, s.key, s.period, s.updated) && s.value > 0.0
      :: Row(s.personaId, p.name, s.value, false, false)
  }

  ghost function LinkedRows(db: Database, q: Query): set<Row> {
    set r, h, l, p | r in db.runs && h in db.players && h.id == r.playerId && l in db.links && l.sourceKey == h.sourceKey
                     && p in db.personas && p.id == l.personaId
                     && Selects(q, r.key, r.period, r.updated) && r.value > 0.0
      :: Row(p.id, p.name, r.value, false, true)
  }

  ghost predicate IsLinked(db: Database, sourceKey: string) {
    exists l :: l in db.links && l.sourceKey == sourceKey
  }

  ghost function ImportedRows(db: Database, q: Query): set<Row> {
    set r, h | r in db.runs && h in db.players && h.id == r.playerId && !IsLinked(db, h.sourceKey)
               && Selects(q, r.key, r.period, r.updated) && r.value > 0.0
      :: Row(h.id + OWNER_OFFSET, h.name, r.value, true, true)
  }

  ghost function Candidates(db: Database, q: Query): set<Row> {
    LiveRows(db, q) + LinkedRows(db, q) + ImportedRows(db, q)
  }

  // ----- Which rows count: by key, period, time and a positive value -----

  ghost predicate FromStat(db: Database, q: Query, c: Row, s: Stat) {
    && s in db.stats && s.personaId == c.owner && s.value == c.value && s.value > 0.0
    && s.key == q.key && s.period == q.period && (q.cutoff.None? || q.cutoff.value <= s.updated)
  }

  ghost predicate FromRun(db: Database, q: Query, c: Row, r: Run) {
    && r in db.runs && r.value == c.value && r.value > 0.0
    && r.key == q.key && r.period == q.period && (q.cutoff.None? || q.cutoff.value <= r.updated)
  }

  /** Every candidate comes from a positive time of its key and period that is not older than the cut-off. */
  lemma CandidatesAreCurrent(db: Database, q: Query, c: Row)
    requires c in Candidates(db, q)
    ensures if c.timeOnly then exists r :: FromRun(db, q, c, r) else exists s :: FromStat(db, q, c, s)
  {
    if c in LiveRows(db, q) {
      var s, p :| s in db.stats && p in db.personas && p.id == s.personaId
                  && Selects(q, s.key, s.period, s.updated) && s.value > 0.0 && c == Row(s.personaId, p.name, s.value, false, false);
      assert FromStat(db, q, c, s);
    } else if c in LinkedRows(db, q) {
      var r, h, l, p :| r in db.runs && h in db.players && h.id == r.playerId && l in db.links && l.sourceKey == h.sourceKey
                        && p in db.personas && p.id == l.personaId
                        && Selects(q, r.key, r.period, r.updated) && r.value > 0.0 && c == Row(p.id, p.name, r.value, false, true);
      assert FromRun(db, q, c, r);
    } else {
      var r, h :| r in db.runs && h in db.players && h.id == r.playerId && !IsLinked(db, h.sourceKey)
                  && Selects(q, r.key, r.period, r.updated) && r.value > 0.0
                  && c == Row(h.id + OWNER_OFFSET, h.name, r.value, true, true);
      assert FromRun(db, q, c, r);
    }
  }

  /** A positive live time from the cut-off on is a candidate under its persona's name. */
  lemma CurrentStatIsCandidate(db: Database, q: Query, s: Stat, p: Persona)
    requires s in db.stats && p in db.personas && p.id == s.personaId && s.value > 0.0
    requires s.key == q.key && s.period == q.period && (q.cutoff.None? || q.cutoff.value <= s.updated)
    ensures Row(p.id, p.name, s.value, false, false) in Candidates(db, q)
  {
    assert Row(s.personaId, p.name, s.value, false, false) in LiveRows(db, q);
  }

  /** A positive historical time from the cut-off on is a candidate: of every linked persona, or else of the player itself. */
  lemma CurrentRunIsCandidate(db: Database, q: Query, r: Run, h: Player)
    requires r in db.runs && h in db.players && h.id == r.playerId && r.value > 0.0
    requires r.key == q.key && r.period == q.period && (q.cutoff.None? || q.cutoff.value <= r.updated)
    ensures forall l, p :: l in db.links && l.sourceKey == h.sourceKey && p in db.personas && p.id == l.personaId
              ==> Row(p.id, p.name, r.value, false, true) in Candidates(db, q)
    ensures (forall l :: l in db.links ==> l.sourceKey != h.sourceKey)
              ==> Row(h.id + 1_000_000_000, h.name, r.value, true, true) in Candidates(db, q)
  {
    forall l, p | l in db.links && l.sourceKey == h.sourceKey && p in db.personas && p.id == l.personaId
      ensures Row(p.id, p.name, r.value, false, true) in LinkedRows(db, q)
    {
    }
    if forall l :: l in db.links ==> l.sourceKey != h.sourceKey {
      assert Row(h.id + OWNER_OFFSET, h.name, r.value, true, true) in ImportedRows(db, q);
    }
  }

  // ----- The board: each owner's first row, then sorted by value -----

  /** The order within an owner's partition: by value, then rows with full statistics first. */
  predicate Precedes(a: Row, b: Row) {
    a.value < b.value || (a.value == b.value && !a.timeOnly && b.timeOnly)
  }

  /** A row the window function may number 1 for its owner. */
  ghost predicate IsBest(rows: set<Row>, r: Row) {
    r in rows && forall c :: c in rows && c.owner == r.owner ==> !Precedes(c, r)
  }

  ghost predicate OneRowEach(board: seq<Row>) {
    forall i, j :: 0 <= i < j < |board| ==> board[i].owner != board[j].owner
  }

  ghost predicate Sorted(board: seq<Row>) {
    forall i, j :: 0 <= i < j < |board| ==> board[i].value <= board[j].value
  }

  ghost predicate OnBoard(board: seq<Row>, owner: int) {
    exists i :: 0 <= i < |board| && board[i].owner == owner
  }

  /** Any result the query may give: how ties between owners are ordered is left open. */
  ghost predicate IsBoard(rows: set<Row>, board: seq<Row>) {
    && (forall i :: 0 <= i < |board| ==> IsBest(rows, board[i]))
    && (forall c :: c in rows ==> OnBoard(board, c.owner))
    && OneRowEach(board) && Sorted(board)
  }

  // ----- The count of rankForValue -----

  datatype RankRow = RankRow(owner: int, value: real, timeOnly: bool)

  ghost function LiveRankRows(db: Database, q: Query, v: real): set<RankRow> {
    set s | s in db.stats && Selects(q, s.key, s.period, s.updated) && 0.0 < s.value <= v
      :: RankRow(s.personaId, s.value, false)
  }

  ghost function LinkedRankRows(db: Database, q: Query, v: real): set<RankRow> {
    set r, h, l | r in db.runs && h in db.players && h.id == r.playerId && l in db.links && l.sourceKey == h.sourceKey
                  && Selects(q, r.key, r.period, r.updated) && 0.0 < r.value <= v
      :: RankRow(l.personaId, r.value, true)
  }

  ghost function ImportedRankRows(db: Database, q: Query, v: real): set<RankRow> {
    set r, h | r in db.runs && h in db.players && h.id == r.playerId && !IsLinked(db, h.sourceKey)
               && Selects(q, r.key, r.period, r.updated) && 0.0 < r.value <= v
      :: RankRow(h.id + OWNER_OFFSET, r.value, true)
  }

  ghost function RankRows(db: Database, q: Query, v: real): set<RankRow> {
    LiveRankRows(db, q, v) + LinkedRankRows(db, q, v) + ImportedRankRows(db, q, v)
  }

  /** The order within an owner's partition, as on the board. */
  predicate RanksBefore(a: RankRow, b: RankRow) {
    a.value < b.value || (a.value == b.value && !a.timeOnly && b.timeOnly)
  }

  /** The rows numbered 1 in their owner's partition. */
  ghost function NumberedOne(rows: set<RankRow>): set<RankRow> {
    set r | r in rows && forall c :: c in rows && c.owner == r.owner ==> !RanksBefore(c, r)
  }

  /** The number of rows numbered 1, at least one. */
  ghost function RankForValue(db: Database, q: Query, v: real): (rank: int)
    ensures rank >= 1
  {
    var n := |NumberedOne(RankRows(db, q, v))|;
    if n > 1 then n else 1
  }

  ghost function Owners(rows: set<RankRow>): set<int> {
    set r | r in rows :: r.owner
  }

  lemma {:induction false} OwnersOfUnique(rows: set<RankRow>)
    requires forall r, r' :: r in rows && r' in rows && r.owner == r'.owner ==> r == r'
    ensures |Owners(rows)| == |rows|
  {
    if rows == {} {
      assert Owners(rows) == {};
    } else {
      var x :| x in rows;
      OwnersOfUnique(rows - {x});
      assert Owners(rows) == Owners(rows - {x}) + {x.owner};
      assert x.owner !in Owners(rows - {x});
    }
  }

  /** The first row of some rows. */
  lemma {:induction false} FirstRanked(rows: set<RankRow>) returns (first: RankRow)
    requires rows != {}
    ensures first in rows && forall c :: c in rows ==> !RanksBefore(c, first)
    decreases |rows|
  {
    first :| first in rows;
    var others := rows - {first};
    if others == {} {
      assert rows == {first};
    } else {
      var best := FirstRanked(others);
      if RanksBefore(best, first) {
        first := best;
      }
      forall c | c in rows ensures !RanksBefore(c, first) {
        assert c in others || c in rows - others;
      }
    }
  }

  /** Every owner has exactly one row that is numbered 1, so counting those rows counts owners. */
  lemma NumberedOncePerOwner(rows: set<RankRow>)
    ensures Owners(NumberedOne(rows)) == Owners(rows) && |NumberedOne(rows)| == |Owners(rows)|
  {
    var best := NumberedOne(rows);
    forall o | o in Owners(rows) ensures o in Owners(best) {
      var mine := set r | r in rows && r.owner == o;
      var r :| r in rows && r.owner == o;
      assert r in mine;
      var first := FirstRanked(mine);
      assert first in best;
    }
    OwnersOfUnique(best);
  }

  // ----- Rank agreement -----

  ghost function UpTo(rows: set<Row>, v: real): set<RankRow> {
    set c | c in rows && c.value <= v :: RankRow(c.owner, c.value, c.timeOnly)
  }

  /** Under referential integrity, the filter before the joins selects what the filter after them does. */
  lemma JoinsLoseNothing(db: Database, q: Query, v: real)
    requires Ok(db)
    ensures RankRows(db, q, v) == UpTo(Candidates(db, q), v)
  {
    var filtered := UpTo(Candidates(db, q), v);
    forall x | x in LiveRankRows(db, q, v)
      ensures x in filtered
    {
      var s :| s in db.stats && Selects(q, s.key, s.period, s.updated) && 0.0 < s.value <= v && x == RankRow(s.personaId, s.value, false);
      var p :| p in db.personas && p.id == s.personaId;
      assert Row(s.personaId, p.name, s.value, false, false) in LiveRows(db, q);
    }
    forall x | x in LinkedRankRows(db, q, v)
      ensures x in filtered
    {
      var r, h, l :| r in db.runs && h in db.players && h.id == r.playerId && l in db.links && l.sourceKey == h.sourceKey
                     && Selects(q, r.key, r.period, r.updated) && 0.0 < r.value <= v && x == RankRow(l.personaId, r.value, true);
      var p :| p in db.personas && p.id == l.personaId;
      assert Row(p.id, p.name, r.value, false, true) in LinkedRows(db, q);
    }
    forall x | x in ImportedRankRows(db, q, v)
      ensures x in filtered
    {
      var r, h :| r in db.runs && h in db.players && h.id == r.playerId && !IsLinked(db, h.sourceKey)
                  && Selects(q, r.key, r.period, r.updated) && 0.0 < r.value <= v && x == RankRow(h.id + OWNER_OFFSET, r.value, true);
      assert Row(h.id + OWNER_OFFSET, h.name, r.value, true, true) in ImportedRows(db, q);
    }
  }

  /** The number of rows from k on that are tied at v. */
  function Ties(board: seq<Row>, k: nat, v: real): nat
    requires k <= |board|
    decreases |board| - k
  {
    if k < |board| && board[k].value == v then 1 + Ties(board, k + 1, v) else 0
  }

  lemma {:induction false} TiesAreAllTied(board: seq<Row>, k: nat, v: real)
    requires k <= |board|
    requires Sorted(board)
    requires forall i :: k <= i < |board| ==> v <= board[i].value
    ensures k + Ties(board, k, v) <= |board|
    ensures forall i :: k <= i < |board| ==> (board[i].value <= v <==> i < k + Ties(board, k, v))
    decreases |board| - k
  {
    if k == |board| || board[k].value != v {
    } else {
      TiesAreAllTied(board, k + 1, v);
    }
  }

  ghost function PrefixOwners(board: seq<Row>, m: nat): set<int>
    requires m <= |board|
  {
    set i | 0 <= i < m :: board[i].owner
  }

  lemma {:induction false} PrefixOwnersCount(board: seq<Row>, m: nat)
    requires m <= |board| && OneRowEach(board)
    ensures |PrefixOwners(board, m)| == m
  {
    if m == 0 {
    } else {
      PrefixOwnersCount(board, m - 1);
      assert board[m - 1].owner !in PrefixOwners(board, m - 1);
      assert PrefixOwners(board, m) == PrefixOwners(board, m - 1) + {board[m - 1].owner};
    }
  }

  /** The rows at most v are the first m. */
  ghost predicate CutsAt(board: seq<Row>, v: real, m: nat) {
    m <= |board| && forall i :: 0 <= i < |board| ==> (board[i].value <= v <==> i < m)
  }

  /** Filtering the candidates by value before taking each owner's best finds the owners whose best passes. */
  lemma FilterPushDown(rows: set<Row>, board: seq<Row>, v: real, m: nat)
    requires IsBoard(rows, board) && CutsAt(board, v, m)
    ensures Owners(UpTo(rows, v)) == PrefixOwners(board, m)
  {
    forall c | c in rows && c.value <= v
      ensures c.owner in PrefixOwners(board, m)
    {
      assert OnBoard(board, c.owner);
      var i :| 0 <= i < |board| && board[i].owner == c.owner;
      assert !Precedes(c, board[i]);
    }
    forall o | o in PrefixOwners(board, m)
      ensures o in Owners(UpTo(rows, v))
    {
      var i :| 0 <= i < m && board[i].owner == o;
      assert IsBest(rows, board[i]);
      assert RankRow(o, board[i].value, board[i].timeOnly) in UpTo(rows, v);
    }
  }

  /** The rank of a value is the number of board rows at most that value, wherever the cut falls. */
  lemma RankCountsRows(db: Database, q: Query, board: seq<Row>, v: real, m: nat)
    requires Ok(db) && IsBoard(Candidates(db, q), board) && CutsAt(board, v, m)
    ensures RankForValue(db, q, v) == if m > 1 then m else 1
  {
    hide Ok, Candidates, RankRows, UpTo, Owners, PrefixOwners, IsBest, OnBoard, Sorted, NumberedOne;
    NumberedOncePerOwner(RankRows(db, q, v));
    JoinsLoseNothing(db, q, v);
    FilterPushDown(Candidates(db, q), board, v, m);
    PrefixOwnersCount(board, m);
  }

  /** The two ways to a rank agree up to ties: the count gives the position of the last tied row. */
  lemma RankAgreement(db: Database, q: Query, board: seq<Row>, r: nat)
    requires Ok(db) && IsBoard(Candidates(db, q), board) && r < |board|
    ensures RankForValue(db, q, board[r].value) == r + 1 + Ties(board, r + 1, board[r].value)
    ensures RankForValue(db, q, board[r].value) == r + 1 <==> r + 1 == |board| || board[r].value < board[r + 1].value
  {
    hide Ok, Candidates, RankForValue, IsBest;
    var v := board[r].value;
    TiesAreAllTied(board, r + 1, v);
    assert CutsAt(board, v, r + 1 + Ties(board, r + 1, v));
    RankCountsRows(db, q, board, v, r + 1 + Ties(board, r + 1, v));
  }

  lemma RankIsMonotone(db: Database, q: Query, v: real, w: real)
    requires v <= w
    ensures RankForValue(db, q, v) <= RankForValue(db, q, w)
  {
    hide NumberedOne;
    NumberedOncePerOwner(RankRows(db, q, v));
    NumberedOncePerOwner(RankRows(db, q, w));
    var a, b := Owners(RankRows(db, q, v)), Owners(RankRows(db, q, w));
    assert RankRows(db, q, v) <= RankRows(db, q, w);
    assert a <= b;
    SubsetIsSmaller(a, b);
  }
}
