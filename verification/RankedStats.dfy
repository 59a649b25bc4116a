/**
 A single owner's time and rank (server/storage/storage.go): the live time, the
 linked historical times and the count of rankForValue, against that owner's
 place on the board.
 */
module RankedStats {
  import opened GoStrings
  import opened Leaderboard
  import LeaderboardPages

  datatype RankedStat = RankedStat(rank: int, value: real)

  const NO_STAT := RankedStat(0, 0.0)

  predicate IsTimeKey(key: string) {
    |key| >= 3 && key[|key| - 3..] == "_20"
  }

  /** The time keys are the texts that end in `_20`. */
  lemma TimeKeysEndIn20(key: string)
    ensures IsTimeKey(key) <==> exists stem: string :: key == stem + ['_', '2', '0']
  {
    if IsTimeKey(key) {
      assert key == key[..|key| - 3] + ['_', '2', '0'];
    }
    forall stem: string | key == stem + ['_', '2', '0'] ensures IsTimeKey(key) {
      assert key[|key| - 3..] == "_20";
    }
  }

  // ----- The queries -----

  ghost predicate IsMin(vs: set<real>, m: real) {
    m in vs && forall x :: x in vs ==> m <= x
  }

  lemma Pick<T>(s: set<T>) returns (x: T)
    requires s != {}
    ensures x in s
  {
    x :| x in s;
  }

  lemma {:induction false} MinExists(vs: set<real>)
    requires vs != {}
    ensures exists m :: IsMin(vs, m)
    decreases |vs|
  {
    var x := Pick(vs);
    var others := vs - {x};
    if others == {} {
      assert vs == {x} && IsMin(vs, x);
    } else {
      MinExists(others);
      var m :| IsMin(others, m);
      assert forall y :: y in vs ==> y == x || y in others;
      assert IsMin(vs, if m < x then m else x);
    }
  }

  ghost function MinOf(vs: set<real>): (m: real)
    requires vs != {}
    ensures IsMin(vs, m)
  {
    MinExists(vs);
    var m :| IsMin(vs, m);
    m
  }

  ghost predicate IsLive(db: Database, personaId: int, q: Query, s: Stat) {
    s in db.stats && s.personaId == personaId && Selects(q, s.key, s.period, s.updated)
  }

  /** The live value; the primary key leaves at most one row. */
  ghost function LiveValue(db: Database, personaId: int, q: Query): Option<real> {
    if s :| IsLive(db, personaId, q, s) then Some(s.value) else None
  }

  ghost function LinkedTimes(db: Database, personaId: int, q: Query): set<real> {
    set r, h, l | r in db.runs && h in db.players && h.id == r.playerId && l in db.links && l.sourceKey == h.sourceKey
                  && l.personaId == personaId && Selects(q, r.key, r.period, r.updated) && r.value > 0.0
      :: r.value
  }

  /** The best linked historical time. */
  ghost function LinkedTime(db: Database, personaId: int, q: Query): Option<real> {
    var times := LinkedTimes(db, personaId, q);
    if personaId == 0 || times == {} then None else Some(MinOf(times))
  }

  ghost predicate SharesName(db: Database, name: string, q: Query, p: Persona, s: Stat) {
    p in db.personas && p.name == name && IsLive(db, p.id, q, s) && s.value > 0.0
  }

  /** The persona of the same name with the best live time; the persona itself if none has one. */
  ghost function BestPersonaId(db: Database, personaId: int, q: Query): int {
    if personaId == 0 || !IsTimeKey(q.key) then personaId
    else if persona :| persona in db.personas && persona.id == personaId then
      var values := set p, s | p in db.personas && s in db.stats && SharesName(db, persona.name, q, p, s) :: s.value;
      if values == {} then personaId
      else
        var p, s :| SharesName(db, persona.name, q, p, s) && s.value == MinOf(values);
        p.id
    else personaId
  }

  ghost function RankedStats(db: Database, personaId: int, q: Query): RankedStat {
    var effective := BestPersonaId(db, personaId, q);
    var live := LiveValue(db, effective, q);
    var linked := if IsTimeKey(q.key) then LinkedTime(db, effective, q) else None;
    var merged := if linked.Some? && (live.None? || linked.value < live.value) then linked else live;
    if merged.None? then NO_STAT else RankedStat(RankForValue(db, q, merged.value), merged.value)
  }

  ghost predicate IsRun(db: Database, playerId: int, q: Query, r: Run) {
    r in db.runs && r.playerId == playerId && Selects(q, r.key, r.period, r.updated)
  }

  ghost function HistoricalRankedStats(db: Database, ownerId: int, q: Query): RankedStat {
    if ownerId < OWNER_OFFSET then NO_STAT
    else
      var playerId := ownerId - OWNER_OFFSET;
      if r :| IsRun(db, playerId, q, r) then RankedStat(RankForValue(db, q, r.value), r.value) else NO_STAT
  }

  // ----- What they say about the board -----

  /** What a caller should get for an owner: its board row's value and that value's rank, or nothing. */
  ghost predicate Agrees(db: Database, q: Query, board: seq<Row>, owner: int, got: RankedStat) {
    if OnBoard(board, owner) then
      exists i :: 0 <= i < |board| && board[i].owner == owner && got == RankedStat(RankForValue(db, q, board[i].value), board[i].value)
    else got == NO_STAT
  }

  /** Unique names make the search by name find the persona itself. */
  lemma BestPersonaIsItself(db: Database, personaId: int, q: Query)
    requires Ok(db)
    ensures BestPersonaId(db, personaId, q) == personaId
  {
    hide LiveValue, IsLive;
    assert forall persona, p, s ::
        persona in db.personas && persona.id == personaId && SharesName(db, persona.name, q, p, s) ==> p.id == personaId;
  }

  ghost predicate HasRow(rows: set<Row>, owner: int, value: real, timeOnly: bool) {
    exists c :: c in rows && c.owner == owner && c.value == value && c.timeOnly == timeOnly
  }

  lemma LiveValueIs(db: Database, personaId: int, q: Query, s: Stat)
    requires StatsOk(db) && IsLive(db, personaId, q, s)
    ensures LiveValue(db, personaId, q) == Some(s.value)
  {
  }

  /** A persona's live row among the candidates is its positive live value. */
  lemma LiveCandidate(db: Database, q: Query, personaId: int, v: real)
    requires Ok(db) && 0 < personaId < OWNER_OFFSET
    ensures HasRow(Candidates(db, q), personaId, v, false) <==> v > 0.0 && LiveValue(db, personaId, q) == Some(v)
  {
    hide RunsOk;
    if HasRow(Candidates(db, q), personaId, v, false) {
      var c :| c in LiveRows(db, q) && c.owner == personaId && c.value == v;
      var s :| IsLive(db, personaId, q, s) && s.value == v && v > 0.0;
      LiveValueIs(db, personaId, q, s);
    }
    if v > 0.0 && LiveValue(db, personaId, q) == Some(v) {
      var s :| IsLive(db, personaId, q, s) && s.value == v;
      var p :| p in db.personas && p.id == s.personaId;
      assert Row(s.personaId, p.name, s.value, false, false) in LiveRows(db, q);
    }
  }

  /** A persona's time-only rows among the candidates are its linked times. */
  lemma LinkedCandidates(db: Database, q: Query, personaId: int, t: real)
    requires Ok(db) && 0 < personaId < OWNER_OFFSET
    ensures HasRow(Candidates(db, q), personaId, t, true) <==> t in LinkedTimes(db, personaId, q)
  {
    hide RunsOk, StatsOk;
    if t in LinkedTimes(db, personaId, q) {
      var r, h, l :| r in db.runs && h in db.players && h.id == r.playerId && l in db.links && l.sourceKey == h.sourceKey
                     && l.personaId == personaId && Selects(q, r.key, r.period, r.updated) && r.value > 0.0 && t == r.value;
      var p :| p in db.personas && p.id == l.personaId;
      assert Row(p.id, p.name, r.value, false, true) in LinkedRows(db, q);
    }
  }

  /** The faster of a positive live time and the best linked time. */
  function Faster(live: Option<real>, linked: Option<real>): Option<real> {
    if live.None? || live.value <= 0.0 then linked
    else if linked.None? || live.value <= linked.value then live
    else linked
  }

  /** A persona's board row: its value is the faster time, and it is time-only exactly when that is not a live one. */
  lemma PersonaOnBoard(db: Database, q: Query, board: seq<Row>, personaId: int)
    requires Ok(db) && 0 < personaId < OWNER_OFFSET && IsBoard(Candidates(db, q), board)
    ensures var live, linked := LiveValue(db, personaId, q), LinkedTime(db, personaId, q);
            && (OnBoard(board, personaId) <==> Faster(live, linked).Some?)
            && forall i :: 0 <= i < |board| && board[i].owner == personaId ==>
                 && Faster(live, linked) == Some(board[i].value)
                 && (board[i].timeOnly <==> live.None? || live.value <= 0.0 || (linked.Some? && linked.value < live.value))
  {
    hide Ok, Candidates, LiveValue, LinkedTimes;
    var rows := Candidates(db, q);
    var live, linked := LiveValue(db, personaId, q), LinkedTime(db, personaId, q);
    if live.Some? {
      LiveCandidate(db, q, personaId, live.value);
    }
    if linked.Some? {
      LinkedCandidates(db, q, personaId, linked.value);
    }
    if OnBoard(board, personaId) {
      forall i | 0 <= i < |board| && board[i].owner == personaId
        ensures && Faster(live, linked) == Some(board[i].value)
                && (board[i].timeOnly <==> live.None? || live.value <= 0.0 || (linked.Some? && linked.value < live.value))
      {
        var r := board[i];
        assert IsBest(rows, r) && HasRow(rows, personaId, r.value, r.timeOnly);
        LiveCandidate(db, q, personaId, r.value);
        LinkedCandidates(db, q, personaId, r.value);
      }
    }
  }

  /**
   RankedStats gives what the board shows for a persona exactly when its live value, if
   any, is positive, and, for a key that is not a time, no linked run beats it.
   */
  lemma RankedStatsAgreesIff(db: Database, q: Query, board: seq<Row>, personaId: int)
    requires Ok(db) && 0 < personaId < OWNER_OFFSET && IsBoard(Candidates(db, q), board)
    ensures var live, linked := LiveValue(db, personaId, q), LinkedTime(db, personaId, q);
            Agrees(db, q, board, personaId, RankedStats(db, personaId, q)) <==>
              && (live.None? || live.value > 0.0)
              && (IsTimeKey(q.key) || linked.None? || (live.Some? && live.value <= linked.value))
  {
    hide Ok, Candidates, LiveValue, LinkedTimes, RankForValue, BestPersonaId;
    BestPersonaIsItself(db, personaId, q);
    PersonaOnBoard(db, q, board, personaId);
    var live, linked := LiveValue(db, personaId, q), LinkedTime(db, personaId, q);
    var shown := Faster(live, linked);
    var got := RankedStats(db, personaId, q);
    if OnBoard(board, personaId) {
      var i :| 0 <= i < |board| && board[i].owner == personaId;
      assert shown == Some(board[i].value);
      assert Agrees(db, q, board, personaId, got) <==> got == RankedStat(RankForValue(db, q, shown.value), shown.value);
    }
    LinkedTimeIsPositive(db, personaId, q);
  }

  lemma LinkedTimeIsPositive(db: Database, personaId: int, q: Query)
    ensures LinkedTime(db, personaId, q).Some? ==> LinkedTime(db, personaId, q).value > 0.0
  {
    assert forall t :: t in LinkedTimes(db, personaId, q) ==> t > 0.0;
  }

  /** Where a persona stands on the board and what RankedStats reports differ by the ties behind it only. */
  lemma ReportedRankIsPosition(db: Database, q: Query, board: seq<Row>, i: nat)
    requires Ok(db) && IsBoard(Candidates(db, q), board) && i < |board| && 0 < board[i].owner < OWNER_OFFSET
    requires IsTimeKey(q.key)
    requires var live := LiveValue(db, board[i].owner, q); live.None? || live.value > 0.0
    ensures RankedStats(db, board[i].owner, q) == RankedStat(i + 1 + Ties(board, i + 1, board[i].value), board[i].value)
  {
    hide Ok, Candidates, LiveValue, LinkedTimes, RankForValue, RankedStats, LinkedTime;
    RankedStatsAgreesIff(db, q, board, board[i].owner);
    RankAgreement(db, q, board, i);
    assert OnBoard(board, board[i].owner);
  }

  /** An imported owner's only candidate is its positive run, and only while its player is unlinked. */
  lemma ImportedCandidates(db: Database, q: Query, h: Player, r: Run)
    requires Ok(db) && h in db.players && IsRun(db, h.id, q, r)
    ensures forall c :: c in Candidates(db, q) && c.owner == h.id + OWNER_OFFSET ==>
              c == Row(h.id + OWNER_OFFSET, h.name, r.value, true, true)
    ensures Row(h.id + OWNER_OFFSET, h.name, r.value, true, true) in Candidates(db, q) <==>
              r.value > 0.0 && !IsLinked(db, h.sourceKey)
  {
    hide IsLinked, StatsOk;
    if r.value > 0.0 && !IsLinked(db, h.sourceKey) {
      assert Row(h.id + OWNER_OFFSET, h.name, r.value, true, true) in ImportedRows(db, q);
    }
  }

  lemma ImportedCandidateHasRun(db: Database, q: Query, h: Player, c: Row)
    requires Ok(db) && h in db.players && c in Candidates(db, q) && c.owner == h.id + OWNER_OFFSET
    ensures exists r :: IsRun(db, h.id, q, r)
  {
    hide StatsOk, RunsOk, IsLinked;
    assert c in ImportedRows(db, q);
    var r, h' :| r in db.runs && h' in db.players && h'.id == r.playerId && Selects(q, r.key, r.period, r.updated)
                 && c.owner == h'.id + OWNER_OFFSET;
    assert IsRun(db, h.id, q, r);
  }

  /**
   HistoricalRankedStats gives what the board shows for an imported owner exactly when the
   player has no run, or has a positive one and is not linked: a linked player's own owner id
   still gets a rank, although its run stands on the board under the persona.
   */
  lemma HistoricalAgreesIff(db: Database, q: Query, board: seq<Row>, h: Player)
    requires Ok(db) && h in db.players && IsBoard(Candidates(db, q), board)
    ensures Agrees(db, q, board, h.id + OWNER_OFFSET, HistoricalRankedStats(db, h.id + OWNER_OFFSET, q)) <==>
              forall r :: IsRun(db, h.id, q, r) ==> r.value > 0.0 && !IsLinked(db, h.sourceKey)
  {
    hide StatsOk, LinksOk, Candidates, RankForValue, IsLinked;
    var owner, rows := h.id + OWNER_OFFSET, Candidates(db, q);
    if OnBoard(board, owner) {
      var i :| 0 <= i < |board| && board[i].owner == owner;
      assert IsBest(rows, board[i]);
      ImportedCandidateHasRun(db, q, h, board[i]);
    }
    if r :| IsRun(db, h.id, q, r) {
      ImportedCandidates(db, q, h, r);
      assert forall r' :: IsRun(db, h.id, q, r') ==> r' == r;
      assert forall i :: 0 <= i < |board| && board[i].owner == owner ==> IsBest(rows, board[i]) && board[i].value == r.value;
    }
  }

  // ----- Inputs on which the two ways disagree -----

  function LinkedExample(key: string): Database {
    Database({Persona(1, 1, "Faith")}, {}, {Player(7, "src", "Faith")}, {Run(7, key, 30.0, 0, 0)}, {Link("src", 1)})
  }

  lemma LinkedExampleOk(key: string)
    ensures Ok(LinkedExample(key))
  {
    assert Persona(1, 1, "Faith") in LinkedExample(key).personas;
  }

  /** A linked player's own owner id is ranked although the board has no such owner. */
  lemma LinkedOwnerIsRankedOffBoard() returns (db: Database, q: Query, board: seq<Row>, h: Player)
    ensures Ok(db) && IsBoard(Candidates(db, q), board) && h in db.players
    ensures !Agrees(db, q, board, h.id + OWNER_OFFSET, HistoricalRankedStats(db, h.id + OWNER_OFFSET, q))
  {
    hide Ok, Candidates, Agrees, IsBoard, HistoricalRankedStats;
    db, q, h := LinkedExample("TD_1_20"), Query("TD_1_20", 0, None), Player(7, "src", "Faith");
    LinkedExampleOk("TD_1_20");
    board := LeaderboardPages.BoardExists(Candidates(db, q));
    HistoricalAgreesIff(db, q, board, h);
    assert IsRun(db, h.id, q, Run(7, "TD_1_20", 30.0, 0, 0));
    assert Link("src", 1) in db.links;
  }

  /** For a key that is no time, the board counts a linked run that RankedStats does not merge. */
  lemma OtherKeysAreNotMerged() returns (db: Database, q: Query, board: seq<Row>)
    ensures Ok(db) && IsBoard(Candidates(db, q), board)
    ensures !Agrees(db, q, board, 1, RankedStats(db, 1, q))
  {
    hide Ok, Candidates, Agrees, IsBoard, RankedStats;
    db, q := LinkedExample("TD_1_41"), Query("TD_1_41", 0, None);
    LinkedExampleOk("TD_1_41");
    board := LeaderboardPages.BoardExists(Candidates(db, q));
    RankedStatsAgreesIff(db, q, board, 1);
    assert forall s :: !IsLive(db, 1, q, s);
    assert 30.0 in LinkedTimes(db, 1, q) by {
      assert Run(7, "TD_1_41", 30.0, 0, 0) in db.runs && Player(7, "src", "Faith") in db.players && Link("src", 1) in db.links;
    }
    assert q.key[|q.key| - 3..] == "_41";
  }
}
