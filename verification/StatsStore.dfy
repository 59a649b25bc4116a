/** Submitting statistics (server/storage/storage.go), and what it does to the boards. */
module StatsStore {
  import opened FiniteSets
  import opened GoStrings
  import opened Leaderboard
  import opened RankedStats

  /** The stats table after one upsert: the row of that key is replaced. */
  function Upserted(db: Database, row: Stat): Database {
    db.(stats := (set s | s in db.stats && !SameKey(s, row)) + {row})
  }

  predicate SameKey(s: Stat, t: Stat) {
    s.personaId == t.personaId && s.key == t.key && s.period == t.period
  }

  ghost predicate PersonaExists(db: Database, personaId: int) {
    exists p :: p in db.personas && p.id == personaId
  }

  /** The upserts one after the other, in the order in which the map is walked. */
  function Submitted(db: Database, personaId: int, values: seq<(string, real)>, period: int, now: int): Database {
    if values == [] then db
    else
      var last := |values| - 1;
      Upserted(Submitted(db, personaId, values[..last], period, now), Stat(personaId, values[last].0, values[last].1, period, now))
  }

  ghost predicate DistinctKeys(values: seq<(string, real)>) {
    forall i, j :: 0 <= i < j < |values| ==> values[i].0 != values[j].0
  }

  class Store {
    var db: Database

    constructor (db: Database)
      requires Ok(db)
      ensures this.db == db
    {
      this.db := db;
    }

    /** One upsert for each value; a missing persona fails the first reference check. */
    method UpdateStats(personaId: int, values: seq<(string, real)>, period: int, now: int) returns (ok: bool)
      requires Ok(db) && DistinctKeys(values)
      modifies this
      ensures Ok(db)
      ensures ok <==> values == [] || PersonaExists(old(db), personaId)
      ensures db == if ok then Submitted(old(db), personaId, values, period, now) else old(db)
    {
      hide Ok, Upserted;
      for i := 0 to |values|
        invariant Ok(db) && db.personas == old(db.personas)
        invariant db == Submitted(old(db), personaId, values[..i], period, now)
        invariant i > 0 ==> PersonaExists(old(db), personaId)
      {
        if !(exists p :: p in db.personas && p.id == personaId) {
          return false;
        }
        var row := Stat(personaId, values[i].0, values[i].1, period, now);
        UpsertKeepsIntegrity(db, row);
        db := Upserted(db, row);
        assert values[..i + 1][..i] == values[..i];
      }
      assert values[..|values|] == values;
      ok := true;
    }
  }

  /** The order of the map does not matter: the submitted values replace the rows of their keys. */
  lemma {:induction false} SubmittedReplaces(db: Database, personaId: int, values: seq<(string, real)>, period: int, now: int, s: Stat)
    requires DistinctKeys(values)
    ensures s in Submitted(db, personaId, values, period, now).stats <==>
              if s.personaId == personaId && s.period == period && exists i :: 0 <= i < |values| && values[i].0 == s.key
              then s.updated == now && (s.key, s.value) in values
              else s in db.stats
  {
    if values == [] {
    } else {
      var last := |values| - 1;
      SubmittedReplaces(db, personaId, values[..last], period, now, s);
    }
  }

  lemma UpsertKeepsIntegrity(db: Database, row: Stat)
    requires Ok(db) && PersonaExists(db, row.personaId)
    ensures Ok(Upserted(db, row)) && Upserted(db, row).personas == db.personas
  {
  }

  lemma {:induction false} SubmittedKeepsIntegrity(db: Database, personaId: int, values: seq<(string, real)>, period: int, now: int)
    requires Ok(db) && PersonaExists(db, personaId)
    ensures var after := Submitted(db, personaId, values, period, now); Ok(after) && after.personas == db.personas
  {
    hide Ok, Upserted;
    if values == [] {
      assert Submitted(db, personaId, values, period, now) == db;
    } else {
      var last := |values| - 1;
      SubmittedKeepsIntegrity(db, personaId, values[..last], period, now);
      UpsertKeepsIntegrity(Submitted(db, personaId, values[..last], period, now),
                           Stat(personaId, values[last].0, values[last].1, period, now));
    }
  }

  /**
   A submitted value is the persona's live value on every board of its key and period whose
   cut-off is not later than the submission, and on no other; a positive one is on the board's
   list of candidates.
   */
  lemma SubmittedIsLive(db: Database, personaId: int, values: seq<(string, real)>, period: int, now: int, i: nat, q: Query)
    requires Ok(db) && PersonaExists(db, personaId) && DistinctKeys(values) && i < |values|
    requires q.key == values[i].0 && q.period == period
    ensures var after := Submitted(db, personaId, values, period, now);
      if q.cutoff.None? || q.cutoff.value <= now then
        && LiveValue(after, personaId, q) == Some(values[i].1)
        && (values[i].1 > 0.0 ==> HasRow(Candidates(after, q), personaId, values[i].1, false))
      else LiveValue(after, personaId, q) == None
  {
    hide Ok, Candidates, Submitted;
    var after := Submitted(db, personaId, values, period, now);
    var s := Stat(personaId, values[i].0, values[i].1, period, now);
    SubmittedKeepsIntegrity(db, personaId, values, period, now);
    SubmittedReplaces(db, personaId, values, period, now, s);
    assert (s.key, s.value) in values;
    TheOnlyRow(after, s, q);
    if s.value > 0.0 && (q.cutoff.None? || q.cutoff.value <= now) {
      var p :| p in db.personas && p.id == personaId;
      CurrentStatIsCandidate(after, q, s, p);
    }
  }

  /** The row of a persona, key and period alone decides the live value. */
  lemma TheOnlyRow(db: Database, s: Stat, q: Query)
    requires Ok(db) && s in db.stats && s.key == q.key && s.period == q.period
    ensures LiveValue(db, s.personaId, q) == if q.cutoff.None? || q.cutoff.value <= s.updated then Some(s.value) else None
  {
    hide PersonasOk, PlayersOk, RunsOk, LinksOk;
    assert forall s' :: IsLive(db, s.personaId, q, s') ==> s' == s;
    if q.cutoff.None? || q.cutoff.value <= s.updated {
      assert IsLive(db, s.personaId, q, s);
    }
  }

  /** Whoever submits what, the other owners keep their candidates on every board. */
  lemma OthersKeepTheirRows(db: Database, row: Stat, q: Query, c: Row)
    requires c.owner != row.personaId
    ensures c in Candidates(Upserted(db, row), q) <==> c in Candidates(db, q)
  {
    var after := Upserted(db, row);
    assert LinkedRows(after, q) == LinkedRows(db, q) && ImportedRows(after, q) == ImportedRows(db, q);
    if c in LiveRows(db, q) {
      var s, p :| s in db.stats && p in db.personas && p.id == s.personaId
                  && Selects(q, s.key, s.period, s.updated) && s.value > 0.0 && c == Row(s.personaId, p.name, s.value, false, false);
      assert s in after.stats;
    }
  }

  /** One submission moves the rank of any time by at most one place. */
  lemma RankMovesByAtMostOne(db: Database, row: Stat, q: Query, v: real)
    ensures var before, after := RankForValue(db, q, v), RankForValue(Upserted(db, row), q, v);
            -1 <= after - before <= 1
  {
    hide NumberedOne, RankRows, Upserted, Owners;
    var db' := Upserted(db, row);
    NumberedOncePerOwner(RankRows(db, q, v));
    NumberedOncePerOwner(RankRows(db', q, v));
    var a, b := Owners(RankRows(db, q, v)), Owners(RankRows(db', q, v));
    OthersStayCounted(db, row, q, v);
    SubsetIsSmaller(a, b + {row.personaId});
    SubsetIsSmaller(b, a + {row.personaId});
  }

  lemma OthersStayCounted(db: Database, row: Stat, q: Query, v: real)
    ensures var a, b := Owners(RankRows(db, q, v)), Owners(RankRows(Upserted(db, row), q, v));
            a <= b + {row.personaId} && b <= a + {row.personaId}
  {
    var db' := Upserted(db, row);
    assert LinkedRankRows(db', q, v) == LinkedRankRows(db, q, v) && ImportedRankRows(db', q, v) == ImportedRankRows(db, q, v);
    forall x | x in LiveRankRows(db, q, v) && x.owner != row.personaId
      ensures x in LiveRankRows(db', q, v)
    {
      var s :| s in db.stats && Selects(q, s.key, s.period, s.updated) && 0.0 < s.value <= v && x == RankRow(s.personaId, s.value, false);
      assert s in db'.stats;
    }
  }
}
