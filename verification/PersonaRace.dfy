/**
 Concurrent GetOrCreatePersona calls (server/storage/storage.go): look the name
 up, insert unless it is there, look it up again, each statement one atomic step
 that may fall anywhere between the statements of other calls.
 */
module PersonaRace {
  import opened GoStrings
  import opened Leaderboard

  /** Where a call is: before its first look-up, before its insert, before its second look-up, or done. */
  datatype Phase = Start | Missed | Inserted | Returned(persona: Persona) | NameTaken | NoRow | Rejected

  datatype Call = Call(accountId: int, name: string, phase: Phase)

  datatype State = State(accounts: set<int>, personas: set<Persona>, calls: seq<Call>)

  // ----- The statements -----

  ghost predicate IsNamed(personas: set<Persona>, name: string, p: Persona) {
    p in personas && p.name == name
  }

  ghost function Lookup(personas: set<Persona>, name: string): (r: Option<Persona>)
    ensures r.Some? ==> IsNamed(personas, name, r.value)
    ensures r.None? ==> forall p :: !IsNamed(personas, name, p)
  {
    if p :| IsNamed(personas, name, p) then Some(p) else None
  }

  /** What a found persona means for the caller. */
  function Found(call: Call, p: Persona): Phase {
    if p.accountId != call.accountId then NameTaken else Returned(p)
  }

  ghost predicate FreshId(personas: set<Persona>, id: int) {
    id > 0 && forall p :: p in personas ==> p.id != id
  }

  ghost predicate Advances(s: State, i: nat, s': State) {
    && i < |s.calls| && s'.accounts == s.accounts
    && var call := s.calls[i];
       var found := Lookup(s.personas, call.name);
       match call.phase
       case Start =>
         s'.personas == s.personas && s'.calls == s.calls[i := call.(phase := if found.Some? then Found(call, found.value) else Missed)]
       case Missed =>
         if found.Some? then s'.personas == s.personas && s'.calls == s.calls[i := call.(phase := Inserted)]
         else if call.accountId !in s.accounts then s'.personas == s.personas && s'.calls == s.calls[i := call.(phase := Rejected)]
         else exists id :: FreshId(s.personas, id) && s'.personas == s.personas + {Persona(id, call.accountId, call.name)}
                           && s'.calls == s.calls[i := call.(phase := Inserted)]
       case Inserted =>
         s'.personas == s.personas && s'.calls == s.calls[i := call.(phase := if found.Some? then Found(call, found.value) else NoRow)]
       case _ => false
  }

  ghost predicate Begins(s: State, call: Call, s': State) {
    call.phase.Start? && s' == s.(calls := s.calls + [call])
  }

  ghost predicate Next(s: State, s': State) {
    (exists i :: Advances(s, i, s')) || (exists call :: Begins(s, call, s'))
  }

  ghost predicate UniquePersonas(personas: set<Persona>) {
    forall p, p' :: p in personas && p' in personas && (p.id == p'.id || p.name == p'.name) ==> p == p'
  }

  ghost predicate AccountsExist(s: State) {
    forall p :: p in s.personas ==> p.accountId in s.accounts
  }

  ghost predicate IsRun(run: seq<State>) {
    && run != [] && UniquePersonas(run[0].personas) && AccountsExist(run[0]) && run[0].calls == []
    && forall k :: 0 <= k < |run| - 1 ==> Next(run[k], run[k + 1])
  }

  // ----- What every step keeps -----

  ghost predicate CallOk(personas: set<Persona>, call: Call) {
    match call.phase
    case Returned(p) => p in personas && p.accountId == call.accountId && p.name == call.name
    case NameTaken => exists p :: IsNamed(personas, call.name, p) && p.accountId != call.accountId
    case Inserted => exists p :: IsNamed(personas, call.name, p)
    case NoRow => false
    case _ => true
  }

  /** A persona that was not there at first was inserted by a call that does not give it up. */
  ghost predicate HasCreator(calls: seq<Call>, p: Persona) {
    exists i :: 0 <= i < |calls| && calls[i].accountId == p.accountId && calls[i].name == p.name
                && (calls[i].phase.Inserted? || calls[i].phase == Returned(p))
  }

  ghost predicate RejectedHaveNoAccount(s: State) {
    forall i :: 0 <= i < |s.calls| && s.calls[i].phase.Rejected? ==> s.calls[i].accountId !in s.accounts
  }

  ghost predicate Inv(initial: set<Persona>, s: State) {
    && UniquePersonas(s.personas) && initial <= s.personas && AccountsExist(s) && RejectedHaveNoAccount(s)
    && (forall i :: 0 <= i < |s.calls| ==> CallOk(s.personas, s.calls[i]))
    && (forall p :: p in s.personas && p !in initial ==> HasCreator(s.calls, p))
  }

  lemma StepKeepsInv(initial: set<Persona>, s: State, s': State)
    requires Inv(initial, s) && Next(s, s')
    ensures Inv(initial, s') && s.personas <= s'.personas
  {
    if i :| Advances(s, i, s') {
      AdvanceKeepsAccounts(initial, s, i, s');
      AdvanceKeepsCalls(initial, s, i, s');
      AdvanceKeepsCreators(initial, s, i, s');
    } else {
      var call :| Begins(s, call, s');
      forall p | p in s'.personas && p !in initial
        ensures HasCreator(s'.calls, p)
      {
        var j :| 0 <= j < |s.calls| && s.calls[j].accountId == p.accountId && s.calls[j].name == p.name
                 && (s.calls[j].phase.Inserted? || s.calls[j].phase == Returned(p));
        assert s'.calls[j] == s.calls[j];
      }
    }
  }

  lemma AdvanceKeepsAccounts(initial: set<Persona>, s: State, i: nat, s': State)
    requires Inv(initial, s) && Advances(s, i, s')
    ensures AccountsExist(s') && RejectedHaveNoAccount(s')
  {
    hide HasCreator, CallOk, Lookup;
    assert forall j :: 0 <= j < |s'.calls| && j != i ==> s'.calls[j] == s.calls[j];
  }

  lemma AdvanceKeepsCalls(initial: set<Persona>, s: State, i: nat, s': State)
    requires Inv(initial, s) && Advances(s, i, s')
    ensures UniquePersonas(s'.personas) && s.personas <= s'.personas
    ensures forall j :: 0 <= j < |s'.calls| ==> CallOk(s'.personas, s'.calls[j])
  {
    hide HasCreator;
    var call := s.calls[i];
    if call.phase.Missed? && Lookup(s.personas, call.name).None? && call.accountId in s.accounts {
      var id :| FreshId(s.personas, id) && s'.personas == s.personas + {Persona(id, call.accountId, call.name)};
      assert IsNamed(s'.personas, call.name, Persona(id, call.accountId, call.name));
      forall p | p in s.personas
        ensures p.name != call.name
      {
        assert !IsNamed(s.personas, call.name, p);
      }
    }
    forall j | 0 <= j < |s'.calls|
      ensures CallOk(s'.personas, s'.calls[j])
    {
      assert j != i ==> s'.calls[j] == s.calls[j];
      assert forall p :: IsNamed(s.personas, s'.calls[j].name, p) ==> IsNamed(s'.personas, s'.calls[j].name, p);
    }
  }

  lemma AdvanceKeepsCreators(initial: set<Persona>, s: State, i: nat, s': State)
    requires Inv(initial, s) && Advances(s, i, s')
    ensures forall p :: p in s'.personas && p !in initial ==> HasCreator(s'.calls, p)
  {
    forall p | p in s'.personas && p !in initial
      ensures HasCreator(s'.calls, p)
    {
      if p in s.personas {
        var j :| 0 <= j < |s.calls| && s.calls[j].accountId == p.accountId && s.calls[j].name == p.name
                 && (s.calls[j].phase.Inserted? || s.calls[j].phase == Returned(p));
        if j == i {
          assert IsNamed(s.personas, p.name, p);
          assert Lookup(s.personas, p.name) == Some(p);
        }
        assert s'.calls[j].accountId == p.accountId && s'.calls[j].name == p.name;
      } else {
        assert s'.calls[i].phase.Inserted?;
      }
    }
  }

  lemma {:induction false} RunKeepsInv(run: seq<State>, k: nat)
    requires IsRun(run) && k < |run|
    ensures Inv(run[0].personas, run[k])
  {
    if k == 0 {
    } else {
      RunKeepsInv(run, k - 1);
      StepKeepsInv(run[0].personas, run[k - 1], run[k]);
    }
  }

  // ----- Over whole runs -----

  /** A call that succeeds returns a persona of the caller's account with the name asked for. */
  lemma SuccessIsTheCallers(run: seq<State>, k: nat, i: nat)
    requires IsRun(run) && k < |run| && i < |run[k].calls| && run[k].calls[i].phase.Returned?
    ensures var call := run[k].calls[i];
            var p := call.phase.persona;
            p in run[k].personas && p.accountId == call.accountId && p.name == call.name
  {
    RunKeepsInv(run, k);
    assert CallOk(run[k].personas, run[k].calls[i]);
  }

  /** No call ever misses the row that was just inserted or found. */
  lemma NeverNoRow(run: seq<State>, k: nat, i: nat)
    requires IsRun(run) && k < |run| && i < |run[k].calls|
    ensures !run[k].calls[i].phase.NoRow?
  {
    RunKeepsInv(run, k);
    assert CallOk(run[k].personas, run[k].calls[i]);
  }

  /** Once a name has an owner it keeps it, and no second persona gets the name. */
  lemma {:induction false} OwnerNeverChanges(run: seq<State>, j: nat, k: nat, p: Persona)
    requires IsRun(run) && j <= k < |run| && p in run[j].personas
    ensures p in run[k].personas && forall p' :: IsNamed(run[k].personas, p.name, p') ==> p' == p
    decreases k - j
  {
    RunKeepsInv(run, k);
    if j == k {
    } else {
      RunKeepsInv(run, j);
      StepKeepsInv(run[0].personas, run[j], run[j + 1]);
      OwnerNeverChanges(run, j + 1, k, p);
    }
  }

  predicate Done(phase: Phase) {
    !phase.Start? && !phase.Missed? && !phase.Inserted?
  }

  ghost predicate AllDone(s: State, name: string) {
    forall i :: 0 <= i < |s.calls| && s.calls[i].name == name ==> Done(s.calls[i].phase)
  }

  ghost predicate SomeAdmitted(s: State, name: string) {
    exists i :: 0 <= i < |s.calls| && s.calls[i].name == name && !s.calls[i].phase.Rejected?
  }

  /**
   When the calls racing for a name are all done, at most one account has succeeded. If some
   call was not refused for want of an account, there is one account, the owner of the name,
   whose calls all succeeded while all others' were turned down, and if the name was free at
   first, the owner is one of the callers.
   */
  lemma ExactlyOneAccountWins(run: seq<State>, k: nat, name: string) returns (winner: Option<int>)
    requires IsRun(run) && k < |run| && AllDone(run[k], name)
    ensures winner.Some? <==> SomeAdmitted(run[k], name)
    ensures forall i :: 0 <= i < |run[k].calls| && run[k].calls[i].name == name ==>
              (run[k].calls[i].phase.Returned? <==> winner == Some(run[k].calls[i].accountId))
    ensures winner.Some? && (forall p :: !IsNamed(run[0].personas, name, p)) ==>
              exists i :: 0 <= i < |run[k].calls| && run[k].calls[i].name == name && run[k].calls[i].phase.Returned?
  {
    RunKeepsInv(run, k);
    var s := run[k];
    winner := None;
    if SomeAdmitted(s, name) {
      var c :| 0 <= c < |s.calls| && s.calls[c].name == name && !s.calls[c].phase.Rejected?;
      var owner := NameOwner(s, c);
      winner := Some(owner.accountId);
      forall i | 0 <= i < |s.calls| && s.calls[i].name == name
        ensures s.calls[i].phase.Returned? <==> s.calls[i].accountId == owner.accountId
      {
        assert CallOk(s.personas, s.calls[i]);
        assert owner.accountId in s.accounts;
      }
      if forall p :: !IsNamed(run[0].personas, name, p) {
        assert !IsNamed(run[0].personas, name, owner);
        assert HasCreator(s.calls, owner);
      }
    }
  }

  lemma NameOwner(s: State, c: nat) returns (owner: Persona)
    requires UniquePersonas(s.personas) && c < |s.calls| && CallOk(s.personas, s.calls[c])
    requires s.calls[c].phase.Returned? || s.calls[c].phase.NameTaken?
    ensures IsNamed(s.personas, s.calls[c].name, owner)
    ensures forall p :: IsNamed(s.personas, s.calls[c].name, p) ==> p == owner
  {
    match s.calls[c].phase {
      case Returned(p) =>
        owner := p;
      case NameTaken =>
        owner :| IsNamed(s.personas, s.calls[c].name, owner);
    }
  }

  // ----- One call, statement by statement -----

  class PersonaTable {
    const accounts: set<int>
    var personas: set<Persona>

    constructor (accounts: set<int>)
      ensures personas == {} && this.accounts == accounts
    {
      this.accounts := accounts;
      personas := {};
    }

    method LookupPersonaByName(name: string) returns (r: Option<Persona>)
      requires UniquePersonas(personas)
      ensures r == Lookup(personas, name)
    {
      if p :| p in personas && p.name == name {
        assert IsNamed(personas, name, p);
        r := Some(p);
      } else {
        assert forall p :: !IsNamed(personas, name, p);
        r := None;
      }
    }

    /** INSERT OR IGNORE under the next row id; only a missing account is an error. */
    method InsertOrIgnore(accountId: int, name: string, id: int) returns (ok: bool)
      requires UniquePersonas(personas) && FreshId(personas, id)
      modifies this
      ensures UniquePersonas(personas)
      ensures var taken := Lookup(old(personas), name).Some?;
              && (ok <==> taken || accountId in accounts)
              && personas == if ok && !taken then old(personas) + {Persona(id, accountId, name)} else old(personas)
    {
      var existing := LookupPersonaByName(name);
      if existing.Some? {
        return true;
      }
      if accountId !in accounts {
        return false;
      }
      forall p | p in personas
        ensures p.name != name
      {
        assert !IsNamed(personas, name, p);
      }
      personas := personas + {Persona(id, accountId, name)};
      ok := true;
    }

    /** With no other call in between, the method takes the steps of the race, one statement a step. */
    method GetOrCreatePersona(accountId: int, name: string, id: int) returns (phase: Phase, ghost run: seq<State>)
      requires UniquePersonas(personas) && FreshId(personas, id)
      modifies this
      ensures UniquePersonas(personas)
      ensures |run| > 0 && forall k :: 0 <= k < |run| - 1 ==> Advances(run[k], 0, run[k + 1])
      ensures run[0] == State(accounts, old(personas), [Call(accountId, name, Start)])
      ensures run[|run| - 1] == State(accounts, personas, [Call(accountId, name, phase)]) && Done(phase)
    {
      run := [State(accounts, personas, [Call(accountId, name, Start)])];
      var existing := LookupPersonaByName(name);
      if existing.Some? {
        phase := if existing.value.accountId != accountId then NameTaken else Returned(existing.value);
        run := run + [State(accounts, personas, [Call(accountId, name, phase)])];
        return;
      }
      run := run + [State(accounts, personas, [Call(accountId, name, Missed)])];
      var ok := InsertOrIgnore(accountId, name, id);
      phase := if ok then Inserted else Rejected;
      run := run + [State(accounts, personas, [Call(accountId, name, phase)])];
      if !ok {
        return;
      }
      var persona := LookupPersonaByName(name);
      phase := if persona.None? then NoRow
               else if persona.value.accountId != accountId then NameTaken else Returned(persona.value);
      run := run + [State(accounts, personas, [Call(accountId, name, phase)])];
    }
  }
}
