/**
 The ProcessEvent detour (client/dll/MedgeNetClient.c) as steps of any number of
 threads: one interlocked flag lets one frame at a time look for a restart to
 redirect; the original function may enter the detour again from within.
 */
module ProcessEventGuard {
  import opened Octets

  /**
   Where a frame of the detour is: before the compare-exchange; holding the flag while it
   decides; inside the redirected call; back from it; about to release without redirecting;
   about to make, or inside, the plain call; about to return.
   */
  datatype Stage = Entered | Deciding | Redirecting | Redirected | Declined | Plain | InOriginal | Returning

  datatype Function = RestartLevel | OtherFunction(id: nat)

  /** What the engine calls: a function, and whether its object belongs to a running race. */
  datatype Call = Call(callee: Function, inRace: bool)

  /** What a frame called in the original: the restart of the race, or the function that it was called with. */
  datatype Made = RestartRace | OwnFunction(callee: Function)

  /**
   A frame with its call, and a record of what it did: whether it took the flag, whether it found
   both restart functions resolved, and the calls it made.
   */
  datatype Frame = Frame(stage: Stage, call: Call, tookFlag: bool, resolved: bool, made: seq<Made>)

  type Stack = seq<Frame>

  datatype State = State(flag: int, stacks: seq<Stack>, intercepts: nat, redirects: nat, completed: seq<Frame>)

  predicate Holds(f: Frame) {
    f.stage.Deciding? || f.stage.Redirecting? || f.stage.Redirected? || f.stage.Declined?
  }

  predicate InCall(f: Frame) {
    f.stage.Redirecting? || f.stage.InOriginal?
  }

  /** Whether a thread may enter the detour: it runs no frame, or its newest one is in the original function. */
  predicate MayEnter(stack: Stack) {
    stack == [] || InCall(stack[|stack| - 1])
  }

  /** What the newest frame does next, with what it does to the flag. */
  datatype Move = Move(frame: Frame, flag: int, redirects: bool)

  /** One step of a frame; `resolved` says whether the restart functions are known by now. */
  function MoveOf(f: Frame, flag: int, resolved: bool): Move {
    match f.stage
    case Entered =>
      if flag == 0 then Move(f.(stage := Deciding, tookFlag := true), 1, false) else Move(f.(stage := Plain), flag, false)
    case Deciding =>
      if resolved && f.call.callee == RestartLevel && f.call.inRace
      then Move(f.(stage := Redirecting, resolved := true, made := f.made + [RestartRace]), flag, true)
      else Move(f.(stage := Declined, resolved := resolved), flag, false)
    case Redirecting => Move(f.(stage := Redirected), flag, false)
    case Redirected => Move(f.(stage := Returning), 0, false)
    case Declined => Move(f.(stage := Plain), 0, false)
    case Plain => Move(f.(stage := InOriginal, made := f.made + [OwnFunction(f.call.callee)]), flag, false)
    case InOriginal => Move(f.(stage := Returning), flag, false)
    case Returning => Move(f, flag, false)
  }

  predicate Enters(s: State, t: nat, call: Call, s': State) {
    t < |s.stacks| && MayEnter(s.stacks[t])
    && s' == s.(stacks := s.stacks[t := s.stacks[t] + [Frame(Entered, call, false, false, [])]])
  }

  predicate Moves(s: State, t: nat, resolved: bool, s': State) {
    && t < |s.stacks| && s.stacks[t] != []
    && var top := |s.stacks[t]| - 1;
       var f := s.stacks[t][top];
       var m := MoveOf(f, s.flag, resolved);
       !f.stage.Returning?
       && s' == State(m.flag, s.stacks[t := s.stacks[t][top := m.frame]],
                      if m.redirects then (s.intercepts + 1) % TWO32 else s.intercepts,
                      if m.redirects then s.redirects + 1 else s.redirects, s.completed)
  }

  predicate Leaves(s: State, t: nat, s': State) {
    && t < |s.stacks| && s.stacks[t] != []
    && var top := |s.stacks[t]| - 1;
       var f := s.stacks[t][top];
       f.stage.Returning? && s' == s.(stacks := s.stacks[t := s.stacks[t][..top]], completed := s.completed + [f])
  }

  ghost predicate Next(s: State, s': State) {
    (exists t, call :: Enters(s, t, call, s')) || (exists t, resolved :: Moves(s, t, resolved, s')) || (exists t :: Leaves(s, t, s'))
  }

  ghost predicate Init(s: State) {
    s.flag == 0 && s.intercepts == 0 && s.redirects == 0 && s.completed == [] && forall t :: 0 <= t < |s.stacks| ==> s.stacks[t] == []
  }

  ghost predicate IsRun(run: seq<State>) {
    run != [] && Init(run[0]) && forall k :: 0 <= k < |run| - 1 ==> Next(run[k], run[k + 1])
  }

  // ----- The invariant -----

  ghost predicate HoldsAt(s: State, t: int, j: int) {
    0 <= t < |s.stacks| && 0 <= j < |s.stacks[t]| && Holds(s.stacks[t][j])
  }

  /** The call restarts a race, and the frame knew the functions for it. */
  predicate Restarts(f: Frame) {
    f.call == Call(RestartLevel, true) && f.resolved
  }

  /** The calls that a frame makes in all. */
  function Due(f: Frame): seq<Made> {
    if f.tookFlag && Restarts(f) then [RestartRace] else [OwnFunction(f.call.callee)]
  }

  /** What a frame has done by the time it is at a stage. */
  predicate RecordFits(f: Frame) {
    match f.stage
    case Entered => !f.tookFlag && f.made == []
    case Deciding => f.tookFlag && f.made == []
    case Redirecting => f.tookFlag && Restarts(f) && f.made == Due(f)
    case Redirected => f.tookFlag && Restarts(f) && f.made == Due(f)
    case Declined => f.tookFlag && !Restarts(f) && f.made == []
    case Plain => !(f.tookFlag && Restarts(f)) && f.made == []
    case InOriginal => !(f.tookFlag && Restarts(f)) && f.made == Due(f)
    case Returning => f.made == Due(f)
  }

  /** The frames among some that called the restart of the race. */
  function RestartsIn(frames: seq<Frame>): nat {
    if frames == [] then 0
    else RestartsIn(frames[..|frames| - 1]) + (if RestartRace in frames[|frames| - 1].made then 1 else 0)
  }

  function RestartsOn(stacks: seq<Stack>): nat {
    if stacks == [] then 0 else RestartsOn(stacks[..|stacks| - 1]) + RestartsIn(stacks[|stacks| - 1])
  }

  predicate RedirectsCounted(s: State) {
    s.redirects == RestartsOn(s.stacks) + RestartsIn(s.completed)
  }

  ghost predicate OneHolder(s: State) {
    && (s.flag == 0 || s.flag == 1)
    && (s.flag == 1 <==> exists t, j :: HoldsAt(s, t, j))
    && forall t, j, t', j' :: HoldsAt(s, t, j) && HoldsAt(s, t', j') ==> t == t' && j == j'
  }

  ghost predicate StacksOk(s: State) {
    && (forall t, j :: 0 <= t < |s.stacks| && 0 <= j < |s.stacks[t]| ==> RecordFits(s.stacks[t][j]))
    && (forall t, j :: 0 <= t < |s.stacks| && 0 <= j < |s.stacks[t]| - 1 ==> InCall(s.stacks[t][j]))
    && (forall k :: 0 <= k < |s.completed| ==> s.completed[k].made == Due(s.completed[k]))
    && s.intercepts == s.redirects % TWO32
  }

  lemma EnterKeeps(s: State, t: nat, call: Call, s': State)
    requires OneHolder(s) && StacksOk(s) && Enters(s, t, call, s')
    ensures OneHolder(s') && StacksOk(s')
  {
    assert forall t', j :: HoldsAt(s', t', j) <==> HoldsAt(s, t', j);
  }

  lemma LeaveKeeps(s: State, t: nat, s': State)
    requires OneHolder(s) && StacksOk(s) && Leaves(s, t, s')
    ensures OneHolder(s') && StacksOk(s')
  {
    assert forall t', j :: HoldsAt(s', t', j) <==> HoldsAt(s, t', j);
  }

  lemma MoveKeeps(s: State, t: nat, resolved: bool, s': State)
    requires OneHolder(s) && StacksOk(s) && Moves(s, t, resolved, s')
    ensures OneHolder(s') && StacksOk(s')
  {
    MoveKeepsHolder(s, t, resolved, s');
    MoveKeepsStacks(s, t, resolved, s');
  }

  lemma MoveKeepsStacks(s: State, t: nat, resolved: bool, s': State)
    requires StacksOk(s) && Moves(s, t, resolved, s')
    ensures StacksOk(s')
  {
  }

  lemma MoveKeepsHolder(s: State, t: nat, resolved: bool, s': State)
    requires OneHolder(s) && Moves(s, t, resolved, s')
    ensures OneHolder(s')
  {
    var top := |s.stacks[t]| - 1;
    var f := s.stacks[t][top];
    var m := MoveOf(f, s.flag, resolved);
    assert forall t', j :: (t', j) != (t, top) ==> (HoldsAt(s', t', j) <==> HoldsAt(s, t', j));
    assert HoldsAt(s, t, top) <==> Holds(f);
    assert HoldsAt(s', t, top) <==> Holds(m.frame);
  }

  lemma {:induction false} RunKeeps(run: seq<State>, k: nat)
    requires IsRun(run) && k < |run|
    ensures OneHolder(run[k]) && StacksOk(run[k])
  {
    if k == 0 {
    } else {
      RunKeeps(run, k - 1);
      var s, s' := run[k - 1], run[k];
      assert Next(s, s');
      if t, call :| Enters(s, t, call, s') {
        EnterKeeps(s, t, call, s');
      } else if t :| Leaves(s, t, s') {
        LeaveKeeps(s, t, s');
      } else {
        var t, resolved :| Moves(s, t, resolved, s');
        MoveKeeps(s, t, resolved, s');
      }
    }
  }

  // ----- Over whole runs -----

  /** The flag is set exactly while some frame holds it, and no two frames hold it at once. */
  lemma FlagHasOneHolder(run: seq<State>, k: nat)
    requires IsRun(run) && k < |run|
    ensures run[k].flag == 1 <==> exists t, j :: HoldsAt(run[k], t, j)
    ensures run[k].flag != 1 ==> run[k].flag == 0
    ensures forall t, j, t', j' :: HoldsAt(run[k], t, j) && HoldsAt(run[k], t', j') ==> t == t' && j == j'
  {
    RunKeeps(run, k);
  }

  ghost predicate RedirectedAt(s: State, t: int, j: int) {
    0 <= t < |s.stacks| && 0 <= j < |s.stacks[t]| && (s.stacks[t][j].stage.Redirecting? || s.stacks[t][j].stage.Redirected?)
  }

  /** Redirected calls neither nest in one thread nor overlap between threads. */
  lemma RedirectsNeverOverlap(run: seq<State>, k: nat, t: int, j: int, t': int, j': int)
    requires IsRun(run) && k < |run| && RedirectedAt(run[k], t, j) && RedirectedAt(run[k], t', j')
    ensures t == t' && j == j'
  {
    RunKeeps(run, k);
    assert HoldsAt(run[k], t, j) && HoldsAt(run[k], t', j');
  }

  /** A frame that has returned called the original function exactly once. */
  lemma OriginalIsCalledOnce(run: seq<State>, k: nat)
    requires IsRun(run) && k < |run|
    ensures forall c :: 0 <= c < |run[k].completed| ==> |run[k].completed[c].made| == 1
  {
    RunKeeps(run, k);
  }

  /**
   A frame that has returned made the redirected call exactly if it took the flag, its call was a
   restart in a race and the functions were known; else it called its own function.
   */
  lemma OnlyRestartsAreRedirected(run: seq<State>, k: nat, c: nat)
    requires IsRun(run) && k < |run| && c < |run[k].completed|
    ensures var f := run[k].completed[c];
      if f.tookFlag && f.resolved && f.call.callee == RestartLevel && f.call.inRace
      then f.made == [RestartRace]
      else f.made == [OwnFunction(f.call.callee)]
  {
    RunKeeps(run, k);
  }

  lemma {:induction false} RestartsOnChanged(stacks: seq<Stack>, t: nat, stack: Stack)
    requires t < |stacks|
    ensures RestartsOn(stacks[t := stack]) == RestartsOn(stacks) - RestartsIn(stacks[t]) + RestartsIn(stack)
  {
    var n := |stacks| - 1;
    if t == n {
      assert stacks[t := stack][..n] == stacks[..n];
    } else {
      RestartsOnChanged(stacks[..n], t, stack);
      assert stacks[t := stack][..n] == stacks[..n][t := stack];
    }
  }

  lemma RestartsOneMore(frames: seq<Frame>, f: Frame)
    ensures RestartsIn(frames + [f]) == RestartsIn(frames) + (if RestartRace in f.made then 1 else 0)
  {
    assert (frames + [f])[..|frames|] == frames;
  }

  lemma StepKeepsCount(s: State, s': State)
    requires RedirectsCounted(s) && StacksOk(s) && Next(s, s')
    ensures RedirectsCounted(s')
  {
    hide RestartsIn, RestartsOn;
    if t: nat, call :| Enters(s, t, call, s') {
      var f := Frame(Entered, call, false, false, []);
      RestartsOneMore(s.stacks[t], f);
      RestartsOnChanged(s.stacks, t, s.stacks[t] + [f]);
    } else if t: nat :| Leaves(s, t, s') {
      var top := |s.stacks[t]| - 1;
      assert s.stacks[t] == s.stacks[t][..top] + [s.stacks[t][top]];
      RestartsOneMore(s.stacks[t][..top], s.stacks[t][top]);
      RestartsOnChanged(s.stacks, t, s.stacks[t][..top]);
      RestartsOneMore(s.completed, s.stacks[t][top]);
    } else {
      var t: nat, resolved :| Moves(s, t, resolved, s');
      MoveKeepsCount(s, t, resolved, s');
    }
  }

  lemma MoveKeepsCount(s: State, t: nat, resolved: bool, s': State)
    requires RedirectsCounted(s) && StacksOk(s) && Moves(s, t, resolved, s')
    ensures RedirectsCounted(s')
  {
    hide RestartsIn, RestartsOn;
    var top := |s.stacks[t]| - 1;
    var front, f := s.stacks[t][..top], s.stacks[t][top];
    var m := MoveOf(f, s.flag, resolved);
    assert s.stacks[t] == front + [f] && s.stacks[t][top := m.frame] == front + [m.frame];
    RestartsOneMore(front, f);
    RestartsOneMore(front, m.frame);
    RestartsOnChanged(s.stacks, t, front + [m.frame]);
    assert RecordFits(f);
    MadeByMove(f, s.flag, resolved);
  }

  /** A move calls the restart of the race exactly when it counts as a redirect. */
  lemma MadeByMove(f: Frame, flag: int, resolved: bool)
    requires RecordFits(f)
    ensures var m := MoveOf(f, flag, resolved);
      if m.redirects then RestartRace !in f.made && RestartRace in m.frame.made
      else RestartRace in m.frame.made <==> RestartRace in f.made
  {
  }

  lemma {:induction false} NoRestartsYet(stacks: seq<Stack>)
    requires forall t :: 0 <= t < |stacks| ==> stacks[t] == []
    ensures RestartsOn(stacks) == 0
  {
    if stacks == [] {
      assert RestartsOn(stacks) == 0;
    } else {
      NoRestartsYet(stacks[..|stacks| - 1]);
    }
  }

  /** At any time, the redirects are the frames, active or completed, that called the restart of the race. */
  lemma {:induction false} RedirectsAreRestarts(run: seq<State>, k: nat)
    requires IsRun(run) && k < |run|
    ensures run[k].redirects == RestartsOn(run[k].stacks) + RestartsIn(run[k].completed)
  {
    if k == 0 {
      NoRestartsYet(run[0].stacks);
    } else {
      RedirectsAreRestarts(run, k - 1);
      RunKeeps(run, k - 1);
      assert Next(run[k - 1], run[k]);
      StepKeepsCount(run[k - 1], run[k]);
    }
  }

  /** With no frame active, the flag is free again and the counter counts the redirections. */
  lemma QuietMeansFree(run: seq<State>, k: nat)
    requires IsRun(run) && k < |run| && forall t :: 0 <= t < |run[k].stacks| ==> run[k].stacks[t] == []
    ensures run[k].flag == 0 && run[k].intercepts == run[k].redirects % TWO32
  {
    RunKeeps(run, k);
    assert forall t, j :: !HoldsAt(run[k], t, j);
  }

  /** While one frame is redirected, a frame that enters finds the flag taken and goes to the original function. */
  lemma NestedFramePassesThrough(run: seq<State>, k: nat, t: int, j: int, t': nat, resolved: bool)
    requires IsRun(run) && k + 1 < |run| && RedirectedAt(run[k], t, j)
    requires Moves(run[k], t', resolved, run[k + 1])
    requires var stack := run[k].stacks[t']; stack[|stack| - 1].stage.Entered?
    ensures var stack := run[k + 1].stacks[t']; stack[|stack| - 1].stage.Plain?
    ensures run[k + 1].redirects == run[k].redirects && RedirectedAt(run[k + 1], t, j)
  {
    RunKeeps(run, k);
    assert HoldsAt(run[k], t, j);
  }
}
