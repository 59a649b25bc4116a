/**
 The stalled-tick detector (client/dll/MedgeNetClient.c): a stub counts the game's
 own ticks, and the transport tick, after enough ticks without one, calls the
 game's tick itself.
 */
module StallDetector {
  import opened FiniteSets
  import opened Octets

  const THRESHOLD := 30

  /** The detector's globals. */
  datatype Globals = Globals(ecx: Uint32, counter: Uint32, lastSeen: Uint32, stale: Uint32,
                             maxStale: Uint32, callsAsStale: Uint32, inProcessTick: bool)

  const INITIAL := Globals(0, 0, 0, 0, 0, 0, false)

  /** What reaches the hooks: a game tick, a transport tick, or the return of an injected game tick. */
  datatype Event = GameTick(ecx: Uint32) | TransportTick | InjectedReturns

  /** What a transport tick calls. */
  datatype Effect = Nothing | Injects | CallsOriginal

  function Inc(n: Uint32): Uint32 { (n + 1) % TWO32 }

  function AfterGameTick(g: Globals, ecx: Uint32): Globals {
    g.(ecx := ecx, counter := Inc(g.counter))
  }

  /** The stale counters after a transport tick that is not reentrant. */
  function Observed(g: Globals): Globals {
    if g.counter != g.lastSeen then g.(lastSeen := g.counter, stale := 0)
    else
      var stale := Inc(g.stale);
      g.(stale := stale, maxStale := if stale > g.maxStale then stale else g.maxStale)
  }

  function AfterTransportTick(g: Globals): (Globals, Effect) {
    if g.inProcessTick then (g, CallsOriginal)
    else
      var o := Observed(g);
      if g.counter != g.lastSeen || o.stale < THRESHOLD then (o, CallsOriginal)
      else
        var called := o.(callsAsStale := Inc(o.callsAsStale));
        if called.ecx == 0 then (called, CallsOriginal) else (called.(inProcessTick := true), Injects)
  }

  function Step(g: Globals, e: Event): (Globals, Effect) {
    match e
    case GameTick(ecx) => (AfterGameTick(g, ecx), Nothing)
    case TransportTick => AfterTransportTick(g)
    case InjectedReturns => (g.(inProcessTick := false), Nothing)
  }

  class Hooks {
    var ecx: Uint32
    var counter: Uint32
    var lastSeen: Uint32
    var stale: Uint32
    var maxStale: Uint32
    var callsAsStale: Uint32
    var inProcessTick: bool

    function State(): Globals
      reads this
    {
      Globals(ecx, counter, lastSeen, stale, maxStale, callsAsStale, inProcessTick)
    }

    constructor ()
      ensures State() == INITIAL
    {
      ecx, counter, lastSeen, stale, maxStale, callsAsStale, inProcessTick := 0, 0, 0, 0, 0, 0, false;
    }

    method CaptureProcessTick(ecx: Uint32)
      modifies this
      ensures State() == Step(old(State()), GameTick(ecx)).0
    {
      this.ecx := ecx;
      counter := (counter + 1) % TWO32;
    }

    /** The detour up to the call it makes. */
    method FeslConnUpdate() returns (effect: Effect)
      modifies this
      ensures (State(), effect) == Step(old(State()), TransportTick)
    {
      if inProcessTick {
        return CallsOriginal;
      }
      if counter != lastSeen {
        lastSeen := counter;
        stale := 0;
        return CallsOriginal;
      }
      stale := (stale + 1) % TWO32;
      if stale > maxStale {
        maxStale := stale;
      }
      if stale < THRESHOLD {
        return CallsOriginal;
      }
      callsAsStale := (callsAsStale + 1) % TWO32;
      if ecx == 0 {
        return CallsOriginal;
      }
      inProcessTick := true;
      return Injects;
    }

    /** The rest of the detour, when the injected tick has returned. */
    method AfterInjection()
      modifies this
      ensures State() == Step(old(State()), InjectedReturns).0
    {
      inProcessTick := false;
    }
  }

  // ----- Runs, and what the counters should mean -----

  function After(events: seq<Event>): Globals {
    if events == [] then INITIAL else Step(After(events[..|events| - 1]), events[|events| - 1]).0
  }

  /** What the k-th event of a run calls. */
  function EffectAt(events: seq<Event>, k: nat): Effect
    requires k < |events|
  {
    Step(After(events[..k]), events[k]).1
  }

  /**
   The meaning of a run in plain counts: the outer transport ticks in a row that saw no game
   tick, the game ticks since the last outer tick, the longest such row, the latest captured
   `this`, whether an injected tick is running, and the ticks with a row at the threshold.
   */
  datatype Meaning = Meaning(streak: nat, gameTicks: nat, longest: nat, captured: Uint32, injecting: bool, sustained: nat)

  function MeaningAfter(m: Meaning, e: Event): Meaning {
    match e
    case GameTick(ecx) => m.(gameTicks := m.gameTicks + 1, captured := ecx)
    case InjectedReturns => m.(injecting := false)
    case TransportTick =>
      if m.injecting then m
      else if m.gameTicks > 0 then m.(streak := 0, gameTicks := 0)
      else
        var streak := m.streak + 1;
        m.(streak := streak, longest := if streak > m.longest then streak else m.longest,
           injecting := streak >= THRESHOLD && m.captured != 0,
           sustained := if streak >= THRESHOLD then m.sustained + 1 else m.sustained)
  }

  function MeaningOf(events: seq<Event>): Meaning {
    if events == [] then Meaning(0, 0, 0, 0, false, 0)
    else MeaningAfter(MeaningOf(events[..|events| - 1]), events[|events| - 1])
  }

  predicate Small(m: Meaning) { m.gameTicks < TWO32 && m.streak < TWO32 }

  /** Runs in which the 32-bit counters cannot come round within one gap or one streak. */
  ghost predicate Plausible(events: seq<Event>) {
    forall k :: 0 <= k <= |events| ==> Small(MeaningOf(events[..k]))
  }

  ghost predicate Represents(g: Globals, m: Meaning) {
    && g.counter == (g.lastSeen + m.gameTicks) % TWO32
    && g.stale == m.streak && g.maxStale == m.longest
    && g.ecx == m.captured && g.inProcessTick == m.injecting
    && g.callsAsStale == m.sustained % TWO32
  }

  lemma CounterMoved(lastSeen: Uint32, gameTicks: nat)
    requires gameTicks < TWO32
    ensures (lastSeen + gameTicks) % TWO32 == lastSeen <==> gameTicks == 0
  {
  }

  lemma CounterTicks(lastSeen: Uint32, gameTicks: nat)
    ensures Inc((lastSeen + gameTicks) % TWO32) == (lastSeen + (gameTicks + 1)) % TWO32
  {
    var q := (lastSeen + gameTicks) / TWO32;
    assert lastSeen + gameTicks == TWO32 * q + (lastSeen + gameTicks) % TWO32;
  }

  lemma StepKeepsMeaning(g: Globals, m: Meaning, e: Event)
    requires Represents(g, m) && Small(m) && Small(MeaningAfter(m, e))
    ensures Represents(Step(g, e).0, MeaningAfter(m, e))
    ensures e.TransportTick? ==>
              Step(g, e).1 == if !m.injecting && MeaningAfter(m, e).injecting then Injects else CallsOriginal
  {
    match e {
      case GameTick(ecx) =>
        CounterTicks(g.lastSeen, m.gameTicks);
      case InjectedReturns =>
      case TransportTick =>
        CounterMoved(g.lastSeen, m.gameTicks);
        assert g.counter % TWO32 == g.counter;
        CounterTicks(0, m.sustained);
    }
  }

  /** Along every plausible run the globals are the counts they stand for. */
  lemma {:induction false} GlobalsMeanCounts(events: seq<Event>)
    requires Plausible(events)
    ensures Represents(After(events), MeaningOf(events))
  {
    hide Represents, Step, MeaningAfter, Small;
    if events == [] {
      InitialMeaning();
    } else {
      var before := events[..|events| - 1];
      PrefixPlausible(events, |before|);
      GlobalsMeanCounts(before);
      assert events[..|events|] == events;
      StepKeepsMeaning(After(before), MeaningOf(before), events[|events| - 1]);
    }
  }

  lemma InitialMeaning()
    ensures Represents(INITIAL, Meaning(0, 0, 0, 0, false, 0))
  {
  }

  lemma PrefixPlausible(events: seq<Event>, n: nat)
    requires Plausible(events) && n <= |events|
    ensures Plausible(events[..n]) && Small(MeaningOf(events[..n]))
  {
    assert forall k :: 0 <= k <= n ==> events[..n][..k] == events[..k];
  }

  /**
   A transport tick injects a game tick exactly when none is running, the row of ticks that saw
   no game tick reaches the threshold with it and a `this` was captured; it calls the original
   update in every other case.
   */
  lemma InjectsIff(events: seq<Event>, k: nat)
    requires Plausible(events) && k < |events| && events[k].TransportTick?
    ensures var m := MeaningOf(events[..k]);
            EffectAt(events, k) ==
              if !m.injecting && m.gameTicks == 0 && m.streak + 1 >= 30 && m.captured != 0 then Injects else CallsOriginal
  {
    hide Represents, Step, Small;
    PrefixPlausible(events, k);
    PrefixPlausible(events, k + 1);
    GlobalsMeanCounts(events[..k]);
    assert events[..k + 1][..k] == events[..k];
    StepKeepsMeaning(After(events[..k]), MeaningOf(events[..k]), events[k]);
  }

  /** The tick makes a row at the threshold, so that the detector wants to inject. */
  predicate SustainedAt(events: seq<Event>, k: nat)
    requires k < |events|
  {
    var m := MeaningOf(events[..k]);
    events[k].TransportTick? && !m.injecting && m.gameTicks == 0 && m.streak + 1 >= 30
  }

  function SustainedTicks(events: seq<Event>): set<nat> {
    set k: nat | k < |events| && SustainedAt(events, k)
  }

  function InjectingTicks(events: seq<Event>): set<nat> {
    set k: nat | k < |events| && EffectAt(events, k).Injects?
  }

  /** Over a whole run, the stale-call counter is the number of sustained ticks. */
  lemma {:induction false} StaleCallsAreSustainedTicks(events: seq<Event>)
    requires Plausible(events)
    ensures MeaningOf(events).sustained == |SustainedTicks(events)|
    ensures After(events).callsAsStale == |SustainedTicks(events)| % TWO32
  {
    GlobalsMeanCounts(events);
    if events == [] {
      assert SustainedTicks(events) == {};
    } else {
      var n := |events| - 1;
      var before := events[..n];
      PrefixPlausible(events, n);
      StaleCallsAreSustainedTicks(before);
      SustainedStep(events);
    }
  }

  lemma SustainedStep(events: seq<Event>)
    requires events != []
    ensures var n := |events| - 1;
      |SustainedTicks(events)| == |SustainedTicks(events[..n])| + if SustainedAt(events, n) then 1 else 0
  {
    hide MeaningOf;
    var n: nat := |events| - 1;
    var before, all := SustainedTicks(events[..n]), SustainedTicks(events);
    assert forall k :: 0 <= k < n ==> events[..n][..k] == events[..k];
    assert all == if SustainedAt(events, n) then before + {n} else before;
  }

  /** Every sustained tick was an injection exactly when a `this` was captured at each of them. */
  lemma StaleCallsAreInjectionsIff(events: seq<Event>)
    requires Plausible(events)
    ensures |InjectingTicks(events)| <= |SustainedTicks(events)|
    ensures |SustainedTicks(events)| == |InjectingTicks(events)| <==>
              forall k :: 0 <= k < |events| && SustainedAt(events, k) ==> MeaningOf(events[..k]).captured != 0
  {
    hide MeaningOf, EffectAt;
    var sustained, injecting := SustainedTicks(events), InjectingTicks(events);
    forall k | 0 <= k < |events|
      ensures EffectAt(events, k).Injects? <==> SustainedAt(events, k) && MeaningOf(events[..k]).captured != 0
    {
      EffectOf(events, k);
    }
    assert injecting <= sustained;
    SubsetIsSmaller(injecting, sustained);
    if k :| 0 <= k < |events| && SustainedAt(events, k) && MeaningOf(events[..k]).captured == 0 {
      assert k in sustained && k !in injecting;
    } else {
      assert injecting == sustained;
    }
  }

  lemma EffectOf(events: seq<Event>, k: nat)
    requires Plausible(events) && k < |events|
    ensures EffectAt(events, k).Injects? <==> SustainedAt(events, k) && MeaningOf(events[..k]).captured != 0
  {
    hide MeaningOf;
    if events[k].TransportTick? {
      InjectsIff(events, k);
    }
  }

  /** Between two injections the first one has returned. */
  lemma {:induction false} InjectionsNeverNest(events: seq<Event>, j: nat, k: nat)
    requires j < k < |events| && EffectAt(events, j).Injects? && EffectAt(events, k).Injects?
    ensures exists i :: j < i < k && events[i].InjectedReturns?
  {
    hide Observed;
    if forall i :: j < i < k ==> !events[i].InjectedReturns? {
      StaysInside(events, j, k);
    }
  }

  lemma {:induction false} StaysInside(events: seq<Event>, j: nat, k: nat)
    requires j < k <= |events| && EffectAt(events, j).Injects?
    requires forall i :: j < i < k ==> !events[i].InjectedReturns?
    ensures After(events[..k]).inProcessTick
  {
    hide Observed;
    assert events[..k][..k - 1] == events[..k - 1];
    if j + 1 == k {
    } else {
      StaysInside(events, j, k - 1);
    }
  }

  /** The longest row is the maximum of the rows at all times. */
  lemma {:induction false} LongestIsMaximum(events: seq<Event>)
    ensures forall k :: 0 <= k <= |events| ==> MeaningOf(events[..k]).streak <= MeaningOf(events).longest
    ensures exists k :: 0 <= k <= |events| && MeaningOf(events[..k]).streak == MeaningOf(events).longest
  {
    hide MeaningAfter;
    var n := |events|;
    assert events[..n] == events;
    if n == 0 {
      assert MeaningOf(events[..0]).streak == MeaningOf(events).longest;
    } else {
      var before := events[..n - 1];
      LongestIsMaximum(before);
      assert before[..n - 1] == before;
      LongestStep(MeaningOf(before), events[n - 1]);
      assert forall k :: 0 <= k < n ==> before[..k] == events[..k];
      var k :| 0 <= k <= n - 1 && MeaningOf(before[..k]).streak == MeaningOf(before).longest;
      assert MeaningOf(events[..k]).streak == MeaningOf(before).longest;
      if MeaningOf(events).longest != MeaningOf(before).longest {
        assert MeaningOf(events[..n]).streak == MeaningOf(events).longest;
      }
    }
  }

  lemma LongestStep(m: Meaning, e: Event)
    requires m.streak <= m.longest
    ensures var m' := MeaningAfter(m, e);
            m'.streak <= m'.longest && (m'.longest == m.longest || (m'.longest == m'.streak && m.longest < m'.streak))
  {
  }

  function GameTicks(n: nat, ecx: Uint32): seq<Event> { seq(n, _ => GameTick(ecx)) }

  function AfterFrom(g: Globals, events: seq<Event>): Globals {
    if events == [] then g else Step(AfterFrom(g, events[..|events| - 1]), events[|events| - 1]).0
  }

  /** A burst of game ticks goes unseen exactly when it brings the 32-bit counter round to where it was. */
  lemma {:induction false} BurstIsSeenIff(g: Globals, n: nat, ecx: Uint32)
    requires g.counter == g.lastSeen
    ensures var after := AfterFrom(g, GameTicks(n, ecx));
            after.lastSeen == g.lastSeen && after.counter == (g.lastSeen + n) % TWO32
            && (after.counter != after.lastSeen <==> n % TWO32 != 0)
  {
    if n == 0 {
      assert GameTicks(0, ecx) == [];
    } else {
      BurstIsSeenIff(g, n - 1, ecx);
      assert GameTicks(n, ecx)[..n - 1] == GameTicks(n - 1, ecx);
      CounterTicks(g.lastSeen, n - 1);
    }
    RoundIff(g.lastSeen, n);
  }

  /** A burst of 2^32 game ticks that is taken for none. */
  lemma FullRoundIsUnseen(ecx: Uint32)
    ensures var after := AfterFrom(INITIAL, GameTicks(TWO32, ecx));
            after.counter == after.lastSeen && AfterTransportTick(after).0.stale == 1
  {
    hide AfterFrom;
    BurstIsSeenIff(INITIAL, TWO32, ecx);
    BurstLeavesRest(INITIAL, TWO32, ecx);
  }

  lemma {:induction false} BurstLeavesRest(g: Globals, n: nat, ecx: Uint32)
    ensures var after := AfterFrom(g, GameTicks(n, ecx));
            after.stale == g.stale && after.inProcessTick == g.inProcessTick
  {
    if n == 0 {
      assert GameTicks(0, ecx) == [];
    } else {
      BurstLeavesRest(g, n - 1, ecx);
      assert GameTicks(n, ecx)[..n - 1] == GameTicks(n - 1, ecx);
    }
  }

  lemma RoundIff(x: Uint32, n: nat)
    ensures (x + n) % TWO32 != x <==> n % TWO32 != 0
  {
    var q := n / TWO32;
    assert x + n == TWO32 * q + (x + n % TWO32);
    var r := x + n % TWO32;
    assert (x + n) % TWO32 == if r < TWO32 then r else r - TWO32;
  }
}
