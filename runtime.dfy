/**
 * The process skeleton's mutable state: the seven hook registries, the
 * clock, and the `terminate` / `reload` flags, with the operations on them —
 * registration, the signal handlers, the can-exit vote, the destructors,
 * one tick of the event loop, the event loop itself and initialization.
 *
 * Each tick is specified by a pure reference definition (TickState and
 * TickTrace) and the loop by Loop; the lemmas below state what those
 * definitions promise.
 */
module Runtime {
  import opened Hooks
  import opened Timers
  import opened Termination
  import opened InitTable

  /** What `poll` reports for a tick: ready (or timed out), EAGAIN, EINTR,
      or another error. */
  datatype PollResult = Ready | EAgain | Interrupted | Fatal

  /** The skeleton's state at one instant. */
  datatype Snap = Snap(
    destructors: seq<HookId>, wantExit: seq<HookId>, canExit: seq<HookId>, reloads: seq<HookId>,
    polls: seq<PollHook>, eachLoop: seq<HookId>, timers: seq<TimeEntry>,
    now: Now, usecnow: nat, terminate: TermState, reload: bool, sigchld: bool)

  /** What happens before and during one turn of the event loop: whether a
      termination signal and a reload signal arrived since the last turn,
      what `poll` returned, the wall clock read after it (seconds and
      microseconds) and the answers the can-exit voters would give. */
  datatype TickInput = TickInput(sigterm: bool, sighup: bool, poll: PollResult,
                                 sec: Now, usec: nat, votes: seq<int>)

  // ---------------------------------------------------------------------
  // Reference definition of one tick and of the loop.

  /** Every timer after its turn at `now`. */
  function AdvanceAll(ts: seq<TimeEntry>, now: int): (r: seq<TimeEntry>)
    ensures |r| == |ts| && forall i :: 0 <= i < |ts| ==> r[i] == Advance(ts[i], now)
  {
    seq(|ts|, i requires 0 <= i < |ts| => Advance(ts[i], now))
  }

  /** Whether the rest of the tick after the describe phase runs: not after
      EAGAIN (the tick is abandoned) nor after a fatal error (the loop
      ends). */
  predicate Proceeds(res: PollResult)
  {
    res == Ready || res == Interrupted
  }

  /** The state after one tick that starts in `s`. */
  function TickState(s: Snap, res: PollResult, sec: Now, usec: nat, votes: seq<int>): (r: Snap)
    ensures r.destructors == s.destructors && r.wantExit == s.wantExit && r.canExit == s.canExit
    ensures r.reloads == s.reloads && r.polls == s.polls && r.eachLoop == s.eachLoop
  {
    var s1 := s.(now := sec, usecnow := sec * 1000000 + usec);
    if !Proceeds(res) then s1
    else s1.(timers := AdvanceAll(s.timers, sec),
             reload := s.reload && s.terminate != Running,
             terminate := NextTerminate(s.terminate, AllAgree(votes)))
  }

  /** The calls of the work phases after `poll`: serve (only when `poll`
      succeeded), each-loop hooks and timers, in that order. */
  function WorkTrace(s: Snap, res: PollResult, sec: Now): seq<Event>
  {
    (if res == Ready then Calls(ServePhase, Serves(s.polls)) else [])
    + Calls(EachLoopPhase, s.eachLoop)
    + Calls(TimerPhase, FireTrace(s.timers, sec))
  }

  /** The calls of the control phases that end a tick: reload (only while
      running), want-exit (in state 1) and the can-exit vote (in states 1
      and 2, since state 1 moves to 2 first). */
  function ControlTrace(s: Snap, votes: seq<int>): seq<Event>
    requires |votes| == |s.canExit|
  {
    (if s.terminate == Running && s.reload then Calls(ReloadPhase, s.reloads) else [])
    + (if s.terminate == WantExitIssued then Calls(WantExitPhase, s.wantExit) else [])
    + (if s.terminate == WantExitIssued || s.terminate == Draining
       then Calls(CanExitPhase, s.canExit[..Polled(votes)]) else [])
  }

  /** The calls of the phases after `poll`, in the order the tick makes
      them. */
  function AfterPoll(s: Snap, res: PollResult, sec: Now, votes: seq<int>): seq<Event>
    requires |votes| == |s.canExit|
  {
    WorkTrace(s, res, sec) + ControlTrace(s, votes)
  }

  /** The calls one tick makes. */
  function TickTrace(s: Snap, res: PollResult, sec: Now, votes: seq<int>): seq<Event>
    requires |votes| == |s.canExit|
  {
    Calls(DescribePhase, Descs(s.polls)) + (if Proceeds(res) then AfterPoll(s, res, sec, votes) else [])
  }

  /** The effect of the signals that arrived before a tick: SIGTERM-like
      signals set `terminate` to 1 whatever its value, SIGHUP sets `reload`. */
  function Signals(s: Snap, inp: TickInput): (r: Snap)
    ensures r.canExit == s.canExit
  {
    var s1 := if inp.sigterm then s.(terminate := WantExitIssued) else s;
    if inp.sighup then s1.(reload := true) else s1
  }

  predicate VotesFit(n: nat, inputs: seq<TickInput>)
  {
    forall i :: 0 <= i < |inputs| ==> |inputs[i].votes| == n
  }

  /** The state after one turn of the loop: the signals, then the tick
      unless the loop test finds `terminate == 3`. */
  function TurnState(s: Snap, inp: TickInput): (r: Snap)
    requires |inp.votes| == |s.canExit|
    ensures r.canExit == s.canExit
  {
    var s1 := Signals(s, inp);
    if s1.terminate == Stopped then s1 else TickState(s1, inp.poll, inp.sec, inp.usec, inp.votes)
  }

  /** The calls one turn of the loop makes. */
  function TurnTrace(s: Snap, inp: TickInput): seq<Event>
    requires |inp.votes| == |s.canExit|
  {
    var s1 := Signals(s, inp);
    if s1.terminate == Stopped then [] else TickTrace(s1, inp.poll, inp.sec, inp.votes)
  }

  /** Whether the loop ends in this turn: its test fails, or `poll` failed
      fatally and the loop breaks. */
  predicate TurnEnds(s: Snap, inp: TickInput)
  {
    Signals(s, inp).terminate == Stopped || inp.poll == Fatal
  }

  /** The number of ticks a turn runs: none when the loop test fails. */
  function TurnTicks(s: Snap, inp: TickInput): nat
  {
    if Signals(s, inp).terminate == Stopped then 0 else 1
  }

  /** The event loop over the turns `inputs[from..]`: each turn delivers
      its signals, then the loop test (`terminate != 3`) decides whether a
      tick runs; a fatal poll error ends the loop after the describe phase
      of its tick. Returns the final state, the calls made and the number
      of ticks run. */
  function Loop(s: Snap, inputs: seq<TickInput>, from: nat): (Snap, seq<Event>, nat)
    requires from <= |inputs| && VotesFit(|s.canExit|, inputs)
    decreases |inputs| - from, 2
  {
    if from == |inputs| then (s, [], 0)
    else LoopTest(Signals(s, inputs[from]), inputs, from)
  }

  /** The loop test of turn `from`, after its signals. */
  function LoopTest(s: Snap, inputs: seq<TickInput>, from: nat): (Snap, seq<Event>, nat)
    requires from < |inputs| && VotesFit(|s.canExit|, inputs)
    decreases |inputs| - from, 1
  {
    if s.terminate == Stopped then (s, [], 0)
    else LoopTick(s, inputs, from)
  }

  /** The tick of turn `from`, and the turns after it unless `poll` failed
      fatally. */
  function LoopTick(s: Snap, inputs: seq<TickInput>, from: nat): (Snap, seq<Event>, nat)
    requires from < |inputs| && VotesFit(|s.canExit|, inputs)
    decreases |inputs| - from, 0
  {
    var inp := inputs[from];
    var s2 := TickState(s, inp.poll, inp.sec, inp.usec, inp.votes);
    var t := TickTrace(s, inp.poll, inp.sec, inp.votes);
    if inp.poll == Fatal then (s2, t, 1)
    else
      var rest := Loop(s2, inputs, from + 1);
      (rest.0, t + rest.1, 1 + rest.2)
  }

  /** Appends a run of the loop to what earlier turns produced. */
  function Combine(t: seq<Event>, k: nat, r: (Snap, seq<Event>, nat)): (Snap, seq<Event>, nat)
  {
    (r.0, t + r.1, k + r.2)
  }

  /** A turn that ends the loop is the whole run from there. */
  lemma {:induction false} LoopLastTurn(s: Snap, inputs: seq<TickInput>, i: nat)
    requires i < |inputs| && VotesFit(|s.canExit|, inputs)
    requires TurnEnds(s, inputs[i])
    ensures Loop(s, inputs, i) == (TurnState(s, inputs[i]), TurnTrace(s, inputs[i]), TurnTicks(s, inputs[i]))
  {
    var inp := inputs[i];
    var s1 := Signals(s, inp);
    assert Loop(s, inputs, i) == LoopTest(s1, inputs, i);
    if s1.terminate != Stopped {
      assert LoopTest(s1, inputs, i) == LoopTick(s1, inputs, i);
      assert inp.poll == Fatal;
      assert LoopTick(s1, inputs, i)
             == (TickState(s1, inp.poll, inp.sec, inp.usec, inp.votes), TickTrace(s1, inp.poll, inp.sec, inp.votes), 1);
    }
  }

  lemma {:induction false} CombineLast(trace: seq<Event>, ticks: nat, r: (Snap, seq<Event>, nat), sn: Snap, t: seq<Event>, k: nat)
    requires r == (sn, t, k)
    ensures Combine(trace, ticks, r) == (sn, trace + t, ticks + k)
  {
  }

  /** A turn that does not end the loop is followed by the run from the
      next turn. */
  lemma {:induction false} LoopNextTurn(s: Snap, inputs: seq<TickInput>, i: nat)
    requires i < |inputs| && VotesFit(|s.canExit|, inputs)
    requires !TurnEnds(s, inputs[i])
    ensures Loop(s, inputs, i)
            == Combine(TurnTrace(s, inputs[i]), TurnTicks(s, inputs[i]), Loop(TurnState(s, inputs[i]), inputs, i + 1))
  {
    var inp := inputs[i];
    var s1 := Signals(s, inp);
    assert Loop(s, inputs, i) == LoopTest(s1, inputs, i);
    assert LoopTest(s1, inputs, i) == LoopTick(s1, inputs, i);
    var s2 := TickState(s1, inp.poll, inp.sec, inp.usec, inp.votes);
    var t := TickTrace(s1, inp.poll, inp.sec, inp.votes);
    assert TurnState(s, inp) == s2 && TurnTrace(s, inp) == t && TurnTicks(s, inp) == 1;
    var rest := Loop(s2, inputs, i + 1);
    assert LoopTick(s1, inputs, i) == (rest.0, t + rest.1, 1 + rest.2);
  }

  /** Nothing has run before the first turn. */
  lemma {:induction false} CombineFromStart(r: (Snap, seq<Event>, nat))
    ensures r == Combine([], 0, r)
  {
    assert [] + r.1 == r.1;
  }

  /** No turn is left at the end of the inputs. */
  lemma {:induction false} LoopAtEnd(s: Snap, inputs: seq<TickInput>)
    requires VotesFit(|s.canExit|, inputs)
    ensures Loop(s, inputs, |inputs|) == (s, [], 0)
  {
  }

  lemma {:induction false} CombineNothing(trace: seq<Event>, ticks: nat, r: (Snap, seq<Event>, nat), s: Snap)
    requires r == (s, [], 0)
    ensures Combine(trace, ticks, r) == (s, trace, ticks)
  {
    assert trace + [] == trace;
  }

  lemma {:induction false} CombineTwice(t: seq<Event>, k: nat, t': seq<Event>, k': nat, r: (Snap, seq<Event>, nat))
    ensures Combine(t, k, Combine(t', k', r)) == Combine(t + t', k + k', r)
  {
    assert t + (t' + r.1) == (t + t') + r.1;
  }

  // ---------------------------------------------------------------------
  // The process.

  class Process {
    var destructors: seq<HookId>
    var wantExit: seq<HookId>
    var canExit: seq<HookId>
    var reloads: seq<HookId>
    var polls: seq<PollHook>
    var eachLoop: seq<HookId>
    var timers: seq<TimeEntry>
    var now: Now
    var usecnow: nat
    var terminate: TermState
    var reload: bool
    var sigchld: bool

    function Snapshot(): Snap
      reads this
    {
      Snap(destructors, wantExit, canExit, reloads, polls, eachLoop, timers,
           now, usecnow, terminate, reload, sigchld)
    }

    /** The state at program start: every registry empty, every flag clear. */
    constructor ()
      ensures Snapshot() == Snap([], [], [], [], [], [], [], 0, 0, Running, false, false)
    {
      destructors, wantExit, canExit, reloads := [], [], [], [];
      polls, eachLoop, timers := [], [], [];
      now, usecnow, terminate, reload, sigchld := 0, 0, Running, false, false;
    }

    // -- registration: every call puts its hook at the front -------------

    method DestructRegister(f: HookId)
      modifies this
      ensures Snapshot() == old(Snapshot()).(destructors := [f] + old(destructors))
    {
      destructors := [f] + destructors;
    }

    method CanExitRegister(f: HookId)
      modifies this
      ensures Snapshot() == old(Snapshot()).(canExit := [f] + old(canExit))
    {
      canExit := [f] + canExit;
    }

    method WantExitRegister(f: HookId)
      modifies this
      ensures Snapshot() == old(Snapshot()).(wantExit := [f] + old(wantExit))
    {
      wantExit := [f] + wantExit;
    }

    method ReloadRegister(f: HookId)
      modifies this
      ensures Snapshot() == old(Snapshot()).(reloads := [f] + old(reloads))
    {
      reloads := [f] + reloads;
    }

    method PollRegister(desc: HookId, serve: HookId)
      modifies this
      ensures Snapshot() == old(Snapshot()).(polls := [PollHook(desc, serve)] + old(polls))
    {
      polls := [PollHook(desc, serve)] + polls;
    }

    method EachLoopRegister(f: HookId)
      modifies this
      ensures Snapshot() == old(Snapshot()).(eachLoop := [f] + old(eachLoop))
    {
      eachLoop := [f] + eachLoop;
    }

    /** Registers a timer. A zero period or an offset not below the period is
        ignored; otherwise the new timer goes at the front, first due at the
        earliest instant at or after `now` that is congruent to `offset`. */
    method TimeRegister(mode: TimeMode, seconds: nat, offset: nat, f: HookId)
      requires seconds < UINT32_LIMIT && offset < UINT32_LIMIT
      modifies this
      ensures seconds == 0 || offset >= seconds ==> Snapshot() == old(Snapshot())
      ensures 0 < seconds && offset < seconds ==>
                |timers| == |old(timers)| + 1 && timers[1..] == old(timers)
                && Snapshot() == old(Snapshot()).(timers := timers)
                && timers[0].seconds == seconds && timers[0].mode == mode && timers[0].fun == f
                && timers[0].nextevent % seconds == offset
                && now <= timers[0].nextevent < now + seconds
    {
      if seconds == 0 || offset >= seconds {
        return;
      }
      var ne := FirstEvent(now, seconds, offset);
      timers := [TimeEntry(ne, seconds, mode, f)] + timers;
    }

    // -- signal handlers ---------------------------------------------------

    /** The termination handler: state 1, whatever the state was. */
    method TermHandle()
      modifies this
      ensures Snapshot() == old(Snapshot()).(terminate := WantExitIssued)
    {
      terminate := WantExitIssued;
    }

    method ReloadHandle()
      modifies this
      ensures Snapshot() == old(Snapshot()).(reload := true)
    {
      reload := true;
    }

    /** The child handler. It is defined but never installed: the signal
        set-up ignores SIGCHLD, so no signal between turns calls it. */
    method SigchldHandle()
      modifies this
      ensures Snapshot() == old(Snapshot()).(sigchld := true)
    {
      sigchld := true;
    }

    // -- list walks ----------------------------------------------------------

    /** Asks the can-exit voters in list order; the first that answers 0
        ends the vote with 0. `votes[j]` is the answer of voter j. */
    method CanExit(votes: seq<int>) returns (r: int, polled: seq<HookId>)
      requires |votes| == |canExit|
      ensures r == 1 || r == 0
      ensures r == 1 <==> AllAgree(votes)
      ensures polled == canExit[..Polled(votes)]
    {
      polled := [];
      var i := 0;
      while i < |canExit|
        invariant 0 <= i <= |canExit| && i <= FirstZero(votes)
        invariant polled == canExit[..i]
      {
        polled := polled + [canExit[i]];
        if votes[i] == 0 {
          return 0, polled;
        }
        i := i + 1;
      }
      return 1, polled;
    }

    /** Runs every destructor, from the head of the list. */
    method Destruct() returns (trace: seq<Event>)
      ensures trace == Calls(DestructPhase, destructors)
    {
      trace := Walk(DestructPhase, destructors);
    }

    // -- the event loop ----------------------------------------------------

    /** One turn of the event loop, entered with `terminate != 3`: describe,
        then (unless `poll` failed with EAGAIN or fatally) serve (only if
        `poll` did not fail), each-loop hooks, timers, reload, want-exit and
        the can-exit vote. Reports whether the loop must break. */
    method Tick(res: PollResult, sec: Now, usec: nat, votes: seq<int>) returns (trace: seq<Event>, broke: bool)
      requires terminate != Stopped
      requires usec < 1000000
      requires |votes| == |canExit|
      modifies this
      ensures Snapshot() == TickState(old(Snapshot()), res, sec, usec, votes)
      ensures trace == TickTrace(old(Snapshot()), res, sec, votes)
      ensures broke <==> res == Fatal
    {
      ghost var s := Snapshot();
      trace := Walk(DescribePhase, Descs(polls));
      usecnow := sec * 1000000 + usec;
      now := sec;
      broke := res == Fatal;
      if !Proceeds(res) {
        return;
      }
      var after := AfterPollPhases(res, votes);
      trace := trace + after;
    }

    /** The phases after a `poll` that succeeded or was interrupted. */
    method AfterPollPhases(res: PollResult, votes: seq<int>) returns (trace: seq<Event>)
      requires Proceeds(res) && terminate != Stopped
      requires |votes| == |canExit|
      modifies this
      ensures Snapshot() == old(Snapshot()).(timers := AdvanceAll(old(timers), now),
                                             reload := old(reload) && old(terminate) != Running,
                                             terminate := NextTerminate(old(terminate), AllAgree(votes)))
      ensures trace == AfterPoll(old(Snapshot()), res, now, votes)
    {
      var work := WorkPhases(res);
      var control := ControlPhases(votes);
      trace := work + control;
    }

    /** Serve, each-loop and timer phases. */
    method WorkPhases(res: PollResult) returns (trace: seq<Event>)
      modifies this
      ensures Snapshot() == old(Snapshot()).(timers := AdvanceAll(old(timers), now))
      ensures trace == WorkTrace(old(Snapshot()), res, now)
    {
      var serves: seq<Event> := [];
      if res == Ready {
        serves := Walk(ServePhase, Serves(polls));
      }
      var loops := Walk(EachLoopPhase, eachLoop);
      var ts, fired := RunTimers(timers, now);
      timers := ts;
      trace := serves + loops + Calls(TimerPhase, fired);
    }

    /** Reload, want-exit and can-exit phases. */
    method ControlPhases(votes: seq<int>) returns (trace: seq<Event>)
      requires terminate != Stopped
      requires |votes| == |canExit|
      modifies this
      ensures Snapshot() == old(Snapshot()).(reload := old(reload) && old(terminate) != Running,
                                             terminate := NextTerminate(old(terminate), AllAgree(votes)))
      ensures trace == ControlTrace(old(Snapshot()), votes)
    {
      var rl: seq<Event> := [];
      if terminate == Running && reload {
        rl := Walk(ReloadPhase, reloads);
        reload := false;
      }
      var we: seq<Event> := [];
      if terminate == WantExitIssued {
        we := Walk(WantExitPhase, wantExit);
        terminate := Draining;
      }
      var ce: seq<Event> := [];
      if terminate == Draining {
        var all, polled := Vote(canExit, votes);
        ce := Calls(CanExitPhase, polled);
        if all {
          terminate := Stopped;
        }
      }
      trace := rl + we + ce;
    }

    /** One turn of the event loop: the signals that arrived, the loop test
        and, unless it fails, one tick. */
    method Turn(inp: TickInput) returns (t: seq<Event>, ends: bool, ticked: nat)
      requires |inp.votes| == |canExit| && inp.usec < 1000000
      modifies this
      ensures Snapshot() == TurnState(old(Snapshot()), inp)
      ensures t == TurnTrace(old(Snapshot()), inp)
      ensures ends == TurnEnds(old(Snapshot()), inp) && ticked == TurnTicks(old(Snapshot()), inp)
    {
      if inp.sigterm {
        TermHandle();
      }
      if inp.sighup {
        ReloadHandle();
      }
      if terminate == Stopped {
        return [], true, 0;
      }
      var broke;
      t, broke := Tick(inp.poll, inp.sec, inp.usec, inp.votes);
      return t, broke, 1;
    }

    /** Turn `i` of the event loop, stated as a step of Loop: when it ends
        the loop it completes the run from `i`; otherwise the run from `i`
        is this turn followed by the run from `i + 1`. */
    method LoopTurn(inputs: seq<TickInput>, i: nat) returns (t: seq<Event>, ends: bool, ticked: nat)
      requires i < |inputs| && VotesFit(|canExit|, inputs) && inputs[i].usec < 1000000
      modifies this
      ensures canExit == old(canExit)
      ensures ends ==> Loop(old(Snapshot()), inputs, i) == (Snapshot(), t, ticked)
      ensures !ends ==> Loop(old(Snapshot()), inputs, i) == Combine(t, ticked, Loop(Snapshot(), inputs, i + 1))
    {
      ghost var sp := Snapshot();
      t, ends, ticked := Turn(inputs[i]);
      if ends {
        LoopLastTurn(sp, inputs, i);
      } else {
        LoopNextTurn(sp, inputs, i);
      }
    }

    /** The event loop over the given turns (turns are taken from `inputs`
        until the loop ends or the turns run out). */
    method MainLoop(inputs: seq<TickInput>) returns (trace: seq<Event>, ticks: nat)
      requires VotesFit(|canExit|, inputs)
      requires forall i :: 0 <= i < |inputs| ==> inputs[i].usec < 1000000
      modifies this
      ensures (Snapshot(), trace, ticks) == Loop(old(Snapshot()), inputs, 0)
    {
      ghost var s0 := Snapshot();
      ghost var whole := Loop(s0, inputs, 0);
      trace, ticks := [], 0;
      var i := 0;
      CombineFromStart(whole);
      while i < |inputs|
        invariant 0 <= i <= |inputs| && canExit == s0.canExit
        invariant whole == Combine(trace, ticks, Loop(Snapshot(), inputs, i))
      {
        ghost var rest := Loop(Snapshot(), inputs, i);
        var t, ends, k := LoopTurn(inputs, i);
        if ends {
          CombineLast(trace, ticks, rest, Snapshot(), t, k);
          trace, ticks := trace + t, ticks + k;
          return;
        }
        CombineTwice(trace, ticks, t, k, Loop(Snapshot(), inputs, i + 1));
        trace, ticks := trace + t, ticks + k;
        i := i + 1;
      }
      LoopAtEnd(Snapshot(), inputs);
      CombineNothing(trace, ticks, Loop(Snapshot(), inputs, i), Snapshot());
    }

    /** Sets the clock and runs the init table. */
    method Initialize(tab: seq<InitEntry>, results: seq<int>, clock: Now) returns (ok: bool, ran: seq<HookId>)
      requires Terminated(tab) && |results| == |tab|
      modifies this
      ensures Snapshot() == old(Snapshot()).(now := clock)
      ensures ok <==> forall j :: 0 <= j < TableEnd(tab) ==> results[j] >= 0
      ensures ok ==> ran == Fns(tab, TableEnd(tab))
      ensures !ok ==> ran == Fns(tab, FirstFailure(results, TableEnd(tab)) + 1)
    {
      now := clock;
      var failed;
      ok, ran, failed := RunInit(tab, results);
    }
  }

  /** Walks a list from its head, calling every hook in phase `p`. */
  method Walk(p: Phase, hs: seq<HookId>) returns (t: seq<Event>)
    ensures t == Calls(p, hs)
  {
    t := [];
    var i := 0;
    while i < |hs|
      invariant 0 <= i <= |hs|
      invariant t == Calls(p, hs[..i])
    {
      t := t + [Call(p, hs[i])];
      i := i + 1;
    }
    assert hs[..i] == hs;
  }

  // ---------------------------------------------------------------------
  // What a tick and the loop promise.

  /** EAGAIN abandons the tick after the describe phase: nothing else runs
      and only the clock moves. */
  lemma {:induction false} EAgainSkipsTick(s: Snap, sec: Now, usec: nat, votes: seq<int>)
    requires |votes| == |s.canExit|
    ensures TickTrace(s, EAgain, sec, votes) == Calls(DescribePhase, Descs(s.polls))
    ensures var r := TickState(s, EAgain, sec, usec, votes);
            r.timers == s.timers && r.terminate == s.terminate && r.reload == s.reload && r.now == sec
  {
    assert TickTrace(s, EAgain, sec, votes) == Calls(DescribePhase, Descs(s.polls)) + [];
  }

  /** EINTR skips only the serve phase: an interrupted tick ends in the
      same state as a successful one. */
  lemma {:induction false} InterruptSameState(s: Snap, sec: Now, usec: nat, votes: seq<int>)
    ensures TickState(s, Interrupted, sec, usec, votes) == TickState(s, Ready, sec, usec, votes)
  {
  }

  /** An interrupted tick calls no serve hook. */
  lemma {:induction false} InterruptServesNothing(s: Snap, sec: Now, votes: seq<int>)
    requires |votes| == |s.canExit|
    ensures NoneIn(ServePhase, TickTrace(s, Interrupted, sec, votes))
  {
    var d := Calls(DescribePhase, Descs(s.polls));
    var w := WorkTrace(s, Interrupted, sec);
    var c := ControlTrace(s, votes);
    ServeOnlyDifference(s, sec);
    assert TickTrace(s, Interrupted, sec, votes) == d + (w + c);
    CallsIn(DescribePhase, ServePhase, Descs(s.polls));
    ControlNone(s, votes, ServePhase);
    NoneInConcat(ServePhase, w, c);
    NoneInConcat(ServePhase, d, w + c);
  }

  /** A successful tick differs from an interrupted one only by the serve
      calls right after the describe phase. */
  lemma {:induction false} ReadyAddsServes(s: Snap, sec: Now, votes: seq<int>)
    requires |votes| == |s.canExit|
    ensures TickTrace(s, Ready, sec, votes)
            == Calls(DescribePhase, Descs(s.polls)) + Calls(ServePhase, Serves(s.polls))
               + TickTrace(s, Interrupted, sec, votes)[|s.polls|..]
  {
    var d := Calls(DescribePhase, Descs(s.polls));
    var sv := Calls(ServePhase, Serves(s.polls));
    var w := WorkTrace(s, Interrupted, sec);
    var c := ControlTrace(s, votes);
    ServeOnlyDifference(s, sec);
    assert TickTrace(s, Interrupted, sec, votes) == d + (w + c);
    assert TickTrace(s, Ready, sec, votes) == d + ((sv + w) + c);
    DropFront(d, w + c);
    Regroup(d, sv, w, c);
  }

  lemma {:induction false} DropFront<T>(a: seq<T>, b: seq<T>)
    ensures (a + b)[|a|..] == b
  {
  }

  lemma {:induction false} Regroup<T>(a: seq<T>, b: seq<T>, c: seq<T>, d: seq<T>)
    ensures a + ((b + c) + d) == a + b + (c + d)
  {
  }

  /** The work phases of a successful and an interrupted tick differ only by
      the leading serve calls. */
  lemma {:induction false} ServeOnlyDifference(s: Snap, sec: Now)
    ensures WorkTrace(s, Ready, sec) == Calls(ServePhase, Serves(s.polls)) + WorkTrace(s, Interrupted, sec)
    ensures NoneIn(ServePhase, WorkTrace(s, Interrupted, sec))
  {
    var e := Calls(EachLoopPhase, s.eachLoop);
    var f := Calls(TimerPhase, FireTrace(s.timers, sec));
    assert WorkTrace(s, Interrupted, sec) == e + f;
    CallsIn(EachLoopPhase, ServePhase, s.eachLoop);
    CallsIn(TimerPhase, ServePhase, FireTrace(s.timers, sec));
    NoneInConcat(ServePhase, e, f);
  }

  /** The control phases call no hook of any other phase. */
  lemma {:induction false} ControlNone(s: Snap, votes: seq<int>, p: Phase)
    requires |votes| == |s.canExit|
    requires p != ReloadPhase && p != WantExitPhase && p != CanExitPhase
    ensures NoneIn(p, ControlTrace(s, votes))
  {
    var r := if s.terminate == Running && s.reload then Calls(ReloadPhase, s.reloads) else [];
    var w := if s.terminate == WantExitIssued then Calls(WantExitPhase, s.wantExit) else [];
    var v := if s.terminate == WantExitIssued || s.terminate == Draining
             then Calls(CanExitPhase, s.canExit[..Polled(votes)]) else [];
    assert ControlTrace(s, votes) == r + w + v;
    CallsIn(ReloadPhase, p, s.reloads);
    CallsIn(WantExitPhase, p, s.wantExit);
    CallsIn(CanExitPhase, p, s.canExit[..Polled(votes)]);
    NoneInConcat(p, r, w);
    NoneInConcat(p, r + w, v);
  }

  /** The calls of phase `p` a tick makes when `p` is one of the control
      phases: exactly those of the control trace. */
  lemma {:induction false} ControlOnly(s: Snap, res: PollResult, sec: Now, votes: seq<int>, p: Phase)
    requires |votes| == |s.canExit|
    requires p == ReloadPhase || p == WantExitPhase || p == CanExitPhase
    ensures NoneIn(p, TickTrace(s, res, sec, votes)) <==> !Proceeds(res) || NoneIn(p, ControlTrace(s, votes))
  {
    var d := Calls(DescribePhase, Descs(s.polls));
    var sv := if res == Ready then Calls(ServePhase, Serves(s.polls)) else [];
    var e := Calls(EachLoopPhase, s.eachLoop);
    var f := Calls(TimerPhase, FireTrace(s.timers, sec));
    CallsIn(DescribePhase, p, Descs(s.polls));
    CallsIn(ServePhase, p, Serves(s.polls));
    CallsIn(EachLoopPhase, p, s.eachLoop);
    CallsIn(TimerPhase, p, FireTrace(s.timers, sec));
    NoneInConcat(p, sv, e);
    NoneInConcat(p, sv + e, f);
    if Proceeds(res) {
      assert TickTrace(s, res, sec, votes) == d + (WorkTrace(s, res, sec) + ControlTrace(s, votes));
      NoneInConcat(p, WorkTrace(s, res, sec), ControlTrace(s, votes));
      NoneInConcat(p, d, WorkTrace(s, res, sec) + ControlTrace(s, votes));
    } else {
      assert TickTrace(s, res, sec, votes) == d + [];
    }
  }

  /** The calls of phase `p` that the control trace holds, phase by phase. */
  lemma {:induction false} ControlPhasesIn(s: Snap, votes: seq<int>)
    requires |votes| == |s.canExit|
    ensures !NoneIn(ReloadPhase, ControlTrace(s, votes)) <==> s.terminate == Running && s.reload && s.reloads != []
    ensures !NoneIn(WantExitPhase, ControlTrace(s, votes)) <==> s.terminate == WantExitIssued && s.wantExit != []
    ensures !NoneIn(CanExitPhase, ControlTrace(s, votes)) ==> s.terminate == WantExitIssued || s.terminate == Draining
  {
    var r := if s.terminate == Running && s.reload then Calls(ReloadPhase, s.reloads) else [];
    var w := if s.terminate == WantExitIssued then Calls(WantExitPhase, s.wantExit) else [];
    var v := if s.terminate == WantExitIssued || s.terminate == Draining
             then Calls(CanExitPhase, s.canExit[..Polled(votes)]) else [];
    assert ControlTrace(s, votes) == r + w + v;
    forall p | p == ReloadPhase || p == WantExitPhase || p == CanExitPhase
      ensures NoneIn(p, ControlTrace(s, votes)) <==> NoneIn(p, r) && NoneIn(p, w) && NoneIn(p, v)
    {
      NoneInConcat(p, r, w);
      NoneInConcat(p, r + w, v);
    }
    CallsIn(ReloadPhase, ReloadPhase, s.reloads);
    CallsIn(ReloadPhase, WantExitPhase, s.reloads);
    CallsIn(ReloadPhase, CanExitPhase, s.reloads);
    CallsIn(WantExitPhase, ReloadPhase, s.wantExit);
    CallsIn(WantExitPhase, WantExitPhase, s.wantExit);
    CallsIn(WantExitPhase, CanExitPhase, s.wantExit);
    CallsIn(CanExitPhase, ReloadPhase, s.canExit[..Polled(votes)]);
    CallsIn(CanExitPhase, WantExitPhase, s.canExit[..Polled(votes)]);
  }

  /** Reload hooks run, and the reload request is consumed, only while the
      process is running; once termination has begun a pending reload stays
      pending and never runs. */
  lemma {:induction false} ReloadOnlyWhileRunning(s: Snap, res: PollResult, sec: Now, usec: nat, votes: seq<int>)
    requires |votes| == |s.canExit|
    ensures !NoneIn(ReloadPhase, TickTrace(s, res, sec, votes)) <==>
              Proceeds(res) && s.terminate == Running && s.reload && s.reloads != []
    ensures Proceeds(res) ==> (TickState(s, res, sec, usec, votes).reload <==> s.reload && s.terminate != Running)
    ensures !Proceeds(res) ==> TickState(s, res, sec, usec, votes).reload == s.reload
  {
    ControlOnly(s, res, sec, votes, ReloadPhase);
    ControlPhasesIn(s, votes);
  }

  /** In state 1 every want-exit hook runs in the tick, which then goes on
      to the vote of state 2 at once; in states 1 and 2 the tick stops the
      process exactly when the vote is unanimous. Want-exit hooks run in no
      other state. */
  lemma {:induction false} WantExitThenVote(s: Snap, res: PollResult, sec: Now, usec: nat, votes: seq<int>)
    requires |votes| == |s.canExit|
    ensures !NoneIn(WantExitPhase, TickTrace(s, res, sec, votes)) <==>
              Proceeds(res) && s.terminate == WantExitIssued && s.wantExit != []
    ensures Proceeds(res) && (s.terminate == WantExitIssued || s.terminate == Draining) ==>
              (TickState(s, res, sec, usec, votes).terminate == Stopped <==> AllAgree(votes))
              && (TickState(s, res, sec, usec, votes).terminate == Draining <==> !AllAgree(votes))
    ensures !NoneIn(CanExitPhase, TickTrace(s, res, sec, votes)) ==>
              s.terminate == WantExitIssued || s.terminate == Draining
  {
    ControlOnly(s, res, sec, votes, WantExitPhase);
    ControlOnly(s, res, sec, votes, CanExitPhase);
    ControlPhasesIn(s, votes);
  }

  /** After a tick that passed `poll`, every timer is due strictly in the
      future. */
  lemma {:induction false} TimersAheadAfterTick(s: Snap, res: PollResult, sec: Now, usec: nat, votes: seq<int>)
    requires Proceeds(res)
    ensures var ts := TickState(s, res, sec, usec, votes).timers;
            |ts| == |s.timers| &&
            forall i :: 0 <= i < |ts| ==> sec < ts[i].nextevent && s.timers[i].nextevent <= ts[i].nextevent
  {
    forall i | 0 <= i < |s.timers|
      ensures sec < Advance(s.timers[i], sec).nextevent
      ensures s.timers[i].nextevent <= Advance(s.timers[i], sec).nextevent
    {
      if sec >= s.timers[i].nextevent {
        CatchUpIsLeastAbove(s.timers[i].nextevent, s.timers[i].seconds, sec);
      }
    }
  }

  /** Once termination has begun, the process never returns to running and
      never reloads, however many turns and signals follow. */
  lemma {:induction false} NeverBackToRunning(s: Snap, inputs: seq<TickInput>, from: nat)
    requires from <= |inputs| && VotesFit(|s.canExit|, inputs)
    requires s.terminate != Running
    ensures Loop(s, inputs, from).0.terminate != Running
    ensures NoneIn(ReloadPhase, Loop(s, inputs, from).1)
    decreases |inputs| - from
  {
    if from < |inputs| {
      var inp := inputs[from];
      var s1 := Signals(s, inp);
      assert s1.terminate != Running;
      if s1.terminate != Stopped {
        ControlOnly(s1, inp.poll, inp.sec, inp.votes, ReloadPhase);
        ControlPhasesIn(s1, inp.votes);
      }
      var s2 := TurnState(s, inp);
      assert NoneIn(ReloadPhase, TurnTrace(s, inp));
      if !TurnEnds(s, inp) {
        LoopNextTurn(s, inputs, from);
        NeverBackToRunning(s2, inputs, from + 1);
        NoneInConcat(ReloadPhase, TurnTrace(s, inp), Loop(s2, inputs, from + 1).1);
      } else {
        LoopLastTurn(s, inputs, from);
      }
    }
  }

  /** The loop stops before its turns run out only because the process
      reached state 3 or `poll` failed fatally in the last tick it ran. */
  lemma {:induction false} LoopEndsOnlyWhenStoppedOrFatal(s: Snap, inputs: seq<TickInput>, from: nat)
    requires from <= |inputs| && VotesFit(|s.canExit|, inputs)
    ensures var r := Loop(s, inputs, from);
            r.2 < |inputs| - from ==> r.0.terminate == Stopped || (0 < r.2 && inputs[from + r.2 - 1].poll == Fatal)
    decreases |inputs| - from
  {
    if from < |inputs| {
      var inp := inputs[from];
      if TurnEnds(s, inp) {
        LoopLastTurn(s, inputs, from);
        assert TurnTicks(s, inp) == 0 ==> TurnState(s, inp).terminate == Stopped;
      } else {
        LoopNextTurn(s, inputs, from);
        assert TurnTicks(s, inp) == 1;
        LoopEndsOnlyWhenStoppedOrFatal(TurnState(s, inp), inputs, from + 1);
      }
    }
  }

  /** A termination signal arriving after the vote has stopped the process,
      or while it drains, sends it back to state 1: the loop goes on and the
      want-exit hooks run again. */
  lemma {:induction false} LateSignalReopensShutdown(s: Snap, inp: TickInput)
    requires |inp.votes| == |s.canExit|
    requires s.terminate == Stopped || s.terminate == Draining
    requires inp.sigterm && Proceeds(inp.poll) && s.wantExit != []
    ensures !TurnEnds(s, inp)
    ensures !NoneIn(WantExitPhase, TurnTrace(s, inp))
  {
    var s1 := Signals(s, inp);
    assert s1.terminate == WantExitIssued && s1.wantExit == s.wantExit;
    WantExitThenVote(s1, inp.poll, inp.sec, inp.usec, inp.votes);
  }
}
