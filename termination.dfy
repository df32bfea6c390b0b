/**
 * The termination state machine and the can-exit vote. The state is the
 * skeleton's `terminate` integer: 0 running, 1 want-exit issued, 2 draining,
 * 3 fully stopped.
 */
module Termination {
  import opened Hooks

  type TermState = t: int | 0 <= t <= 3

  const Running: TermState := 0
  const WantExitIssued: TermState := 1
  const Draining: TermState := 2
  const Stopped: TermState := 3

  /** The index of the first zero (veto) among the votes, or |votes| when
      every vote is affirmative. */
  function FirstZero(votes: seq<int>): (k: nat)
    ensures k <= |votes|
    ensures forall j :: 0 <= j < k ==> votes[j] != 0
    ensures k < |votes| ==> votes[k] == 0
  {
    if votes == [] then 0
    else if votes[0] == 0 then 0
    else 1 + FirstZero(votes[1..])
  }

  /** How many voters are asked before the vote is decided: everyone up to
      and including the first veto. */
  function Polled(votes: seq<int>): (n: nat)
    ensures n <= |votes|
  {
    if FirstZero(votes) < |votes| then FirstZero(votes) + 1 else |votes|
  }

  /** Unanimity: every voter answers nonzero. */
  predicate AllAgree(votes: seq<int>)
  {
    forall j :: 0 <= j < |votes| ==> votes[j] != 0
  }

  /** The vote of the draining phase: voters are asked in list order, and
      asking stops at the first one that answers 0. `votes[j]` is what the
      voter at position j would answer this tick. */
  method Vote(voters: seq<HookId>, votes: seq<int>) returns (all: bool, polled: seq<HookId>)
    requires |votes| == |voters|
    ensures all <==> AllAgree(votes)
    ensures polled == voters[..Polled(votes)]
  {
    var i := 0;
    all := true;
    polled := [];
    while i < |voters| && all
      invariant 0 <= i <= |voters|
      invariant all ==> i <= FirstZero(votes)
      invariant !all ==> i == FirstZero(votes) + 1
      invariant polled == voters[..i]
    {
      polled := polled + [voters[i]];
      if votes[i] == 0 {
        all := false;
      }
      i := i + 1;
    }
  }

  /** The state after the reload, want-exit and draining phases of one tick,
      given whether this tick's vote (if one is held) is unanimous. State 1
      moves to 2 and then votes in the same tick. */
  function NextTerminate(t: TermState, unanimous: bool): (t': TermState)
    ensures t == Running ==> t' == Running
    ensures t != Running ==> (t' == Stopped <==> unanimous || t == Stopped)
    ensures t != Running && t != Stopped && !unanimous ==> t' == Draining
  {
    if t == Running then Running
    else if t == Stopped then Stopped
    else if unanimous then Stopped
    else Draining
  }

  /** The state after several draining ticks whose votes were `outcomes`
      (true = unanimous). */
  function DrainAll(t: TermState, outcomes: seq<bool>): TermState
    decreases |outcomes|
  {
    if outcomes == [] then t else DrainAll(NextTerminate(t, outcomes[0]), outcomes[1..])
  }

  /** k consecutive vetoed draining ticks. */
  function Vetoes(k: nat): (v: seq<bool>)
    ensures |v| == k
    ensures forall i :: 0 <= i < k ==> !v[i]
  {
    seq(k, _ => false)
  }

  /** A voter that vetoes for k ticks and then agrees keeps a draining process
      in state 2 for exactly those k ticks; it stops on the next one. */
  lemma {:induction false} VetoesDelayStop(t: TermState, k: nat)
    requires t == WantExitIssued || t == Draining
    ensures forall n :: 0 < n <= k ==> DrainAll(t, Vetoes(n)) == Draining
    ensures DrainAll(t, Vetoes(k) + [true]) == Stopped
    decreases k
  {
    if k == 0 {
      assert Vetoes(0) + [true] == [true];
      assert DrainAll(t, [true]) == DrainAll(Stopped, []);
    } else {
      VetoesDelayStop(Draining, k - 1);
      forall n | 0 < n <= k
        ensures DrainAll(t, Vetoes(n)) == Draining
      {
        assert Vetoes(n)[1..] == Vetoes(n - 1);
        assert DrainAll(t, Vetoes(n)) == DrainAll(Draining, Vetoes(n - 1));
      }
      assert (Vetoes(k) + [true])[1..] == Vetoes(k - 1) + [true];
    }
  }
}
