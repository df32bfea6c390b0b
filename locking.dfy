/**
 * The process-singleton lock on the working directory's lock file, and the
 * takeover protocol that evicts a running predecessor. The `fcntl` and
 * `kill` system calls are an oracle: the model is given, in order, what each
 * lock attempt observed and whether each signal was delivered. When the
 * oracle runs out before a decision, the result is `Pending` (in the source
 * the process would still be waiting).
 */
module Locking {
  import opened Hooks
  import opened Timers


  /** The run mode chosen on the command line (RM_RESTART, RM_START, RM_STOP). */
  datatype RunMode = Restart | Start | Stop

  /** What one pass of the lock attempt observes: the set-lock call succeeded;
      it failed with an error other than "already locked"; the lock-query
      call failed; the query reported a write lock held by `pid`; or the query
      found the lock released again in between (the attempt is repeated). */
  datatype LockObs = Acquired | SetError | QueryError | HeldBy(pid: int) | Released

  /** The value the source's lock attempt returns for a deciding observation:
      0 when the lock was set, -1 on an error, the reported owner pid
      otherwise. */
  function RawCode(o: LockObs): int
    requires !o.Released?
  {
    match o
    case Acquired => 0
    case SetError => -1
    case QueryError => -1
    case HeldBy(p) => p
  }

  /** The corrected value: a holder whose reported pid is not positive cannot
      be signalled, and is reported as an error rather than as success. */
  function CheckedCode(o: LockObs): (r: int)
    requires !o.Released?
    ensures r == 0 <==> o.Acquired?
    ensures r > 0 <==> o.HeldBy? && o.pid > 0
    ensures r > 0 ==> r == o.pid
    ensures r < 0 ==> r == -1
  {
    match o
    case Acquired => 0
    case SetError => -1
    case QueryError => -1
    case HeldBy(p) => if p > 0 then p else -1
  }

  /** A lock held by a process whose pid the query cannot report (reported as
      0, as for a holder outside the caller's PID namespace) reads, as
      written, exactly like a lock that was just acquired. */
  lemma {:induction false} HiddenOwnerReadsAsAcquired()
    ensures RawCode(HeldBy(0)) == RawCode(Acquired) == 0
    ensures CheckedCode(HeldBy(0)) == -1 && CheckedCode(Acquired) == 0
  {
  }

  /** What one lock attempt returns, as the source writes it, reading
      observations from position `pos`, with the observations it consumed.
      After a pass whose query found the lock released, the query has
      already turned the request into an unlock request; the next set-lock
      call therefore releases a lock this process does not hold, which
      always succeeds, and the attempt returns 0 as if it had set the lock.
      None when the observations run out first. */
  function LockAttemptAsWritten(obs: seq<LockObs>, pos: nat): (a: (Option<int>, nat))
    requires pos <= |obs|
    ensures pos <= a.1 <= |obs|
    ensures a.0.None? <==> pos == |obs|
  {
    if pos == |obs| then (None, pos)
    else if obs[pos].Released? then (Some(0), pos + 1)
    else (Some(RawCode(obs[pos])), pos + 1)
  }

  /** The lock attempt as intended: a pass that found the lock released is
      repeated with a fresh write-lock request, and a holder whose pid is not
      positive is an error. None when the observations run out first. */
  function LockAttempt(obs: seq<LockObs>, pos: nat): (a: (Option<int>, nat))
    requires pos <= |obs|
    ensures pos <= a.1 <= |obs|
    ensures forall k :: pos <= k < a.1 - 1 ==> obs[k].Released?
    ensures a.0.None? ==> a.1 == |obs| && forall k :: pos <= k < |obs| ==> obs[k].Released?
    ensures a.0.Some? ==> pos < a.1 && !obs[a.1 - 1].Released? && a.0.value == CheckedCode(obs[a.1 - 1])
    decreases |obs| - pos
  {
    if pos == |obs| then (None, pos)
    else if obs[pos].Released? then LockAttempt(obs, pos + 1)
    else (Some(CheckedCode(obs[pos])), pos + 1)
  }

  /** A pass that finds the lock released in between makes the attempt, as
      written, report success without setting the lock; as intended, the
      attempt goes on and reports the holder it finds next. */
  lemma {:induction false} ReleasedReadsAsAcquired()
    ensures LockAttemptAsWritten([Released, HeldBy(5)], 0) == (Some(0), 1)
    ensures LockAttempt([Released, HeldBy(5)], 0) == (Some(5), 2)
  {
  }

  /** The lock attempt exactly as the source writes it: `unlocking` is the
      request of the lock structure having been turned into an unlock. */
  method MyLockAsWritten(obs: seq<LockObs>, pos: nat) returns (r: Option<int>, next: nat)
    requires pos <= |obs|
    ensures (r, next) == LockAttemptAsWritten(obs, pos)
  {
    var unlocking := false;
    next := pos;
    while true
      invariant !unlocking ==> next == pos
      invariant unlocking ==> next == pos + 1 && pos < |obs| && obs[pos].Released?
      decreases if unlocking then 0 else 1
    {
      if unlocking {
        // releasing a lock this process does not hold succeeds
        return Some(0), next;
      }
      if next == |obs| {
        return None, next;
      }
      var o := obs[next];
      next := next + 1;
      if !o.Released? {
        return Some(RawCode(o)), next;
      }
      unlocking := true;
    }
  }

  /** The lock attempt as intended (see `LockAttempt`). */
  method MyLock(obs: seq<LockObs>, pos: nat) returns (r: Option<int>, next: nat)
    requires pos <= |obs|
    ensures (r, next) == LockAttempt(obs, pos)
  {
    next := pos;
    while next < |obs|
      invariant pos <= next <= |obs|
      invariant LockAttempt(obs, next) == LockAttempt(obs, pos)
    {
      var o := obs[next];
      next := next + 1;
      if !o.Released? {
        return Some(CheckedCode(o)), next;
      }
    }
    r := None;
  }

  datatype Option<T> = None | Some(value: T)

  /** Why the takeover gave up: the lock file could not be created; a lock
      call failed; start mode found a live owner; a signal could not be
      delivered; the owner did not let go within the timeout. */
  datatype LockFailure = CannotCreate | LockError | AlreadyLocked | KillFailed | TimedOut

  /** Outcome of the takeover: the lock is ours (the source returns 0), the
      takeover failed (the source returns -1), or the oracle ran out first. */
  datatype LockOutcome = Locked | Failed(why: LockFailure) | Pending

  function Max(a: int, b: int): int { if a < b then b else a }

  /** The pids in `s`, each run of repeats collapsed to one: whom the
      takeover signals when it observed the owners `s` in turn. */
  function Changes(s: seq<int>): (c: seq<int>)
    ensures |c| <= |s|
    ensures s != [] ==> c != [] && c[|c| - 1] == s[|s| - 1]
  {
    if s == [] then []
    else if |s| > 1 && s[|s| - 1] == s[|s| - 2] then Changes(s[..|s| - 1])
    else Changes(s[..|s| - 1]) + [s[|s| - 1]]
  }

  lemma {:induction false} ChangesStep(s: seq<int>, p: int)
    requires s != []
    ensures Changes(s + [p]) == if p == s[|s| - 1] then Changes(s) else Changes(s) + [p]
  {
    assert (s + [p])[..|s|] == s;
  }

  /** The poll counts 10, 20, ... up to n at which progress is reported. */
  function Tens(n: nat): (t: seq<nat>)
  {
    if n == 0 then [] else Tens(n - 1) + (if n % 10 == 0 then [n] else [])
  }

  /** Every reported count is a positive multiple of ten, at most n, in
      increasing order. */
  lemma {:induction false} TensAreMultiples(n: nat)
    ensures forall i :: 0 <= i < |Tens(n)| ==> Tens(n)[i] % 10 == 0 && 0 < Tens(n)[i] <= n
    ensures forall i, j :: 0 <= i < j < |Tens(n)| ==> Tens(n)[i] < Tens(n)[j]
    ensures |Tens(n)| == n / 10
  {
    if n > 0 {
      TensAreMultiples(n - 1);
    }
  }

  /** The positive owner pids the observations in [a, b) report, in order. */
  function Held(obs: seq<LockObs>, a: nat, b: nat): seq<int>
    requires a <= b <= |obs|
    decreases b - a
  {
    if a == b then []
    else Held(obs, a, b - 1) + (if obs[b - 1].HeldBy? && obs[b - 1].pid > 0 then [obs[b - 1].pid] else [])
  }

  lemma {:induction false} HeldSkipsReleased(obs: seq<LockObs>, a: nat, b: nat, c: nat)
    requires a <= b <= c <= |obs|
    requires forall k :: b <= k < c ==> obs[k].Released?
    ensures Held(obs, a, c) == Held(obs, a, b)
    decreases c - b
  {
    if b < c {
      HeldSkipsReleased(obs, a, b, c - 1);
    }
  }

  lemma {:induction false} HeldSplit(obs: seq<LockObs>, a: nat, b: nat, c: nat)
    requires a <= b <= c <= |obs|
    ensures Held(obs, a, c) == Held(obs, a, b) + Held(obs, b, c)
    decreases c - b
  {
    if b < c {
      HeldSplit(obs, a, b, c - 1);
    }
  }

  /** An observation after which the takeover goes on polling: the lock was
      found released in between, or held by a process it can signal. */
  predicate Passing(o: LockObs)
  {
    o.Released? || (o.HeldBy? && o.pid > 0)
  }

  /** An observation on which a lock attempt reports an error. */
  predicate Refused(o: LockObs)
  {
    !o.Released? && CheckedCode(o) < 0
  }

  /** The bookkeeping of the waiting loop: the owners reported so far, the
      pids signalled, the count of polls that found the lock held, the
      progress reports, the observations consumed, the signals sent and the
      current owner. */
  datatype Wait = Wait(seen: seq<int>, signalled: seq<int>, polls: nat, progress: seq<nat>,
                       used: nat, kc: nat, owner: int)

  /** The bookkeeping when the waiting loop is entered, after the first
      signal reached `owner`, observed before position `pos`. */
  function StartWait(pos: nat, owner: int): Wait
  {
    Wait([owner], [owner], 0, [], pos, 1, owner)
  }

  /** The result of one poll: the loop decides, or goes on. */
  datatype PollStep = Decides(outcome: LockOutcome, w: Wait) | Continues(w: Wait)

  /** The bookkeeping after a poll that found the lock held by `p`, before
      any signal is sent: the poll is counted, reported if it is a tenth one,
      and `p` is signalled if it is not the owner signalled last. */
  function Counted(w: Wait, p: int): Wait
  {
    w.(seen := w.seen + [p], polls := w.polls + 1,
       progress := if (w.polls + 1) % 10 == 0 then w.progress + [w.polls + 1] else w.progress,
       signalled := if p == w.owner then w.signalled else w.signalled + [p])
  }

  /** A poll that found the lock held by `p`: count it; give up once the count
      reaches the timeout; otherwise, if `p` is not the owner signalled last,
      signal it with the next signal outcome. */
  function HeldStep(w: Wait, p: int, timeout: nat, kills: seq<bool>): (s: PollStep)
    ensures s.w.used == w.used
  {
    if w.polls + 1 >= timeout then
      Decides(Failed(TimedOut), w.(seen := w.seen + [p], polls := w.polls + 1))
    else if p == w.owner then Continues(Counted(w, p))
    else if w.kc >= |kills| then Decides(Pending, Counted(w, p))
    else if !kills[w.kc] then Decides(Failed(KillFailed), Counted(w, p))
    else Continues(Counted(w, p).(owner := p, kc := w.kc + 1))
  }

  /** One pass of the waiting loop: a lock attempt, then `HeldStep` if the
      lock is still held. */
  function PollStepOf(w: Wait, timeout: nat, obs: seq<LockObs>, kills: seq<bool>): (s: PollStep)
    requires w.used <= |obs|
    ensures s.w.used <= |obs|
    ensures s.Continues? ==> w.used < s.w.used
  {
    var a := LockAttempt(obs, w.used);
    var w1 := w.(used := a.1);
    if a.0.None? then Decides(Pending, w1)
    else if a.0.value < 0 then Decides(Failed(LockError), w1)
    else if a.0.value == 0 then Decides(Locked, w1)
    else HeldStep(w1, a.0.value, timeout, kills)
  }

  /** The waiting loop: poll until a pass decides. */
  function WaitRef(w: Wait, timeout: nat, obs: seq<LockObs>, kills: seq<bool>): (LockOutcome, Wait)
    requires w.used <= |obs|
    decreases |obs| - w.used
  {
    match PollStepOf(w, timeout, obs, kills)
    case Decides(o, w') => (o, w')
    case Continues(w') => WaitRef(w', timeout, obs, kills)
  }

  /** The counters agree with the owners reported: one poll per report after
      the first, a signal per change of owner, progress every ten polls. */
  predicate Tally(w: Wait)
  {
    && w.polls == |w.seen| - 1
    && w.signalled == Changes(w.seen)
    && w.progress == Tens(w.polls)
  }

  /** Every signal sent so far was delivered, one signal outcome each. */
  predicate Delivered(w: Wait, kills: seq<bool>)
  {
    && w.kc == |w.signalled| <= |kills|
    && forall j :: 0 <= j < w.kc ==> kills[j]
  }

  /** What holds between two polls of the waiting loop entered at `pos` after
      `owner` was signalled: the owners reported are `owner` and then those
      the polls reported; every observation consumed let the loop go on; the
      counters agree; the timeout is not reached; every signal was delivered. */
  predicate Waiting(w: Wait, timeout: nat, obs: seq<LockObs>, pos: nat, kills: seq<bool>, owner: int)
  {
    && pos <= w.used <= |obs|
    && w.seen == [owner] + Held(obs, pos, w.used)
    && (forall k :: pos <= k < w.used ==> Passing(obs[k]))
    && Tally(w)
    && w.polls < Max(timeout, 1)
    && 0 < w.kc && Delivered(w, kills)
    && w.seen[|w.seen| - 1] == w.owner
  }

  /** How the outcome follows from the oracle: it is the lock set, or an
      error, exactly when the last observation consumed says so; a timeout
      exactly when the held polls reached the timeout; a failed signal exactly
      when the last signal outcome used is a failure; and it is pending only
      when the oracle ran out. */
  predicate Verdict(r: LockOutcome, w: Wait, timeout: nat, obs: seq<LockObs>, pos: nat, kills: seq<bool>)
  {
    && (r == Locked <==> pos < w.used <= |obs| && obs[w.used - 1] == Acquired)
    && (r == Failed(LockError) <==> pos < w.used <= |obs| && Refused(obs[w.used - 1]))
    && (r == Failed(TimedOut) <==> w.polls == Max(timeout, 1))
    && w.polls <= Max(timeout, 1)
    && (r == Failed(KillFailed) <==> 0 < |w.signalled| <= |kills| && !kills[|w.signalled| - 1])
    && |w.signalled| - 1 <= |kills| && (forall j :: 0 <= j < |w.signalled| - 1 ==> kills[j])
    && (r == Pending ==> w.used == |obs| || |w.signalled| > |kills|)
    && r != Failed(AlreadyLocked) && r != Failed(CannotCreate)
  }

  /** The counters when the loop has decided. On a timeout the last poll is
      counted but neither reported nor answered with a signal. */
  predicate Counters(r: LockOutcome, w: Wait)
  {
    && w.polls == |w.seen| - 1
    && if r == Failed(TimedOut) then
         && 0 < w.polls
         && w.signalled == Changes(w.seen[..|w.seen| - 1])
         && w.progress == Tens(w.polls - 1)
       else w.signalled == Changes(w.seen) && w.progress == Tens(w.polls)
  }

  /** What holds when the waiting loop entered at `pos` has decided. */
  predicate Decided(r: LockOutcome, w: Wait, timeout: nat, obs: seq<LockObs>, pos: nat, kills: seq<bool>, owner: int)
  {
    && pos <= w.used <= |obs|
    && w.seen == [owner] + Held(obs, pos, w.used)
    && (forall k :: pos <= k < w.used - 1 ==> Passing(obs[k]))
    && Verdict(r, w, timeout, obs, pos, kills)
    && Counters(r, w)
  }

  /** A poll keeps the loop waiting, or decides it. */
  predicate Keeps(s: PollStep, timeout: nat, obs: seq<LockObs>, pos: nat, kills: seq<bool>, owner: int)
  {
    match s
    case Continues(w') => Waiting(w', timeout, obs, pos, kills, owner)
    case Decides(o, w') => Decided(o, w', timeout, obs, pos, kills, owner)
  }

  /** A lock attempt from `u` adds to the owners reported exactly the
      positive holder it returns. */
  lemma {:induction false} AttemptHeld(obs: seq<LockObs>, pos: nat, u: nat)
    requires pos <= u <= |obs|
    ensures var a := LockAttempt(obs, u);
      && (a.0.None? ==> Held(obs, pos, a.1) == Held(obs, pos, u))
      && (a.0.Some? ==> Held(obs, pos, a.1) == Held(obs, pos, u) + (if a.0.value > 0 then [a.0.value] else []))
  {
    var a := LockAttempt(obs, u);
    if a.0.None? {
      HeldSkipsReleased(obs, pos, u, a.1);
    } else {
      HeldSkipsReleased(obs, pos, u, a.1 - 1);
    }
  }

  /** What a poll that found the lock held by `p` at observation `u - 1`
      starts from: a waiting state, and the attempt's own observations. */
  predicate HeldAt(w: Wait, u: nat, p: int, timeout: nat, obs: seq<LockObs>, pos: nat, kills: seq<bool>, owner: int)
  {
    && Waiting(w, timeout, obs, pos, kills, owner)
    && w.used < u <= |obs| && p > 0 && obs[u - 1] == HeldBy(p)
    && Held(obs, pos, u) == Held(obs, pos, w.used) + [p]
    && forall k :: w.used <= k < u ==> Passing(obs[k])
  }

  /** The owners reported and the observations passed, one poll further. */
  lemma {:induction false} HeldAtNext(w: Wait, u: nat, p: int, timeout: nat, obs: seq<LockObs>, pos: nat, kills: seq<bool>, owner: int)
    requires HeldAt(w, u, p, timeout, obs, pos, kills, owner)
    ensures w.seen + [p] == [owner] + Held(obs, pos, u)
    ensures forall k :: pos <= k < u ==> Passing(obs[k])
  {
    forall k | pos <= k < u
      ensures Passing(obs[k])
    {
      if k < w.used {
        assert Passing(obs[k]);
      }
    }
  }

  lemma {:induction false} TimeoutDecides(w: Wait, u: nat, p: int, timeout: nat, obs: seq<LockObs>, pos: nat, kills: seq<bool>, owner: int)
    requires HeldAt(w, u, p, timeout, obs, pos, kills, owner) && w.polls + 1 >= timeout
    ensures Decided(Failed(TimedOut), w.(used := u, seen := w.seen + [p], polls := w.polls + 1), timeout, obs, pos, kills, owner)
  {
    HeldAtNext(w, u, p, timeout, obs, pos, kills, owner);
    var seen := w.seen + [p];
    assert seen[..|seen| - 1] == w.seen;
  }

  lemma {:induction false} SameOwnerKeeps(w: Wait, u: nat, p: int, timeout: nat, obs: seq<LockObs>, pos: nat, kills: seq<bool>, owner: int)
    requires HeldAt(w, u, p, timeout, obs, pos, kills, owner) && w.polls + 1 < timeout && p == w.owner
    ensures Waiting(Counted(w.(used := u), p), timeout, obs, pos, kills, owner)
  {
    var c := Counted(w.(used := u), p);
    HeldAtNext(w, u, p, timeout, obs, pos, kills, owner);
    CountedTally(w.(used := u), p);
    assert c.seen == [owner] + Held(obs, pos, u);
    assert Delivered(c, kills) by {
      assert c.signalled == w.signalled && c.kc == w.kc;
    }
  }

  lemma {:induction false} NewOwnerKeeps(w: Wait, u: nat, p: int, timeout: nat, obs: seq<LockObs>, pos: nat, kills: seq<bool>, owner: int)
    requires HeldAt(w, u, p, timeout, obs, pos, kills, owner) && w.polls + 1 < timeout && p != w.owner
    requires w.kc < |kills| && kills[w.kc]
    ensures Waiting(Counted(w.(used := u), p).(owner := p, kc := w.kc + 1), timeout, obs, pos, kills, owner)
  {
    var c := Counted(w.(used := u), p);
    var w' := Wait(w.seen + [p], w.signalled + [p], w.polls + 1, c.progress, u, w.kc + 1, p);
    assert w' == c.(owner := p, kc := w.kc + 1);
    assert w'.seen == [owner] + Held(obs, pos, u) && forall k :: pos <= k < u ==> Passing(obs[k]) by {
      HeldAtNext(w, u, p, timeout, obs, pos, kills, owner);
    }
    assert Tally(w') by {
      CountedTally(w.(used := u), p);
      assert Tally(c);
    }
    assert Delivered(w', kills) by {
      assert Delivered(w, kills);
    }
  }

  lemma {:induction false} CountedPending(w: Wait, u: nat, p: int, timeout: nat, obs: seq<LockObs>, pos: nat, kills: seq<bool>, owner: int)
    requires HeldAt(w, u, p, timeout, obs, pos, kills, owner) && w.polls + 1 < timeout && p != w.owner
    requires w.kc >= |kills|
    ensures Decided(Pending, Counted(w.(used := u), p), timeout, obs, pos, kills, owner)
  {
    var c := Counted(w.(used := u), p);
    HeldAtNext(w, u, p, timeout, obs, pos, kills, owner);
    CountedTally(w.(used := u), p);
    assert Verdict(Pending, c, timeout, obs, pos, kills) by {
      assert |c.signalled| == w.kc + 1;
    }
  }

  lemma {:induction false} CountedKillFailed(w: Wait, u: nat, p: int, timeout: nat, obs: seq<LockObs>, pos: nat, kills: seq<bool>, owner: int)
    requires HeldAt(w, u, p, timeout, obs, pos, kills, owner) && w.polls + 1 < timeout && p != w.owner
    requires w.kc < |kills| && !kills[w.kc]
    ensures Decided(Failed(KillFailed), Counted(w.(used := u), p), timeout, obs, pos, kills, owner)
  {
    var c := Counted(w.(used := u), p);
    HeldAtNext(w, u, p, timeout, obs, pos, kills, owner);
    CountedTally(w.(used := u), p);
    assert Verdict(Failed(KillFailed), c, timeout, obs, pos, kills) by {
      assert |c.signalled| == w.kc + 1;
    }
  }

  /** Counting a poll keeps the counters in step with the owners reported. */
  lemma {:induction false} CountedTally(w: Wait, p: int)
    requires Tally(w) && w.seen != [] && w.seen[|w.seen| - 1] == w.owner
    ensures Tally(Counted(w, p))
  {
    CountedSignals(w, p);
    CountedProgress(w, p);
  }

  lemma {:induction false} CountedSignals(w: Wait, p: int)
    requires w.seen != [] && w.seen[|w.seen| - 1] == w.owner && w.signalled == Changes(w.seen)
    ensures Counted(w, p).signalled == Changes(Counted(w, p).seen)
  {
    ChangesStep(w.seen, p);
  }

  lemma {:induction false} CountedProgress(w: Wait, p: int)
    requires w.progress == Tens(w.polls)
    ensures Counted(w, p).progress == Tens(Counted(w, p).polls)
  {
  }

  /** A poll that found the lock held by `p` at observation `u - 1` keeps the
      loop waiting or decides it. */
  lemma {:induction false} HeldStepKeeps(w: Wait, u: nat, p: int, timeout: nat, obs: seq<LockObs>, pos: nat, kills: seq<bool>, owner: int)
    requires HeldAt(w, u, p, timeout, obs, pos, kills, owner)
    ensures Keeps(HeldStep(w.(used := u), p, timeout, kills), timeout, obs, pos, kills, owner)
  {
    if w.polls + 1 >= timeout {
      TimeoutDecides(w, u, p, timeout, obs, pos, kills, owner);
    } else if p == w.owner {
      SameOwnerKeeps(w, u, p, timeout, obs, pos, kills, owner);
    } else if w.kc < |kills| && kills[w.kc] {
      NewOwnerKeeps(w, u, p, timeout, obs, pos, kills, owner);
    } else if w.kc >= |kills| {
      CountedPending(w, u, p, timeout, obs, pos, kills, owner);
    } else {
      CountedKillFailed(w, u, p, timeout, obs, pos, kills, owner);
    }
  }

  /** Each poll of the waiting loop keeps it waiting or decides it. */
  lemma {:induction false} PollStepKeeps(w: Wait, timeout: nat, obs: seq<LockObs>, pos: nat, kills: seq<bool>, owner: int)
    requires Waiting(w, timeout, obs, pos, kills, owner)
    ensures Keeps(PollStepOf(w, timeout, obs, kills), timeout, obs, pos, kills, owner)
  {
    var a := LockAttempt(obs, w.used);
    AttemptHeld(obs, pos, w.used);
    if a.0.Some? && a.0.value > 0 {
      HeldStepKeeps(w, a.1, a.0.value, timeout, obs, pos, kills, owner);
      assert PollStepOf(w, timeout, obs, kills) == HeldStep(w.(used := a.1), a.0.value, timeout, kills);
    } else {
      AttemptDecides(w, timeout, obs, pos, kills, owner);
    }
  }

  /** A poll whose lock attempt ran out, failed or set the lock decides. */
  lemma {:induction false} AttemptDecides(w: Wait, timeout: nat, obs: seq<LockObs>, pos: nat, kills: seq<bool>, owner: int)
    requires Waiting(w, timeout, obs, pos, kills, owner)
    requires var a := LockAttempt(obs, w.used); a.0.None? || a.0.value <= 0
    requires var a := LockAttempt(obs, w.used); a.0.None? ==> Held(obs, pos, a.1) == Held(obs, pos, w.used)
    requires var a := LockAttempt(obs, w.used); a.0.Some? ==> Held(obs, pos, a.1) == Held(obs, pos, w.used)
    ensures Keeps(PollStepOf(w, timeout, obs, kills), timeout, obs, pos, kills, owner)
  {
  }

  /** The waiting loop, from any state between two polls, ends in a state
      where the outcome follows from the oracle as `Decided` says. */
  lemma {:induction false} WaitRefDecided(w: Wait, timeout: nat, obs: seq<LockObs>, pos: nat, kills: seq<bool>, owner: int)
    requires Waiting(w, timeout, obs, pos, kills, owner)
    ensures Decided(WaitRef(w, timeout, obs, kills).0, WaitRef(w, timeout, obs, kills).1, timeout, obs, pos, kills, owner)
    decreases |obs| - w.used
  {
    PollStepKeeps(w, timeout, obs, pos, kills, owner);
    match PollStepOf(w, timeout, obs, kills)
    case Decides(_, _) =>
    case Continues(w') => WaitRefDecided(w', timeout, obs, pos, kills, owner);
  }

  /** The takeover protocol of the working-directory lock as a function of
      the oracle: whether the lock file could be opened, the run mode, the
      timeout, the lock observations and the signal outcomes. */
  function WdLockRef(canOpen: bool, mode: RunMode, timeout: nat, obs: seq<LockObs>, kills: seq<bool>): (LockOutcome, Wait)
  {
    var none := Wait([], [], 0, [], 0, 0, 0);
    if !canOpen then (Failed(CannotCreate), none)
    else
      var a := LockAttempt(obs, 0);
      var w := none.(used := a.1);
      if a.0.None? then (Pending, w)
      else if a.0.value < 0 then (Failed(LockError), w)
      else if a.0.value == 0 then (Locked, w)
      else
        var p := a.0.value;
        if mode == Start then (Failed(AlreadyLocked), w.(seen := [p]))
        else if |kills| == 0 then (Pending, w.(seen := [p], signalled := [p]))
        else if !kills[0] then (Failed(KillFailed), w.(seen := [p], signalled := [p]))
        else WaitRef(StartWait(a.1, p), timeout, obs, kills)
  }

  /** How the outcome of the takeover follows from the oracle (see
      `WdLockMeaning`): the observations, the polls and the signals. */
  predicate Takeover(canOpen: bool, mode: RunMode, timeout: nat, obs: seq<LockObs>, kills: seq<bool>, r: LockOutcome, w: Wait)
  {
    && TakeoverObs(canOpen, mode, obs, r, w)
    && TakeoverPolls(mode, timeout, r, w)
    && TakeoverSignals(mode, obs, kills, r, w)
  }

  predicate TakeoverObs(canOpen: bool, mode: RunMode, obs: seq<LockObs>, r: LockOutcome, w: Wait)
  {
    && w.used <= |obs|
    && (!canOpen ==> r == Failed(CannotCreate) && w.used == 0)
    && w.seen == Held(obs, 0, w.used)
    && (forall k :: 0 <= k < w.used - 1 ==> Passing(obs[k]))
    && (r == Locked <==> canOpen && 0 < w.used && obs[w.used - 1] == Acquired)
    && (r == Failed(LockError) <==> canOpen && 0 < w.used && Refused(obs[w.used - 1]))
    && (r == Failed(AlreadyLocked) <==> canOpen && mode == Start && w.seen != [])
  }

  predicate TakeoverPolls(mode: RunMode, timeout: nat, r: LockOutcome, w: Wait)
  {
    && (mode == Start ==> w.signalled == [] && w.polls == 0)
    && (r == Failed(TimedOut) <==> w.polls == Max(timeout, 1))
    && w.polls <= Max(timeout, 1)
    && (mode != Start && w.seen != [] ==> w.polls == |w.seen| - 1)
    && w.progress == Tens(if r == Failed(TimedOut) then w.polls - 1 else w.polls)
  }

  predicate TakeoverSignals(mode: RunMode, obs: seq<LockObs>, kills: seq<bool>, r: LockOutcome, w: Wait)
  {
    && (r == Failed(TimedOut) ==> w.seen != [] && w.signalled == Changes(w.seen[..|w.seen| - 1]))
    && (r != Failed(TimedOut) && mode != Start ==> w.signalled == Changes(w.seen))
    && (r == Failed(KillFailed) <==> 0 < |w.signalled| <= |kills| && !kills[|w.signalled| - 1])
    && |w.signalled| - 1 <= |kills| && (forall j :: 0 <= j < |w.signalled| - 1 ==> kills[j])
    && (r == Pending ==> w.used == |obs| || |w.signalled| > |kills|)
  }

  /** The first lock attempt decides: it ran out, failed or set the lock. */
  lemma {:induction false} FirstAttemptDecides(mode: RunMode, timeout: nat, obs: seq<LockObs>, kills: seq<bool>)
    requires var a := LockAttempt(obs, 0); a.0.None? || a.0.value <= 0
    ensures var ref := WdLockRef(true, mode, timeout, obs, kills); Takeover(true, mode, timeout, obs, kills, ref.0, ref.1)
  {
    AttemptHeld(obs, 0, 0);
  }

  /** The takeover stopped right after the first lock attempt found the
      owner `p` at observation `u - 1`. */
  lemma {:induction false} OwnerFoundIsTakeover(mode: RunMode, timeout: nat, obs: seq<LockObs>, kills: seq<bool>, r: LockOutcome, w: Wait, p: int)
    requires 0 < w.used <= |obs| && p > 0 && obs[w.used - 1] == HeldBy(p)
    requires Held(obs, 0, w.used) == [p] && forall k :: 0 <= k < w.used - 1 ==> Passing(obs[k])
    requires w.seen == [p] && w.polls == 0 && w.progress == []
    requires mode == Start ==> r == Failed(AlreadyLocked) && w.signalled == []
    requires mode != Start ==> w.signalled == [p] && ((r == Pending && |kills| == 0) || (r == Failed(KillFailed) && 0 < |kills| && !kills[0]))
    ensures Takeover(true, mode, timeout, obs, kills, r, w)
  {
    assert TakeoverObs(true, mode, obs, r, w);
    assert TakeoverPolls(mode, timeout, r, w);
    assert TakeoverSignals(mode, obs, kills, r, w) by {
      assert Changes([p]) == [p];
    }
  }

  /** The first lock attempt found an owner, and the takeover stops before
      waiting: start mode, or the first signal. */
  lemma {:induction false} OwnerFoundDecides(mode: RunMode, timeout: nat, obs: seq<LockObs>, kills: seq<bool>)
    requires var a := LockAttempt(obs, 0); a.0.Some? && a.0.value > 0
    requires mode == Start || |kills| == 0 || !kills[0]
    ensures var ref := WdLockRef(true, mode, timeout, obs, kills); Takeover(true, mode, timeout, obs, kills, ref.0, ref.1)
  {
    var a := LockAttempt(obs, 0);
    var p := a.0.value;
    var ref := WdLockRef(true, mode, timeout, obs, kills);
    assert Held(obs, 0, a.1) == [p] by {
      AttemptHeld(obs, 0, 0);
    }
    assert ref.1.used == a.1;
    OwnerFoundIsTakeover(mode, timeout, obs, kills, ref.0, ref.1, p);
  }

  /** What the waiting loop starts from, seen from the start of the
      takeover: `pos` is where the loop was entered after the first lock
      attempt found the owner `p` and the first signal was delivered. */
  predicate WaitedFrom(mode: RunMode, timeout: nat, obs: seq<LockObs>, kills: seq<bool>, pos: nat, p: int)
  {
    && 0 < pos <= |obs| && p > 0 && obs[pos - 1] == HeldBy(p) && mode != Start
    && Held(obs, 0, pos) == [p] && (forall k :: 0 <= k < pos - 1 ==> Passing(obs[k]))
    && Waiting(StartWait(pos, p), timeout, obs, pos, kills, p)
  }

  lemma {:induction false} WaitedObs(mode: RunMode, timeout: nat, obs: seq<LockObs>, kills: seq<bool>, pos: nat, p: int)
    requires WaitedFrom(mode, timeout, obs, kills, pos, p)
    ensures var rw := WaitRef(StartWait(pos, p), timeout, obs, kills); TakeoverObs(true, mode, obs, rw.0, rw.1)
  {
    WaitRefDecided(StartWait(pos, p), timeout, obs, pos, kills, p);
    var rw := WaitRef(StartWait(pos, p), timeout, obs, kills);
    HeldSplit(obs, 0, pos, rw.1.used);
    forall k | 0 <= k < rw.1.used - 1
      ensures Passing(obs[k])
    {
      if k == pos - 1 {
        assert obs[k] == HeldBy(p);
      }
    }
  }

  lemma {:induction false} WaitedPolls(mode: RunMode, timeout: nat, obs: seq<LockObs>, kills: seq<bool>, pos: nat, p: int)
    requires WaitedFrom(mode, timeout, obs, kills, pos, p)
    ensures var rw := WaitRef(StartWait(pos, p), timeout, obs, kills); TakeoverPolls(mode, timeout, rw.0, rw.1)
  {
    WaitRefDecided(StartWait(pos, p), timeout, obs, pos, kills, p);
  }

  lemma {:induction false} WaitedSignals(mode: RunMode, timeout: nat, obs: seq<LockObs>, kills: seq<bool>, pos: nat, p: int)
    requires WaitedFrom(mode, timeout, obs, kills, pos, p)
    ensures var rw := WaitRef(StartWait(pos, p), timeout, obs, kills); TakeoverSignals(mode, obs, kills, rw.0, rw.1)
  {
    WaitRefDecided(StartWait(pos, p), timeout, obs, pos, kills, p);
  }

  /** The bookkeeping after the first signal was delivered is a waiting state. */
  lemma {:induction false} StartIsWaiting(timeout: nat, obs: seq<LockObs>, pos: nat, kills: seq<bool>, p: int)
    requires pos <= |obs| && 0 < |kills| && kills[0]
    ensures Waiting(StartWait(pos, p), timeout, obs, pos, kills, p)
  {
    assert Changes([p]) == [p];
  }

  /** The takeover went through the waiting loop. */
  lemma {:induction false} WaitedDecides(mode: RunMode, timeout: nat, obs: seq<LockObs>, kills: seq<bool>)
    requires var a := LockAttempt(obs, 0); a.0.Some? && a.0.value > 0
    requires mode != Start && |kills| > 0 && kills[0]
    ensures var ref := WdLockRef(true, mode, timeout, obs, kills); Takeover(true, mode, timeout, obs, kills, ref.0, ref.1)
  {
    var a := LockAttempt(obs, 0);
    var p := a.0.value;
    assert Held(obs, 0, a.1) == [p] by {
      AttemptHeld(obs, 0, 0);
    }
    StartIsWaiting(timeout, obs, a.1, kills, p);
    WaitedObs(mode, timeout, obs, kills, a.1, p);
    WaitedPolls(mode, timeout, obs, kills, a.1, p);
    WaitedSignals(mode, timeout, obs, kills, a.1, p);
    assert WdLockRef(true, mode, timeout, obs, kills) == WaitRef(StartWait(a.1, p), timeout, obs, kills);
  }

  /** The promises of the takeover, for every oracle: it uses no more
      observations than there are; the owners it reports are the positive
      holders the observations name, in order; every observation before the
      last let it go on; it sets the lock, or reports a lock error, exactly
      when the last observation says so; start mode never signals and fails
      exactly when an owner was found; the timeout is reported exactly when
      the held polls reach it, one poll per owner reported after the first;
      SIGTERM goes to each new owner in turn, once per change; a failed signal
      is reported exactly when the last signal outcome used is a failure,
      every earlier one being a success; the outcome is pending only when
      the oracle ran out; progress is reported every ten polls. */
  lemma {:induction false} WdLockMeaning(canOpen: bool, mode: RunMode, timeout: nat, obs: seq<LockObs>, kills: seq<bool>)
    ensures var ref := WdLockRef(canOpen, mode, timeout, obs, kills); var r, w := ref.0, ref.1;
      && w.used <= |obs|
      && (!canOpen ==> r == Failed(CannotCreate) && w.used == 0)
      && w.seen == Held(obs, 0, w.used)
      && (forall k :: 0 <= k < w.used - 1 ==> Passing(obs[k]))
      && (r == Locked <==> canOpen && 0 < w.used && obs[w.used - 1] == Acquired)
      && (r == Failed(LockError) <==> canOpen && 0 < w.used && Refused(obs[w.used - 1]))
      && (r == Failed(AlreadyLocked) <==> canOpen && mode == Start && w.seen != [])
      && (mode == Start ==> w.signalled == [] && w.polls == 0)
      && (r == Failed(TimedOut) <==> w.polls == Max(timeout, 1))
      && w.polls <= Max(timeout, 1)
      && (mode != Start && w.seen != [] ==> w.polls == |w.seen| - 1)
      && (r == Failed(TimedOut) ==> w.seen != [] && w.signalled == Changes(w.seen[..|w.seen| - 1]))
      && (r != Failed(TimedOut) && mode != Start ==> w.signalled == Changes(w.seen))
      && (r == Failed(KillFailed) <==> 0 < |w.signalled| <= |kills| && !kills[|w.signalled| - 1])
      && |w.signalled| - 1 <= |kills| && (forall j :: 0 <= j < |w.signalled| - 1 ==> kills[j])
      && (r == Pending ==> w.used == |obs| || |w.signalled| > |kills|)
      && w.progress == Tens(if r == Failed(TimedOut) then w.polls - 1 else w.polls)
  {
    var ref := WdLockRef(canOpen, mode, timeout, obs, kills);
    if canOpen {
      var a := LockAttempt(obs, 0);
      if a.0.None? || a.0.value <= 0 {
        FirstAttemptDecides(mode, timeout, obs, kills);
      } else if mode == Start || |kills| == 0 || !kills[0] {
        OwnerFoundDecides(mode, timeout, obs, kills);
      } else {
        WaitedDecides(mode, timeout, obs, kills);
      }
    }
    assert Takeover(canOpen, mode, timeout, obs, kills, ref.0, ref.1);
  }

  /** The takeover protocol of the working-directory lock.
      `canOpen`: whether the lock file could be created or opened.
      `obs`: what the successive lock attempts observe.
      `kills`: whether each successive SIGTERM was delivered.
      Out: the outcome; `seen`, the owner pids the lock attempts reported;
      `signalled`, the pids SIGTERM was sent to, in order; `polls`, how many
      waiting polls still found the lock held (one per second of waiting);
      `progress`, the poll counts at which progress was reported; `used`, how
      many observations were consumed. */
  method WdLock(canOpen: bool, mode: RunMode, timeout: nat, obs: seq<LockObs>, kills: seq<bool>)
    returns (r: LockOutcome, seen: seq<int>, signalled: seq<int>, polls: nat, progress: seq<nat>, used: nat)
    requires timeout < UINT32_LIMIT
    ensures var ref := WdLockRef(canOpen, mode, timeout, obs, kills);
      && r == ref.0 && seen == ref.1.seen && signalled == ref.1.signalled
      && polls == ref.1.polls && progress == ref.1.progress && used == ref.1.used
  {
    seen, signalled, polls, progress, used := [], [], 0, [], 0;
    if !canOpen {
      return Failed(CannotCreate), seen, signalled, polls, progress, used;
    }
    var res;
    res, used := MyLock(obs, 0);
    if res.None? {
      return Pending, seen, signalled, polls, progress, used;
    }
    var ownerpid := res.value;
    if ownerpid < 0 {
      return Failed(LockError), seen, signalled, polls, progress, used;
    }
    if ownerpid == 0 {
      // lock file created and locked (or, in stop mode, nothing to stop)
      return Locked, seen, signalled, polls, progress, used;
    }
    seen := [ownerpid];
    if mode == Start {
      return Failed(AlreadyLocked), seen, signalled, polls, progress, used;
    }
    signalled := [ownerpid];
    if |kills| == 0 {
      return Pending, seen, signalled, polls, progress, used;
    }
    if !kills[0] {
      return Failed(KillFailed), seen, signalled, polls, progress, used;
    }
    var w;
    r, w := AwaitRelease(timeout, obs, used, kills, ownerpid);
    seen, signalled, polls, progress, used := w.seen, w.signalled, w.polls, w.progress, w.used;
  }

  /** A poll that found the lock held by `newowner`: count it; give up once
      the count reaches the timeout; report progress every ten polls; signal
      the holder if it is not the one signalled last. */
  method StillHeld(w: Wait, newowner: int, timeout: nat, kills: seq<bool>)
    returns (w': Wait, done: Option<LockOutcome>)
    ensures done.None? ==> HeldStep(w, newowner, timeout, kills) == Continues(w')
    ensures done.Some? ==> HeldStep(w, newowner, timeout, kills) == Decides(done.value, w')
  {
    if w.polls + 1 >= timeout {
      return w.(seen := w.seen + [newowner], polls := w.polls + 1), Some(Failed(TimedOut));
    }
    w' := w.(seen := w.seen + [newowner], polls := w.polls + 1);
    if w'.polls % 10 == 0 {
      w' := w'.(progress := w.progress + [w'.polls]);
    }
    if newowner == w.owner {
      return w', None;
    }
    w' := w'.(signalled := w.signalled + [newowner]);
    if w.kc >= |kills| {
      return w', Some(Pending);
    }
    if !kills[w.kc] {
      return w', Some(Failed(KillFailed));
    }
    return w'.(owner := newowner, kc := w.kc + 1), None;
  }

  /** One pass of the waiting loop: one lock attempt, then, if the lock is
      still held, the bookkeeping of `StillHeld`. */
  method PollOnce(w: Wait, timeout: nat, obs: seq<LockObs>, kills: seq<bool>)
    returns (w': Wait, done: Option<LockOutcome>)
    requires w.used <= |obs|
    ensures done.None? ==> PollStepOf(w, timeout, obs, kills) == Continues(w')
    ensures done.Some? ==> PollStepOf(w, timeout, obs, kills) == Decides(done.value, w')
  {
    var res, used := MyLock(obs, w.used);
    w' := w.(used := used);
    if res.None? {
      done := Some(Pending);
    } else if res.value < 0 {
      done := Some(Failed(LockError));
    } else if res.value == 0 {
      // sleep(1), then the loop ends: the lock is set
      done := Some(Locked);
    } else {
      w', done := StillHeld(w', res.value, timeout, kills);
    }
  }

  /** The waiting loop of the takeover, entered after SIGTERM was delivered to
      `owner`, the holder observed before position `pos`: poll the lock once
      a second until a pass decides. */
  method AwaitRelease(timeout: nat, obs: seq<LockObs>, pos: nat, kills: seq<bool>, owner: int)
    returns (r: LockOutcome, w: Wait)
    requires pos <= |obs|
    ensures (r, w) == WaitRef(StartWait(pos, owner), timeout, obs, kills)
  {
    w := StartWait(pos, owner);
    while true
      invariant w.used <= |obs|
      invariant WaitRef(w, timeout, obs, kills) == WaitRef(StartWait(pos, owner), timeout, obs, kills)
      decreases |obs| - w.used
    {
      var done;
      w, done := PollOnce(w, timeout, obs, kills);
      if done.Some? {
        return done.value, w;
      }
    }
  }
}
