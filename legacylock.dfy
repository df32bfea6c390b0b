/**
 * The compatibility check for the lock file of older versions, which holds
 * the owner's pid as text: if that file is locked, the owner named in it is
 * sent SIGTERM and the file is polled until it can be locked; then the file
 * is removed. `open`, `lockf`, `read` and `kill` are an oracle.
 */
module LegacyLock {
  import opened Timers
  import opened Locking
  import opened CText

  /** How opening the old lock file went. */
  datatype OpenResult = Opened | Missing | OpenError

  /** One `lockf(F_TLOCK)` result: locked, already locked by someone else
      (EAGAIN), or another error. */
  datatype TryLock = TLocked | TBusy | TError

  /** Why the check gave up. */
  datatype OldFailure = OpenFailed | LockFailed | OldLocked | WrongPid | OldKillFailed | GaveUp

  /** The check's outcome: done (the source returns 0), failed (it returns
      -1), or the oracle ran out first. `removed` tells whether the old file
      was unlinked. */
  datatype OldOutcome = Done(removed: bool) | OldFailed(why: OldFailure) | OldPending

  // ---------------------------------------------------------------------
  // Reading the pid text.

  /** The number of bytes a `read` of up to 13 bytes returns: -1 on an error,
      otherwise the file's length capped at 13. */
  function ReadCount(readFails: bool, text: string): int
  {
    if readFails then -1 else if |text| < 13 then |text| else 13
  }

  /** The count as it lands in the `uint32_t` variable of the source: -1
      becomes 2^32-1. */
  function AsUint32(n: int): (u: nat)
    ensures u < UINT32_LIMIT
  {
    n % UINT32_LIMIT
  }

  /** The pid text is accepted only when it is 1 to 12 bytes long. */
  predicate PidLengthOk(readFails: bool, text: string)
  {
    var l := AsUint32(ReadCount(readFails, text));
    !(l == 0 || l >= 13)
  }

  /** The failed read's -1 wraps round to the largest `uint32_t`. */
  lemma {:induction false} ReadCountWraps(readFails: bool, text: string)
    ensures AsUint32(ReadCount(readFails, text)) ==
            if readFails then UINT32_LIMIT - 1 else ReadCount(readFails, text)
  {
    if !readFails {
      SmallMod(ReadCount(readFails, text), UINT32_LIMIT);
    }
  }

  lemma {:induction false} PidLengthOkMeans(readFails: bool, text: string)
    ensures PidLengthOk(readFails, text) <==> !readFails && 0 < |text| <= 12
  {
    ReadCountWraps(readFails, text);
  }

  /** The `long` result stored into a 32-bit `pid_t`, two's complement. */
  function ToPid(v: int): (p: int)
    ensures -0x8000_0000 <= p < 0x8000_0000
  {
    var u := v % UINT32_LIMIT;
    if u < 0x8000_0000 then u else u - UINT32_LIMIT
  }

  /** The pid named by the legacy file's text. */
  function LegacyPid(text: string): int
  {
    ToPid(Strtol(text))
  }

  /** Round trip: the text of a pid reads back as that pid. */
  lemma {:induction false} DecimalPidRoundTrip(p: nat)
    requires p < 0x8000_0000
    ensures LegacyPid(Decimal(p)) == p
  {
    StrtolDecimal(p);
    SmallMod(p, UINT32_LIMIT);
  }

  // ---------------------------------------------------------------------
  // The check.

  /** Reads the pid text (at most 13 bytes) and parses the bytes read; fails
      unless 1 to 12 bytes arrive. */
  method ReadOldPid(readFails: bool, text: string) returns (ok: bool, pid: int)
    ensures ok <==> PidLengthOk(readFails, text)
    ensures ok ==> pid == LegacyPid(text)
  {
    ReadCountWraps(readFails, text);
    var l := AsUint32(ReadCount(readFails, text));
    if l == 0 || l >= 13 {
      return false, 0;
    }
    assert text[..l] == text;
    pid := LegacyPid(text[..l]);
    ok := true;
  }

  /** The number of `TBusy` results among `tries[a..b]`. */
  function Busy(tries: seq<TryLock>, a: nat, b: nat): nat
    requires a <= b <= |tries|
    decreases b - a
  {
    if a == b then 0 else (if tries[a] == TBusy then 1 else 0) + Busy(tries, a + 1, b)
  }

  /** The waiting loop as a function of the lock results from position
      `used` on, having waited `waited` seconds: the outcome, the seconds
      waited and the position reached. */
  function OldWaitRef(timeout: nat, tries: seq<TryLock>, used: nat, waited: nat): (OldOutcome, nat, nat)
    requires used <= |tries|
    decreases |tries| - used
  {
    if used == |tries| then (OldPending, waited, used)
    else if tries[used] == TLocked then (Done(true), waited, used + 1)
    else if tries[used] == TError then (OldFailed(LockFailed), waited, used + 1)
    else if waited + 1 >= timeout then (OldFailed(GaveUp), waited + 1, used + 1)
    else OldWaitRef(timeout, tries, used + 1, waited + 1)
  }

  /** The check as a function of the oracle: the outcome, the pids signalled,
      the seconds waited and the lock results consumed. */
  function OldLocksRef(open: OpenResult, mode: RunMode, timeout: nat, tries: seq<TryLock>,
                       readFails: bool, text: string, killOk: bool): (OldOutcome, seq<int>, nat, nat)
  {
    if open == Missing then (Done(false), [], 0, 0)
    else if open == OpenError then (OldFailed(OpenFailed), [], 0, 0)
    else if tries == [] then (OldPending, [], 0, 0)
    else if tries[0] == TLocked then (Done(true), [], 0, 1)
    else if tries[0] == TError then (OldFailed(LockFailed), [], 0, 1)
    else if mode == Start then (OldFailed(OldLocked), [], 0, 1)
    else if !PidLengthOk(readFails, text) then (OldFailed(WrongPid), [], 0, 1)
    else if !killOk then (OldFailed(OldKillFailed), [LegacyPid(text)], 0, 1)
    else
      var (r, waited, used) := OldWaitRef(timeout, tries, 1, 0);
      (r, [LegacyPid(text)], waited, used)
  }

  /** The waiting loop, from position `used0` having waited `waited0`
      seconds (less than the timeout): every lock result consumed before
      the last was "already locked"; the outcome is removal exactly when the
      last one set the lock, a lock failure exactly when it was an error,
      and giving up exactly when the seconds waited reach the timeout; it is
      pending only when the results ran out; one second is waited per
      "already locked" result. */
  lemma {:induction false} OldWaitMeaning(timeout: nat, tries: seq<TryLock>, used0: nat, waited0: nat)
    requires used0 <= |tries| && waited0 < Max(timeout, 1)
    ensures var (r, w, u) := OldWaitRef(timeout, tries, used0, waited0);
      && used0 <= u <= |tries|
      && (forall k :: used0 <= k < u - 1 ==> tries[k] == TBusy)
      && (r == Done(true) <==> used0 < u && tries[u - 1] == TLocked)
      && (r == OldFailed(LockFailed) <==> used0 < u && tries[u - 1] == TError)
      && (r == OldFailed(GaveUp) <==> w == Max(timeout, 1))
      && (r == OldPending ==> u == |tries|)
      && (r == Done(true) || r == OldFailed(LockFailed) || r == OldFailed(GaveUp) || r == OldPending)
      && w == waited0 + Busy(tries, used0, u)
      && w <= Max(timeout, 1)
    decreases |tries| - used0
  {
    if used0 < |tries| && tries[used0] == TBusy && waited0 + 1 < timeout {
      OldWaitMeaning(timeout, tries, used0 + 1, waited0 + 1);
    }
  }

  /** How the outcome of the check follows from the oracle (see
      `OldLocksMeaning`). */
  predicate OldChecked(open: OpenResult, mode: RunMode, timeout: nat, tries: seq<TryLock>, readFails: bool, text: string,
                       killOk: bool, r: OldOutcome, killed: seq<int>, waited: nat, used: nat)
  {
    var locked := open == Opened && tries != [] && tries[0] == TBusy;
    && used <= |tries|
    && (r == Done(false) <==> open == Missing)
    && (r == OldFailed(OpenFailed) <==> open == OpenError)
    && (r == Done(true) <==> open == Opened && 0 < used && tries[used - 1] == TLocked)
    && (r == OldFailed(LockFailed) <==> open == Opened && 0 < used && tries[used - 1] == TError)
    && (forall k :: 0 <= k < used - 1 ==> tries[k] == TBusy)
    && (r == OldFailed(OldLocked) <==> locked && mode == Start)
    && (r == OldFailed(WrongPid) <==> locked && mode != Start && !PidLengthOk(readFails, text))
    && (killed != [] <==> locked && mode != Start && PidLengthOk(readFails, text))
    && (killed == [] || (killed == [LegacyPid(text)] && 0 < used))
    && (r == OldFailed(OldKillFailed) <==> killed != [] && !killOk)
    && waited == (if killed != [] && killOk then Busy(tries, 1, used) else 0)
    && (r == OldFailed(GaveUp) <==> waited == Max(timeout, 1))
    && waited <= Max(timeout, 1)
    && (r == OldPending ==> used == |tries|)
  }

  /** The promises of the check, for every oracle: a missing file is done
      with, an open error reported; a set lock removes the file and a lock
      error fails the check, exactly when the last lock result consumed says
      so, all earlier ones being "already locked"; start mode fails on a
      locked file; otherwise the pid text is read, a bad length fails the
      check, and SIGTERM goes to the pid the text names; a failed signal is
      reported exactly when it was not delivered; the seconds waited are the
      "already locked" results of the waiting loop, and the check gives up
      exactly when they reach the timeout; it is pending only when the lock
      results ran out. */
  lemma {:induction false} OldLocksMeaning(open: OpenResult, mode: RunMode, timeout: nat, tries: seq<TryLock>,
                                           readFails: bool, text: string, killOk: bool)
    ensures var (r, killed, waited, used) := OldLocksRef(open, mode, timeout, tries, readFails, text, killOk);
      var locked := open == Opened && tries != [] && tries[0] == TBusy;
      && used <= |tries|
      && (r == Done(false) <==> open == Missing)
      && (r == OldFailed(OpenFailed) <==> open == OpenError)
      && (r == Done(true) <==> open == Opened && 0 < used && tries[used - 1] == TLocked)
      && (r == OldFailed(LockFailed) <==> open == Opened && 0 < used && tries[used - 1] == TError)
      && (forall k :: 0 <= k < used - 1 ==> tries[k] == TBusy)
      && (r == OldFailed(OldLocked) <==> locked && mode == Start)
      && (r == OldFailed(WrongPid) <==> locked && mode != Start && !PidLengthOk(readFails, text))
      && (killed != [] <==> locked && mode != Start && PidLengthOk(readFails, text))
      && (killed == [] || (killed == [LegacyPid(text)] && 0 < used))
      && (r == OldFailed(OldKillFailed) <==> killed != [] && !killOk)
      && waited == (if killed != [] && killOk then Busy(tries, 1, used) else 0)
      && (r == OldFailed(GaveUp) <==> waited == Max(timeout, 1))
      && waited <= Max(timeout, 1)
      && (r == OldPending ==> used == |tries|)
  {
    var ref := OldLocksRef(open, mode, timeout, tries, readFails, text, killOk);
    if open == Opened && tries != [] && tries[0] == TBusy && mode != Start && PidLengthOk(readFails, text) && killOk {
      OldLocksWaited(open, mode, timeout, tries, readFails, text, killOk);
    } else {
      OldLocksEarly(open, mode, timeout, tries, readFails, text, killOk);
    }
    assert OldChecked(open, mode, timeout, tries, readFails, text, killOk, ref.0, ref.1, ref.2, ref.3);
  }

  /** The check stops before its waiting loop. */
  lemma {:induction false} OldLocksEarly(open: OpenResult, mode: RunMode, timeout: nat, tries: seq<TryLock>,
                                         readFails: bool, text: string, killOk: bool)
    requires !(open == Opened && tries != [] && tries[0] == TBusy && mode != Start && PidLengthOk(readFails, text) && killOk)
    ensures var ref := OldLocksRef(open, mode, timeout, tries, readFails, text, killOk);
      OldChecked(open, mode, timeout, tries, readFails, text, killOk, ref.0, ref.1, ref.2, ref.3)
  {
  }

  /** The check goes through its waiting loop. */
  lemma {:induction false} OldLocksWaited(open: OpenResult, mode: RunMode, timeout: nat, tries: seq<TryLock>,
                                          readFails: bool, text: string, killOk: bool)
    requires open == Opened && tries != [] && tries[0] == TBusy && mode != Start && PidLengthOk(readFails, text) && killOk
    ensures var ref := OldLocksRef(open, mode, timeout, tries, readFails, text, killOk);
      OldChecked(open, mode, timeout, tries, readFails, text, killOk, ref.0, ref.1, ref.2, ref.3)
  {
    OldWaitMeaning(timeout, tries, 1, 0);
  }

  /** The compatibility check for the old lock file.
      `open`: how opening the old file went; `tries`: the successive
      `lockf(F_TLOCK)` results; `readFails` and `text`: the outcome of reading
      the pid text; `killOk`: whether SIGTERM was delivered. Out: the
      outcome; `killed`, the pids SIGTERM was sent to; `waited`, the seconds
      slept while waiting; `progress`, the counts at which progress was
      reported; `used`, how many lock results were consumed. */
  method CheckOldLocks(open: OpenResult, mode: RunMode, timeout: nat, tries: seq<TryLock>,
                       readFails: bool, text: string, killOk: bool)
    returns (r: OldOutcome, killed: seq<int>, waited: nat, progress: seq<nat>, used: nat)
    requires timeout < UINT32_LIMIT
    ensures (r, killed, waited, used) == OldLocksRef(open, mode, timeout, tries, readFails, text, killOk)
    ensures r == OldFailed(GaveUp) ==> waited > 0
    ensures progress == Tens(if r == OldFailed(GaveUp) then waited - 1 else waited)
  {
    killed, waited, progress, used := [], 0, [], 0;
    if open == Missing {
      return Done(false), killed, waited, progress, used;
    }
    if open == OpenError {
      return OldFailed(OpenFailed), killed, waited, progress, used;
    }
    if tries == [] {
      return OldPending, killed, waited, progress, used;
    }
    used := 1;
    if tries[0] == TLocked {
      // found an unlocked old lock file: remove it
      return Done(true), killed, waited, progress, used;
    }
    if tries[0] == TError {
      return OldFailed(LockFailed), killed, waited, progress, used;
    }
    if mode == Start {
      return OldFailed(OldLocked), killed, waited, progress, used;
    }
    var ok, ptk := ReadOldPid(readFails, text);
    if !ok {
      return OldFailed(WrongPid), killed, waited, progress, used;
    }
    killed := [ptk];
    if !killOk {
      return OldFailed(OldKillFailed), killed, waited, progress, used;
    }
    r, waited, progress, used := AwaitOldRelease(timeout, tries, used);
  }

  /** The waiting loop of the check, entered after SIGTERM was delivered:
      try the lock once a second, starting at position `from` of `tries`;
      succeed (and remove the file) once it is set; give up on a lock error,
      or once the seconds waited reach the timeout; report progress every ten
      seconds. */
  method AwaitOldRelease(timeout: nat, tries: seq<TryLock>, from: nat)
    returns (r: OldOutcome, waited: nat, progress: seq<nat>, used: nat)
    requires from <= |tries|
    ensures (r, waited, used) == OldWaitRef(timeout, tries, from, 0)
    ensures r == OldFailed(GaveUp) ==> waited > 0
    ensures progress == Tens(if r == OldFailed(GaveUp) then waited - 1 else waited)
  {
    waited, progress, used := 0, [], from;
    while true
      invariant from <= used <= |tries|
      invariant OldWaitRef(timeout, tries, used, waited) == OldWaitRef(timeout, tries, from, 0)
      invariant progress == Tens(waited)
      decreases |tries| - used
    {
      if used == |tries| {
        return OldPending, waited, progress, used;
      }
      var t := tries[used];
      used := used + 1;
      if t == TLocked {
        // terminated: remove the old file
        return Done(true), waited, progress, used;
      }
      if t == TError {
        return OldFailed(LockFailed), waited, progress, used;
      }
      // sleep(1)
      waited := waited + 1;
      if waited >= timeout {
        return OldFailed(GaveUp), waited, progress, used;
      }
      if waited % 10 == 0 {
        progress := progress + [waited];
      }
    }
  }

  /** Round trip with padding: leading white space and a trailing newline
      around the decimal text of a pid do not change the pid read back. */
  lemma {:induction false} PaddedPidRoundTrip(pre: string, p: nat)
    requires forall i :: 0 <= i < |pre| ==> IsSpace(pre[i])
    requires p < 0x8000_0000
    ensures LegacyPid(pre + Decimal(p) + "\n") == p
  {
    DigitsPadded(pre, Decimal(p), "\n");
    DecimalValue(p);
    SmallMod(p, UINT32_LIMIT);
  }

  /** Text without leading digits reads as pid 0, which `kill` takes to
      mean the caller's whole process group. */
  lemma {:induction false} NonNumericPidIsZero(s: string)
    requires forall i :: 0 <= i < |s| ==> !IsDigit(s[i]) && s[i] != '-' && s[i] != '+'
    ensures LegacyPid(s) == 0
  {
    var t := SkipSpace(s);
    if t != [] {
      assert t[0] == s[|s| - |t|];
      assert LeadingDigits(t) == [];
    }
    assert !Negative(s) && Digits(s) == [];
  }

  /** A '-', a run of digits and a newline read as the negated digits. */
  lemma {:induction false} NegatedDigits(d: string)
    requires d != [] && forall i :: 0 <= i < |d| ==> IsDigit(d[i])
    ensures Negative("-" + d + "\n") && Magnitude("-" + d + "\n") == DigitsValue(d)
  {
    var s := "-" + d + "\n";
    assert SkipSpace(s) == s;
    assert s[1..] == d + "\n";
    LeadingDigitsStop(d, "\n");
  }

  /** The 32-bit `pid_t` keeps a negative value of at most 2^31 in
      magnitude. */
  lemma {:induction false} NegativeToPid(p: nat)
    requires 0 < p <= 0x8000_0000
    ensures ToPid(0 - p) == 0 - p
  {
    ModShift(0 - p, UINT32_LIMIT, 1);
    SmallMod(UINT32_LIMIT - p, UINT32_LIMIT);
  }

  /** A '-' before the decimal text of a pid reads back as its negation, the
      pid of a process group, which `kill` signals as a whole. */
  lemma {:induction false} NegativePidRoundTrip(p: nat)
    requires 0 < p <= 0x8000_0000
    ensures LegacyPid("-" + Decimal(p) + "\n") == 0 - p
  {
    NegatedDigits(Decimal(p));
    DecimalValue(p);
    NegativeToPid(p);
  }

  /** The text "-1" passes the length check and reads as -1, which `kill`
      takes to mean every process the caller may signal. */
  lemma {:induction false} MinusOnePidIsEveryone()
    ensures PidLengthOk(false, "-1\n") && LegacyPid("-1\n") == -1
  {
    assert PidLengthOk(false, "-1\n") by {
      PidLengthOkMeans(false, "-1\n");
    }
    assert LegacyPid("-1\n") == -1 by {
      assert DigitChar(1) == '1';
      assert "-" + Decimal(1) + "\n" == "-1\n";
      NegativePidRoundTrip(1);
    }
  }
}
