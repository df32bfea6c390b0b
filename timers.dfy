/**
 * The timer scheduler: computing a timer's first event at registration, and
 * the three catch-up policies (run-all, run-once, skip) applied to every timer
 * once per tick of the event loop.
 */
module Timers {
  import opened Hooks

  const UINT32_LIMIT: int := 0x1_0000_0000

  /** The whole-second clock as the skeleton keeps it: a signed 32-bit `int`
      holding seconds since the epoch, never negative. */
  type Now = n: int | 0 <= n < 0x8000_0000

  /** A timer period: a nonzero `uint32_t` number of seconds. */
  type Period = s: int | 0 < s < 0x1_0000_0000 witness 1

  /** The three catch-up policies. Any mode code other than run-all and
      run-once takes the skip branch of the dispatcher, so `Skip` stands for
      all of them. */
  datatype TimeMode = RunAll | RunOnce | Skip

  /** A registered timer: the next instant it is due, its period, its policy
      and its callback. */
  datatype TimeEntry = TimeEntry(nextevent: int, seconds: Period, mode: TimeMode, fun: HookId)

  // ---------------------------------------------------------------------
  // Arithmetic facts about Euclidean division used below.

  lemma {:induction false} MulAtLeast(a: int, s: int)
    requires a >= 1 && s > 0
    ensures a * s >= s
  {
    assert (a - 1) * s >= 0;
    assert a * s == (a - 1) * s + s;
  }

  lemma {:induction false} MulMonotone(a: int, b: int, s: int)
    requires s > 0
    ensures a <= b ==> a * s <= b * s
    ensures a < b ==> a * s + s <= b * s
  {
    if a < b {
      MulAtLeast(b - a, s);
      assert b * s == a * s + (b - a) * s;
    }
  }

  lemma {:induction false} MulLower(q: int, s: int, x: int)
    requires s > 0 && q * s <= x
    ensures q <= x / s
  {
    var d := x / s;
    assert x == d * s + x % s;
    MulMonotone(d, q, s);
  }

  lemma {:induction false} MulUpper(q: int, s: int, x: int)
    requires s > 0 && x < q * s
    ensures x / s < q
  {
    var d := x / s;
    assert x == d * s + x % s;
    MulMonotone(q, d, s);
  }

  /** Euclidean division is determined by the bracket its dividend lies in. */
  lemma {:induction false} DivBracket(x: int, s: int, q: int)
    requires s > 0
    requires q * s <= x < (q + 1) * s
    ensures x / s == q
  {
    MulLower(q, s, x);
    MulUpper(q + 1, s, x);
  }

  lemma {:induction false} ModShift(x: int, s: int, k: int)
    requires s > 0
    ensures (x + k * s) % s == x % s
  {
    var q := x / s;
    assert x == q * s + x % s;
    assert x + k * s == (q + k) * s + x % s;
    DivBracket(x + k * s, s, q + k);
  }

  // ---------------------------------------------------------------------
  // Registration.

  /** The first event of a timer registered at `now` with the given period
      and offset: aligned to the period plus the offset, at or after `now`.
      The initial guess is computed in `uint32_t` arithmetic, as in the
      source; the wrap-around it is written with never changes the value. */
  method FirstEvent(now: Now, seconds: Period, offset: nat) returns (ne: int)
    requires offset < seconds
    ensures ne % seconds == offset
    ensures now <= ne < now + seconds
  {
    var base := (now / seconds) * seconds;
    AlignedBase(now, seconds, offset);
    SmallMod(base + offset, UINT32_LIMIT);
    ne := (base + offset) % UINT32_LIMIT;
    while ne < now
      invariant ne % seconds == offset
      invariant ne < now + seconds
      decreases now - ne
    {
      ModShift(ne, seconds, 1);
      ne := ne + seconds;
    }
  }

  lemma {:induction false} SmallMod(x: int, m: int)
    requires 0 <= x < m
    ensures x % m == x
  {
    DivBracket(x, m, 0);
    assert x == (x / m) * m + x % m;
  }

  /** The period-aligned instant at or before `now`, plus the offset, fits in
      32 bits, is congruent to the offset, and lies less than one period
      before `now`. */
  lemma {:induction false} AlignedBase(now: Now, s: Period, offset: nat)
    requires offset < s
    ensures (now / s) * s <= now < (now / s) * s + s
    ensures (now / s) * s + offset < UINT32_LIMIT
    ensures ((now / s) * s + offset) % s == offset
  {
    var q := now / s;
    assert now == q * s + now % s;
    MulMonotone(0, q, s);
    MulMonotone(1, q, s);
    ModShift(offset, s, q);
    DivBracket(offset, s, 0);
  }

  // ---------------------------------------------------------------------
  // Catch-up policies: closed-form specification.

  /** Where a timer's next event stands after the tick at `now`: unchanged
      if the timer is not yet due, otherwise the first instant of its
      schedule strictly after `now`. */
  function CatchUp(ne: int, s: Period, now: int): int
  {
    if now < ne then ne else ne + ((now - ne) / s + 1) * s
  }

  /** How many times the timer's callback runs in the tick at `now`. */
  function Fires(t: TimeEntry, now: int): nat
  {
    if now < t.nextevent then 0
    else match t.mode
      case RunAll => (now - t.nextevent) / t.seconds + 1
      case RunOnce => 1
      case Skip => if now == t.nextevent then 1 else 0
  }

  /** The timer after the tick at `now`. */
  function Advance(t: TimeEntry, now: int): TimeEntry
  {
    t.(nextevent := CatchUp(t.nextevent, t.seconds, now))
  }

  /** A due timer's new next event is the least instant strictly after `now`
      that lies on its old schedule. */
  lemma {:induction false} CatchUpIsLeastAbove(ne: int, s: Period, now: int)
    requires now >= ne
    ensures now < CatchUp(ne, s, now) <= now + s
    ensures (CatchUp(ne, s, now) - ne) % s == 0
    ensures CatchUp(ne, s, now) - s <= now
  {
    var q := (now - ne) / s;
    assert now - ne == q * s + (now - ne) % s;
    assert CatchUp(ne, s, now) == ne + q * s + s;
    ModShift(0, s, q + 1);
  }

  /** A timer that is not yet due keeps its next event. */
  lemma {:induction false} CatchUpNotDue(ne: int, s: Period, now: int)
    requires now < ne
    ensures CatchUp(ne, s, now) == ne
  {
  }

  /** The three policies side by side: run-all fires at least once exactly
      when the timer is due; run-once fires exactly once when it is due;
      skip fires exactly once when `now` is the scheduled instant itself and
      never for one already past. A timer that is not due is left alone. */
  lemma {:induction false} FiresByMode(t: TimeEntry, now: int)
    ensures t.mode == RunAll ==> (Fires(t, now) > 0 <==> now >= t.nextevent)
    ensures t.mode == RunOnce ==> Fires(t, now) == (if now >= t.nextevent then 1 else 0)
    ensures t.mode == Skip ==> Fires(t, now) == (if now == t.nextevent then 1 else 0)
    ensures now < t.nextevent ==> Fires(t, now) == 0 && Advance(t, now) == t
  {
    if t.mode == RunAll && now >= t.nextevent {
      assert (now - t.nextevent) / t.seconds >= 0;
    }
    if now < t.nextevent {
      CatchUpNotDue(t.nextevent, t.seconds, now);
    }
  }

  // ---------------------------------------------------------------------
  // Catch-up policies: the dispatcher's loops.

  /** Advances `ne` by whole periods until it passes `now`. */
  method SkipPast(ne: int, s: Period, now: int) returns (r: int)
    ensures r == CatchUp(ne, s, now)
  {
    r := ne;
    ghost var k: nat := 0;
    while now >= r
      invariant r == ne + k * s
      invariant k > 0 ==> r - s <= now
      decreases now - r
    {
      r := r + s;
      k := k + 1;
    }
    if k > 0 {
      DivBracket(now - ne, s, k - 1);
    }
  }

  /** One timer's turn in a tick. Run-all fires once per elapsed period and
      steps the schedule with each firing; run-once catches up silently and
      fires once if anything was due; skip fires only when `now` lands
      exactly on the scheduled instant, and catches up in any case. */
  method RunTimer(t: TimeEntry, now: int) returns (t': TimeEntry, fires: nat)
    ensures t' == Advance(t, now)
    ensures fires == Fires(t, now)
  {
    t' := t;
    fires := 0;
    match t.mode {
      case RunAll =>
        while now >= t'.nextevent
          invariant t' == t.(nextevent := t.nextevent + fires * t.seconds)
          invariant fires > 0 ==> t'.nextevent - t.seconds <= now
          decreases now - t'.nextevent
        {
          t' := t'.(nextevent := t'.nextevent + t'.seconds);
          fires := fires + 1;
        }
        if fires > 0 {
          DivBracket(now - t.nextevent, t.seconds, fires - 1);
        }
      case RunOnce =>
        if now >= t.nextevent {
          var ne := SkipPast(t.nextevent, t.seconds, now);
          t' := t.(nextevent := ne);
          fires := 1;
        }
      case Skip =>
        if now >= t.nextevent {
          if now == t.nextevent {
            fires := 1;
          }
          var ne := SkipPast(t.nextevent, t.seconds, now);
          t' := t.(nextevent := ne);
        }
    }
  }

  /** A callback repeated `n` times. */
  function Repeat(f: HookId, n: nat): (r: seq<HookId>)
    ensures |r| == n
    ensures forall i :: 0 <= i < n ==> r[i] == f
  {
    seq(n, i => f)
  }

  /** The callbacks the timer phase runs at `now`, timer by timer in list
      order. */
  function FireTrace(ts: seq<TimeEntry>, now: int): seq<HookId>
  {
    if ts == [] then []
    else FireTrace(ts[..|ts| - 1], now) + Repeat(ts[|ts| - 1].fun, Fires(ts[|ts| - 1], now))
  }

  /** The timer phase of one tick: every timer in list order gets its turn.
      Afterwards every timer's next event lies strictly after `now` and no
      timer's schedule has moved backwards. */
  method RunTimers(ts: seq<TimeEntry>, now: int) returns (ts': seq<TimeEntry>, fired: seq<HookId>)
    ensures |ts'| == |ts|
    ensures forall i :: 0 <= i < |ts| ==> ts'[i] == Advance(ts[i], now)
    ensures forall i :: 0 <= i < |ts| ==> now < ts'[i].nextevent && ts[i].nextevent <= ts'[i].nextevent
    ensures fired == FireTrace(ts, now)
  {
    ts' := [];
    fired := [];
    var i := 0;
    while i < |ts|
      invariant 0 <= i <= |ts|
      invariant |ts'| == i
      invariant forall j :: 0 <= j < i ==> ts'[j] == Advance(ts[j], now)
      invariant forall j :: 0 <= j < i ==> now < ts'[j].nextevent && ts[j].nextevent <= ts'[j].nextevent
      invariant fired == FireTrace(ts[..i], now)
    {
      var t', n := RunTimer(ts[i], now);
      if now >= ts[i].nextevent {
        CatchUpIsLeastAbove(ts[i].nextevent, ts[i].seconds, now);
      }
      assert ts[..i + 1][..i] == ts[..i];
      fired := fired + Repeat(ts[i].fun, n);
      ts' := ts' + [t'];
      i := i + 1;
    }
    assert ts[..i] == ts;
  }

  /** The number of firings of a run-all timer equals the number of its
      scheduled instants in the window [nextevent, now]. */
  lemma {:induction false} RunAllCountsBoundaries(t: TimeEntry, now: int)
    requires t.mode == RunAll && now >= t.nextevent
    ensures t.nextevent + (Fires(t, now) - 1) * t.seconds <= now
    ensures now < t.nextevent + Fires(t, now) * t.seconds
  {
    var x := now - t.nextevent;
    var q := x / t.seconds;
    assert x == q * t.seconds + x % t.seconds;
    assert Fires(t, now) == q + 1;
  }
}
