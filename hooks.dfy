/**
 * Hook identities, the trace of hook calls a tick produces, and the
 * registration discipline shared by all seven registries of the process
 * skeleton: every register call puts its hook at the FRONT of its list, and
 * every dispatch walks the list from the front.
 */
module Hooks {

  /** Identity of a registered callback (a function pointer in the source).
      Callbacks themselves are opaque: the model only records that they ran. */
  type HookId = nat

  /** A poll hook carries two callbacks: one that describes the descriptors it
      wants polled and one that serves them. */
  datatype PollHook = PollHook(desc: HookId, serve: HookId)

  /** The phase of the event loop (or of start-up/teardown) in which a hook ran. */
  datatype Phase =
    | DescribePhase | ServePhase | EachLoopPhase | TimerPhase
    | ReloadPhase | WantExitPhase | CanExitPhase | DestructPhase

  /** One observable callback invocation. */
  datatype Event = Call(phase: Phase, hook: HookId)

  /** The calls made by walking the list `hs` from its head in phase `p`. */
  function Calls(p: Phase, hs: seq<HookId>): (t: seq<Event>)
    ensures |t| == |hs|
    ensures forall i :: 0 <= i < |hs| ==> t[i] == Call(p, hs[i])
  {
    seq(|hs|, i requires 0 <= i < |hs| => Call(p, hs[i]))
  }

  /** The describe callbacks of a poll list, in list order. */
  function Descs(ps: seq<PollHook>): (ds: seq<HookId>)
    ensures |ds| == |ps|
    ensures forall i :: 0 <= i < |ps| ==> ds[i] == ps[i].desc
  {
    seq(|ps|, i requires 0 <= i < |ps| => ps[i].desc)
  }

  /** The serve callbacks of a poll list, in list order. */
  function Serves(ps: seq<PollHook>): (ss: seq<HookId>)
    ensures |ss| == |ps|
    ensures forall i :: 0 <= i < |ps| ==> ss[i] == ps[i].serve
  {
    seq(|ps|, i requires 0 <= i < |ps| => ps[i].serve)
  }

  /** True when no call in `t` belongs to phase `p`. */
  predicate NoneIn(p: Phase, t: seq<Event>)
  {
    forall i :: 0 <= i < |t| ==> t[i].phase != p
  }

  /** A walk of `hs` in phase `p` holds a call of phase `q` exactly when
      the two phases agree and the list is not empty. */
  lemma {:induction false} CallsIn(p: Phase, q: Phase, hs: seq<HookId>)
    ensures NoneIn(q, Calls(p, hs)) <==> p != q || hs == []
  {
    if p == q && hs != [] {
      assert Calls(p, hs)[0].phase == q;
    }
  }

  /** A trace holds no call of phase `p` exactly when neither half does. */
  lemma {:induction false} NoneInConcat(p: Phase, a: seq<Event>, b: seq<Event>)
    ensures NoneIn(p, a + b) <==> NoneIn(p, a) && NoneIn(p, b)
  {
    if NoneIn(p, a + b) {
      forall i | 0 <= i < |a| ensures a[i].phase != p {
        assert (a + b)[i] == a[i];
      }
      forall i | 0 <= i < |b| ensures b[i].phase != p {
        assert (a + b)[|a| + i] == b[i];
      }
    }
  }

  /** Reference definition of the reverse of a sequence. */
  function Reversed<T>(s: seq<T>): seq<T>
  {
    if s == [] then [] else Reversed(s[1..]) + [s[0]]
  }

  /** The list that results from registering `fs[0]`, `fs[1]`, ... in that
      order, each one put at the front of `l` (the shape of every
      `main_*register` function). */
  function RegisterEach<T>(l: seq<T>, fs: seq<T>): seq<T>
    decreases |fs|
  {
    if fs == [] then l else RegisterEach([fs[0]] + l, fs[1..])
  }

  lemma {:induction false} ReversedLength<T>(s: seq<T>)
    ensures |Reversed(s)| == |s|
  {
    if s != [] {
      ReversedLength(s[1..]);
    }
  }

  lemma {:induction false} ReversedAt<T>(s: seq<T>, k: nat)
    requires k < |s|
    ensures |Reversed(s)| == |s|
    ensures Reversed(s)[k] == s[|s| - 1 - k]
  {
    ReversedLength(s);
    if k < |s| - 1 {
      ReversedAt(s[1..], k);
    }
  }

  /** Registering a batch of hooks on a list puts them, reversed, in front of
      what was already there. */
  lemma {:induction false} RegistrationReverses<T>(l: seq<T>, fs: seq<T>)
    ensures RegisterEach(l, fs) == Reversed(fs) + l
    decreases |fs|
  {
    if fs != [] {
      RegistrationReverses([fs[0]] + l, fs[1..]);
      assert Reversed(fs[1..]) + ([fs[0]] + l) == (Reversed(fs[1..]) + [fs[0]]) + l;
    }
  }

  /** Dispatch order is LIFO: starting from an empty list, the hook registered
      at position j is called at position |fs|-1-j, so a hook registered later
      is called earlier. */
  lemma {:induction false} LifoDispatch<T>(fs: seq<T>, i: nat, j: nat)
    requires i < j < |fs|
    ensures |RegisterEach([], fs)| == |fs|
    ensures RegisterEach([], fs)[|fs| - 1 - j] == fs[j]
    ensures RegisterEach([], fs)[|fs| - 1 - i] == fs[i]
    ensures |fs| - 1 - j < |fs| - 1 - i
  {
    RegistrationReverses([], fs);
    assert Reversed(fs) + [] == Reversed(fs);
    ReversedAt(fs, |fs| - 1 - j);
    ReversedAt(fs, |fs| - 1 - i);
  }
}
