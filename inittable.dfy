/**
 * Module initialization: the init table is run in order until its
 * terminating entry or until the first step that fails.
 */
module InitTable {
  import opened Hooks

  /** One entry of the init table: a step name and its init function.
      An entry whose function is 0 (a null pointer in the source) ends the
      table. */
  datatype InitEntry = InitEntry(name: string, fn: HookId)

  /** True when the table has a terminating entry. */
  predicate Terminated(tab: seq<InitEntry>)
  {
    exists i :: 0 <= i < |tab| && tab[i].fn == 0
  }

  /** The position of the first terminating entry. */
  function TableEnd(tab: seq<InitEntry>): (e: nat)
    requires Terminated(tab)
    ensures e < |tab| && tab[e].fn == 0
    ensures forall j :: 0 <= j < e ==> tab[j].fn != 0
  {
    if tab[0].fn == 0 then 0
    else
      assert Terminated(tab[1..]) by {
        var i :| 0 <= i < |tab| && tab[i].fn == 0;
        assert i > 0 && tab[1..][i - 1] == tab[i];
      }
      1 + TableEnd(tab[1..])
  }

  /** The first index below `n` whose step result is negative, or `n`. */
  function FirstFailure(results: seq<int>, n: nat): (k: nat)
    requires n <= |results|
    ensures k <= n
    ensures forall j :: 0 <= j < k ==> results[j] >= 0
    ensures k < n ==> results[k] < 0
    decreases n
  {
    if n == 0 then 0
    else if FirstFailure(results, n - 1) < n - 1 then FirstFailure(results, n - 1)
    else if results[n - 1] < 0 then n - 1
    else n
  }

  /** The init functions of the first `k` entries. */
  function Fns(tab: seq<InitEntry>, k: nat): (fs: seq<HookId>)
    requires k <= |tab|
    ensures |fs| == k && forall j :: 0 <= j < k ==> fs[j] == tab[j].fn
  {
    seq(k, j requires 0 <= j < k => tab[j].fn)
  }

  /** Runs the table. `results[j]` is what the j-th step's function returns
      when called. Returns whether every step up to the terminator
      succeeded, the init functions that ran (in table order) and the names
      reported as failed. */
  method RunInit(tab: seq<InitEntry>, results: seq<int>) returns (ok: bool, ran: seq<HookId>, failed: seq<string>)
    requires Terminated(tab)
    requires |results| == |tab|
    ensures ok <==> forall j :: 0 <= j < TableEnd(tab) ==> results[j] >= 0
    ensures ok ==> ran == Fns(tab, TableEnd(tab)) && failed == []
    ensures !ok ==> ran == Fns(tab, FirstFailure(results, TableEnd(tab)) + 1)
    ensures !ok ==> results[|ran| - 1] < 0
    ensures !ok ==> failed == [tab[|ran| - 1].name]
  {
    ghost var e := TableEnd(tab);
    ok := true;
    ran := [];
    failed := [];
    var i := 0;
    while tab[i].fn != 0 && ok
      invariant 0 <= i <= e
      invariant ok ==> forall j :: 0 <= j < i ==> results[j] >= 0
      invariant ok ==> ran == Fns(tab, i) && failed == []
      invariant !ok ==> 0 < i && FirstFailure(results, e) == i - 1
      invariant !ok ==> ran == Fns(tab, i) && failed == [tab[i - 1].name]
      decreases e - i, ok
    {
      ran := ran + [tab[i].fn];
      if results[i] < 0 {
        ok := false;
        failed := [tab[i].name];
        FailureIsFirst(results, i, e);
      }
      i := i + 1;
    }
    if ok {
      assert i == e;
    }
  }

  lemma {:induction false} FailureIsFirst(results: seq<int>, i: nat, n: nat)
    requires i < n <= |results|
    requires forall j :: 0 <= j < i ==> results[j] >= 0
    requires results[i] < 0
    ensures FirstFailure(results, n) == i
    decreases n
  {
    if n > i + 1 {
      FailureIsFirst(results, i, n - 1);
    }
  }
}
