/** The window a slot records: the least any record of its key has. */
module Windows {
  import opened Wrappers
  import opened Plan

  function Min(a: nat, b: nat): nat {
    if a < b then a else b
  }

  function Least(w: Option<nat>, window: nat): Option<nat> {
    Some(if w.None? then window else Min(w.value, window))
  }

  /** The least window of the first `n` records of `key` that are at least `from`. */
  function LeastWindow(plan: PlanRecords, n: nat, key: Key, from: nat): Option<nat>
    requires n <= |plan.records|
  {
    if n == 0 then None else
      var before, r := LeastWindow(plan, n - 1, key, from), plan.records[n - 1];
      if r.Key() == key && r.window >= from then Least(before, r.window) else before
  }

  function Get(windows: map<Key, nat>, key: Key): Option<nat> {
    if key in windows then Some(windows[key]) else None
  }

  function OrZero(w: Option<nat>): nat {
    if w.Some? then w.value else 0
  }

  function SlotWindow(plan: PlanRecords, key: Key): nat {
    OrZero(LeastWindow(plan, |plan.records|, key, 0))
  }

  /** A record at window 0 is the least there can be; without one, only the others count. */
  lemma {:induction false} LeastSplits(plan: PlanRecords, n: nat, key: Key)
    requires n <= |plan.records|
    ensures LeastWindow(plan, n, key, 0) ==
      if HasZero(plan, n, key) then Some(0) else LeastWindow(plan, n, key, 1)
  {
    if n > 0 { LeastSplits(plan, n - 1, key); }
  }

  predicate HasZero(plan: PlanRecords, n: nat, key: Key)
    requires n <= |plan.records|
  {
    n > 0 && (HasZero(plan, n - 1, key) || (plan.records[n - 1].Key() == key && plan.records[n - 1].window == 0))
  }

  lemma {:induction false} UnwindowedIsZero(plan: PlanRecords, n: nat, key: Key)
    requires plan.Valid() && !plan.windowed && n <= |plan.records|
    ensures LeastWindow(plan, n, key, 0) in {None, Some(0)}
  {
    if n > 0 { UnwindowedIsZero(plan, n - 1, key); }
  }

  /** What `LeastWindow` means: a record has it, and none has less. */
  lemma {:induction false} LeastWindowMeans(plan: PlanRecords, n: nat, key: Key)
    requires n <= |plan.records|
    ensures LeastWindow(plan, n, key, 0).None? <==> forall i :: 0 <= i < n ==> plan.records[i].Key() != key
    ensures LeastWindow(plan, n, key, 0).Some? ==> var w := LeastWindow(plan, n, key, 0).value;
      && (exists i :: 0 <= i < n && plan.records[i].Key() == key && plan.records[i].window == w)
      && (forall i :: 0 <= i < n && plan.records[i].Key() == key ==> w <= plan.records[i].window)
  {
    if n > 0 { LeastWindowMeans(plan, n - 1, key); }
  }

  /**
   * The windows of the keys whose records are all past a line's first: collected in one pass,
   * and the keys with a first window taken out in another. A key absent is window 0.
   */
  method SlotWindows(plan: PlanRecords) returns (windows: map<Key, nat>)
    requires plan.Valid()
    ensures forall key :: OrZero(Get(windows, key)) == SlotWindow(plan, key)
  {
    windows := map[];
    var n := |plan.records|;
    if !plan.windowed {
      forall key ensures LeastWindow(plan, n, key, 0) in {None, Some(0)} {
        UnwindowedIsZero(plan, n, key);
      }
      return;
    }
    for i := 0 to n
      invariant forall key :: Get(windows, key) == LeastWindow(plan, i, key, 1)
    {
      var r := plan.records[i];
      if r.window > 0 {
        var least := Least(Get(windows, r.Key()), r.window);
        windows := windows[r.Key() := least.value];
      }
    }
    for i := 0 to n
      invariant forall key ::
        Get(windows, key) == (if HasZero(plan, i, key) then None else LeastWindow(plan, n, key, 1))
    {
      if plan.records[i].window == 0 {
        windows := windows - {plan.records[i].Key()};
      }
    }
    forall key ensures OrZero(Get(windows, key)) == SlotWindow(plan, key) {
      LeastSplits(plan, n, key);
      assert Get(windows, key) == if HasZero(plan, n, key) then None else LeastWindow(plan, n, key, 1);
    }
  }
}
