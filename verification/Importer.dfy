/**
 * Installing an artifact by two renames, where any step may fail and the process may die at
 * any point. A crash leaves the directory as it was after some operation since the last
 * flush: the operations reach the disk in order, and a flush that succeeds takes all of them.
 */
module Importer {
  import opened Wrappers

  /** A directory under one of the install's names: absent, in part, or a whole artifact. */
  datatype Dir = Absent | Partial | Whole(artifact: nat)

  datatype Tree = Tree(target: Dir, previous: Dir, staging: Dir) {
    /** A removal in progress never touches the only copy, and never the target. */
    predicate Safe() {
      !target.Partial? && (previous.Partial? ==> target.Whole?)
    }

    /** The artifact a recovery leaves at the target. */
    function Best(): Option<nat> {
      if target.Whole? then Some(target.artifact)
      else if previous.Whole? then Some(previous.artifact)
      else None
    }

    predicate Clean() {
      previous == Absent && staging == Absent
    }
  }

  datatype Name = Target | Previous | Staging

  function At(t: Tree, name: Name): Dir {
    match name case Target => t.target case Previous => t.previous case Staging => t.staging
  }

  function With(t: Tree, name: Name, dir: Dir): Tree {
    match name
    case Target => t.(target := dir)
    case Previous => t.(previous := dir)
    case Staging => t.(staging := dir)
  }

  /**
   * The install's directory. `pending` is every state since the last flush, the current one
   * last: what a crash now may leave. `exposed` is every state a crash may have left so far,
   * and `flushed` each state a flush made durable, in order. `failures` counts the operations
   * that failed although nothing in the directory stood against them.
   */
  class Disk {
    var now: Tree
    var pending: seq<Tree>
    var exposed: set<Tree>
    var flushed: seq<Tree>
    var failures: nat

    ghost predicate Valid()
      reads this
    {
      && pending != [] && pending[|pending| - 1] == now
      && now in exposed && forall t <- pending :: t in exposed
    }

    constructor (t: Tree)
      ensures Valid() && now == t && pending == [t] && exposed == {t} && flushed == [] && failures == 0
    {
      now, pending, exposed, flushed, failures := t, [t], {t}, [], 0;
    }

    /** What an operation that fails leaves alone. */
    twostate predicate Untouched()
      reads this
    {
      now == old(now) && pending == old(pending) && exposed == old(exposed) && flushed == old(flushed)
    }

    /** An operation takes effect here, and on the disk once it is flushed. */
    method Change(t: Tree)
      requires Valid()
      modifies this`now, this`pending, this`exposed
      ensures Valid() && now == t
      ensures pending == old(pending) + [t] && exposed == old(exposed) + {t}
    {
      now, pending, exposed := t, pending + [t], exposed + {t};
    }

    /** The process dies, or the power goes: any state exposed may be the one found. */
    method Crash()
      requires Valid()
      modifies this`now, this`pending, this`exposed
      ensures Valid() && now in old(exposed)
      ensures pending == [now] && exposed == {now}
    {
      var t :| t in exposed;
      now, pending, exposed := t, [t], {t};
    }

    /** A run that returned was not cut: what a crash may leave is what is pending. */
    method Returned()
      requires Valid()
      modifies this`exposed
      ensures Valid() && exposed == (set t | t in pending) && exposed <= old(exposed)
    {
      exposed := set t | t in pending;
    }

    /** A rename moves a whole name or nothing, and never over one that is there. */
    method Rename(from: Name, to: Name) returns (moved: bool)
      requires Valid() && from != to
      modifies this
      ensures Valid() && flushed == old(flushed)
      ensures moved ==> At(old(now), from) != Absent && At(old(now), to) == Absent
      ensures moved ==> now == With(With(old(now), to, At(old(now), from)), from, Absent)
      ensures moved ==> pending == old(pending) + [now] && exposed == old(exposed) + {now}
      ensures moved ==> failures == old(failures)
      ensures !moved ==> Untouched()
      ensures !moved ==> failures == old(failures) + if At(now, from) != Absent && At(now, to) == Absent then 1 else 0
    {
      if At(now, from) == Absent || At(now, to) != Absent {
        return false;
      }
      var fails: bool := *;
      if fails {
        failures := failures + 1;
        return false;
      }
      Change(With(With(now, to, At(now, from)), from, Absent));
      return true;
    }

    /** A flush that fails may have reached any of the pending operations. */
    method Flush() returns (done: bool)
      requires Valid()
      modifies this
      ensures Valid() && now == old(now) && exposed == old(exposed)
      ensures pending == if done then [now] else old(pending)
      ensures flushed == if done then old(flushed) + [now] else old(flushed)
      ensures failures == old(failures) + if done then 0 else 1
    {
      var fails: bool := *;
      if fails {
        failures := failures + 1;
        return false;
      }
      pending, flushed := [now], flushed + [now];
      return true;
    }

    /** An empty staging directory, where there is none. */
    method CreateStaging() returns (created: bool)
      requires Valid()
      modifies this
      ensures Valid() && flushed == old(flushed)
      ensures created ==> old(now).staging == Absent && now == old(now).(staging := Partial)
      ensures created ==> pending == old(pending) + [now] && exposed == old(exposed) + {now}
      ensures created ==> failures == old(failures)
      ensures !created ==> Untouched() && failures == old(failures) + if now.staging == Absent then 1 else 0
    {
      if now.staging != Absent {
        return false;
      }
      var fails: bool := *;
      if fails {
        failures := failures + 1;
        return false;
      }
      Change(now.(staging := Partial));
      return true;
    }

    /** The payloads copied and flushed, and the copy verified as `artifact`; or not. */
    method FillStaging(artifact: nat) returns (filled: bool)
      requires Valid() && now.staging == Partial
      modifies this
      ensures Valid() && flushed == old(flushed)
      ensures filled ==> now == old(now).(staging := Whole(artifact))
      ensures filled ==> pending == old(pending) + [now] && exposed == old(exposed) + {now}
      ensures !filled ==> Untouched()
      ensures failures == old(failures) + if filled then 0 else 1
    {
      var fails: bool := *;
      if fails {
        failures := failures + 1;
        return false;
      }
      Change(now.(staging := Whole(artifact)));
      return true;
    }

    /** Removing a directory is not one operation: it may stop, or be cut, halfway. */
    method Remove(name: Name) returns (removed: bool)
      requires Valid() && At(now, name) != Absent
      modifies this
      ensures Valid() && flushed == old(flushed)
      ensures removed ==> now == With(old(now), name, Absent)
      ensures !removed ==> now == old(now) || now == With(old(now), name, Partial)
      ensures exists tail ::
        && pending == old(pending) + tail
        && (forall t <- tail :: t == With(old(now), name, Partial) || t == With(old(now), name, Absent))
      ensures exposed <= old(exposed) + {With(old(now), name, Partial), With(old(now), name, Absent)}
      ensures failures == old(failures) + if removed then 0 else 1
    {
      var whole, fails: bool := now, *;
      assert pending == old(pending) + [];
      if fails {
        failures := failures + 1;
        return false;
      }
      Change(With(whole, name, Partial));
      assert pending == old(pending) + [With(whole, name, Partial)];
      fails := *;
      if fails {
        failures := failures + 1;
        return false;
      }
      Change(With(whole, name, Absent));
      assert pending == old(pending) + [With(whole, name, Partial), With(whole, name, Absent)];
      return true;
    }
  }

  /** Never a half-removed only copy, and what recovery would find is one of those allowed. */
  ghost predicate Good(t: Tree, allowed: set<Option<nat>>) {
    t.Safe() && t.Best() in allowed
  }

  ghost predicate AllGood(states: set<Tree>, allowed: set<Option<nat>>) {
    forall t <- states :: Good(t, allowed)
  }

  ghost predicate Durable(pending: seq<Tree>, best: Option<nat>) {
    forall t <- pending :: t.Best() == best
  }

  /** `Interrupted` names the directory the only good copy is in; `Io` leaves one at the target. */
  datatype Error = Refused | Io | Interrupted

  datatype Recovery = Recovery(restoredPrevious: bool, discardedPrevious: bool, discardedStaging: bool) {
    predicate Anything() {
      restoredPrevious || discardedPrevious || discardedStaging
    }
  }

  /** The states a recovery flushes: once what was parked is resolved, and once staging is gone. */
  function RecoveryFlushes(was: Tree, now: Tree): seq<Tree> {
    (if was.previous != Absent then [Tree(now.target, Absent, was.staging)] else []) +
    (if was.staging != Absent then [now] else [])
  }

  /** Resolve what is parked: discarded where its install completed, else moved back. */
  method ResolveParked(disk: Disk, ghost allowed: set<Option<nat>>) returns (result: Result<Recovery, Error>)
    requires disk.Valid() && AllGood(disk.exposed, allowed)
    modifies disk
    ensures disk.Valid() && AllGood(disk.exposed, allowed)
    ensures disk.now.Best() == old(disk.now.Best()) && disk.now.staging == old(disk.now.staging)
    ensures old(disk.now.previous) == Absent ==>
      result == Success(Recovery(false, false, false)) && unchanged(disk)
    ensures result.Success? && old(disk.now.previous) != Absent ==>
      && result.value == Recovery(old(disk.now.target) == Absent, old(disk.now.target) != Absent, false)
      && disk.pending == [disk.now] && disk.flushed == old(disk.flushed) + [disk.now]
    ensures result.Success? ==>
      && disk.now.previous == Absent && disk.failures == old(disk.failures)
      && disk.now.target == (if old(disk.now.Best()).Some? then Whole(old(disk.now.Best()).value) else Absent)
    ensures result.Failure? ==>
      && result.error == (if old(disk.now.target) == Absent then Interrupted else Io)
      && disk.failures == old(disk.failures) + 1 && disk.flushed == old(disk.flushed)
    ensures result == Failure(Io) ==> disk.now.target.Whole?
  {
    if disk.now.previous == Absent {
      return Success(Recovery(false, false, false));
    }
    if disk.now.target != Absent {
      var removed := disk.Remove(Previous);
      if !removed { return Failure(Io); }
      var flushed := disk.Flush();
      return if flushed then Success(Recovery(false, true, false)) else Failure(Io);
    }
    var moved := disk.Rename(Previous, Target);
    if !moved { return Failure(Interrupted); }
    var flushed := disk.Flush();
    return if flushed then Success(Recovery(true, false, false)) else Failure(Interrupted);
  }

  /**
   * Resolve whatever a crashed install left. However its steps fail, every state it may leave
   * is good, and what would be recovered is what would have been before. When it succeeds, that
   * artifact is at the target and nothing is left beside it; and it reports what it found.
   */
  method Recover(disk: Disk, ghost allowed: set<Option<nat>>) returns (result: Result<Recovery, Error>)
    requires disk.Valid() && AllGood(disk.exposed, allowed)
    modifies disk
    ensures disk.Valid() && AllGood(disk.exposed, allowed)
    ensures disk.now.Best() == old(disk.now.Best())
    ensures result.Success? ==>
      && disk.now.Clean()
      && disk.now.target == (if old(disk.now.Best()).Some? then Whole(old(disk.now.Best()).value) else Absent)
      && result.value == Recovery(
          old(disk.now.previous != Absent && disk.now.target == Absent),
          old(disk.now.previous != Absent && disk.now.target != Absent),
          old(disk.now.staging != Absent))
    ensures result.Success? && result.value.Anything() ==> disk.pending == [disk.now]
    ensures result.Success? ==> disk.failures == old(disk.failures)
    ensures result.Success? ==>
      disk.flushed == old(disk.flushed) + RecoveryFlushes(old(disk.now), disk.now)
    ensures result.Failure? ==> result.error in {Io, Interrupted} && disk.failures == old(disk.failures) + 1
    ensures result.Failure? ==> (result.error == Interrupted <==>
      old(disk.now.previous != Absent && disk.now.target == Absent) && disk.flushed == old(disk.flushed))
    ensures result == Failure(Io) && old(disk.now.Best()).Some? ==> disk.now.target.Whole?
    ensures old(disk.now.Clean()) ==> result.Success? && unchanged(disk)
  {
    result := ResolveParked(disk, allowed);
    if result.Failure? || disk.now.staging == Absent {
      return;
    }
    var removed := disk.Remove(Staging);
    if !removed { return Failure(Io); }
    var flushed := disk.Flush();
    if !flushed { return Failure(Io); }
    return Success(result.value.(discardedStaging := true));
  }

  /** A directory as it is between two calls. */
  datatype Copy = Copy(now: Tree, pending: seq<Tree>, exposed: set<Tree>, flushed: seq<Tree>, failures: nat)

  /** Recovering twice: the second finds nothing, and changes nothing. */
  method RecoverTwice(disk: Disk, ghost allowed: set<Option<nat>>)
    returns (first: Result<Recovery, Error>, second: Result<Recovery, Error>, ghost between: Copy)
    requires disk.Valid() && AllGood(disk.exposed, allowed)
    modifies disk
    ensures disk.Valid() && AllGood(disk.exposed, allowed)
    ensures first.Success? ==> second == Success(Recovery(false, false, false))
    ensures first.Success? ==> between.now.Clean() && between.now.Best() == old(disk.now.Best())
    ensures first.Success? && first.value.Anything() ==> between.pending == [between.now]
    ensures first.Success? ==> between == Copy(disk.now, disk.pending, disk.exposed, disk.flushed, disk.failures)
    ensures first.Failure? ==> second == first
  {
    first := Recover(disk, allowed);
    second, between := first, Copy(disk.now, disk.pending, disk.exposed, disk.flushed, disk.failures);
    if first.Success? {
      second := Recover(disk, allowed);
    }
  }

  /** Put the parked artifact back where a swap could not be completed, and say what to report. */
  method RestoreParked(disk: Disk, ghost allowed: set<Option<nat>>) returns (error: Error)
    requires disk.Valid() && AllGood(disk.exposed, allowed) && disk.now.previous.Whole?
    modifies disk
    ensures disk.Valid() && AllGood(disk.exposed, allowed)
    ensures disk.now.Best() == old(disk.now.Best()) && disk.now.staging == old(disk.now.staging)
    ensures error in {Io, Interrupted}
    ensures error == Io ==> disk.now.target.Whole?
    ensures disk.failures == old(disk.failures) + if error == Interrupted then 1 else 0
    ensures old(disk.now.target) != Absent ==> error == Io && unchanged(disk)
    ensures error == Io && old(disk.now.target) == Absent ==>
      disk.now == Tree(old(disk.now.previous), Absent, old(disk.now.staging)) && disk.pending == [disk.now]
  {
    if disk.now.target != Absent {
      return Io;
    }
    var moved := disk.Rename(Previous, Target);
    if !moved {
      return Interrupted;
    }
    var flushed := disk.Flush();
    return if flushed then Io else Interrupted;
  }

  /** The states a swap flushes: the old artifact parked, the new one in its place, the old one gone. */
  function SwapFlushes(was: Dir, artifact: nat): seq<Tree> {
    (if was == Absent then [] else [Tree(Absent, was, Whole(artifact)), Tree(Whole(artifact), was, Absent)]) +
    [Tree(Whole(artifact), Absent, Absent)]
  }

  /**
   * Swap the staged artifact in. A swap that fails puts the parked one back, or says where it is.
   * One whose every step succeeds flushes after each of them, and leaves nothing but the artifact.
   */
  method SwapIntoPlace(disk: Disk, artifact: nat, ghost allowed: set<Option<nat>>) returns (result: Result<(), Error>)
    requires disk.Valid() && AllGood(disk.exposed, allowed) && Some(artifact) in allowed
    requires disk.now.staging == Whole(artifact) && disk.now.previous == Absent
    modifies disk
    ensures disk.Valid() && AllGood(disk.exposed, allowed)
    ensures result.Success? ==> disk.now.target == Whole(artifact) && Durable(disk.pending, Some(artifact))
    ensures result.Failure? ==> disk.now.Best() in {old(disk.now.Best()), Some(artifact)}
    ensures result.Failure? ==> result.error in {Io, Interrupted}
    ensures result.Failure? ==> disk.failures == old(disk.failures) + if result.error == Interrupted then 2 else 1
    ensures result == Failure(Io) && old(disk.now.Best()).Some? ==> disk.now.target.Whole?
    ensures disk.failures == old(disk.failures) ==>
      && disk.now == Tree(Whole(artifact), Absent, Absent) && disk.pending == [disk.now]
      && disk.flushed == old(disk.flushed) + SwapFlushes(old(disk.now.target), artifact)
    ensures result.Success? ==> disk.now.staging == Absent
    ensures result.Failure? && disk.failures == old(disk.failures) + 1 ==>
      disk.now == old(disk.now) || (disk.now.target == Whole(artifact) && disk.now.staging == Absent)
  {
    if disk.now.target == Absent {
      var moved := disk.Rename(Staging, Target);
      if !moved { return Failure(Io); }
      var flushed := disk.Flush();
      return if flushed then Success(()) else Failure(Io);
    }
    if disk.now.previous != Absent {
      return Failure(Interrupted);
    }
    var parked := disk.Rename(Target, Previous);
    if !parked { return Failure(Io); }
    var swapped := SwapParked(disk, artifact, allowed);
    if !swapped {
      var error := RestoreParked(disk, allowed);
      return Failure(error);
    }
    var removed := disk.Remove(Previous);
    if !removed {
      return Success(());
    }
    var flushed := disk.Flush();
    return if flushed then Success(()) else Failure(Io);
  }

  /** With the previous artifact parked: flush, move the new one in, flush. */
  method SwapParked(disk: Disk, artifact: nat, ghost allowed: set<Option<nat>>) returns (swapped: bool)
    requires disk.Valid() && AllGood(disk.exposed, allowed) && Some(artifact) in allowed
    requires disk.now.staging == Whole(artifact) && disk.now.target == Absent && disk.now.previous.Whole?
    modifies disk
    ensures disk.Valid() && AllGood(disk.exposed, allowed) && disk.now.previous == old(disk.now.previous)
    ensures swapped ==> disk.now.target == Whole(artifact) && disk.pending == [disk.now]
    ensures swapped ==> disk.flushed == old(disk.flushed) + [old(disk.now), disk.now]
    ensures disk.now == old(disk.now) || disk.now == Tree(Whole(artifact), old(disk.now.previous), Absent)
    ensures disk.failures == old(disk.failures) + if swapped then 0 else 1
  {
    var flushed := disk.Flush();
    if !flushed { return false; }
    var moved := disk.Rename(Staging, Target);
    if !moved { return false; }
    swapped := disk.Flush();
  }

  /**
   * Verify and install `artifact`. Every state any crash may leave, under every failure of
   * every step, has an intact copy where there was one: the old artifact or the new. A success
   * is durable, and where no step failed leaves nothing beside the artifact; a failure that is
   * not `Interrupted` leaves an artifact at the target. Nothing but a refusal or a step that
   * failed keeps the artifact from being installed, and one failure leaves no staging behind.
   */
  method Import(disk: Disk, artifact: nat, ghost allowed: set<Option<nat>>) returns (result: Result<(), Error>)
    requires disk.Valid() && AllGood(disk.exposed, allowed)
    modifies disk
    ensures disk.Valid() && AllGood(disk.exposed, allowed + {Some(artifact)})
    ensures result.Success? ==> disk.now.target == Whole(artifact) && Durable(disk.pending, Some(artifact))
    ensures result.Failure? ==> disk.now.Best() in {old(disk.now.Best()), Some(artifact)}
    ensures result == Failure(Refused) ==> unchanged(disk)
    ensures result.Success? || result == Failure(Refused) || disk.failures > old(disk.failures)
    ensures result == Failure(Io) && old(disk.now.Best()).Some? ==> disk.now.target.Whole?
    ensures disk.failures == old(disk.failures) && result != Failure(Refused) ==>
      && result.Success? && disk.now == Tree(Whole(artifact), Absent, Absent) && disk.pending == [disk.now]
    ensures result.Success? ==> disk.now.staging == Absent
    ensures result.Failure? && disk.failures == old(disk.failures) + 1 && old(disk.now.Clean()) ==>
      disk.now == old(disk.now) || (disk.now.target == Whole(artifact) && disk.now.staging == Absent)
  {
    var refused: bool := *;
    if refused {
      return Failure(Refused);
    }
    var recovered := Recover(disk, allowed);
    if recovered.Failure? {
      return Failure(recovered.error);
    }
    var created := disk.CreateStaging();
    if !created {
      return Failure(if disk.now.staging != Absent then Interrupted else Io);
    }
    result := StageAndSwap(disk, artifact, allowed + {Some(artifact)});
    if result.Failure? && disk.now.staging != Absent {
      var removed := disk.Remove(Staging);
      var flushed := disk.Flush();
    }
  }

  method StageAndSwap(disk: Disk, artifact: nat, ghost allowed: set<Option<nat>>) returns (result: Result<(), Error>)
    requires disk.Valid() && AllGood(disk.exposed, allowed) && Some(artifact) in allowed
    requires disk.now.staging == Partial && disk.now.previous == Absent
    modifies disk
    ensures disk.Valid() && AllGood(disk.exposed, allowed)
    ensures result.Success? ==> disk.now.target == Whole(artifact) && Durable(disk.pending, Some(artifact))
    ensures result.Failure? ==> disk.now.Best() in {old(disk.now.Best()), Some(artifact)}
    ensures result.Failure? ==> result.error in {Io, Interrupted}
    ensures result.Failure? ==> disk.failures == old(disk.failures) + if result.error == Interrupted then 2 else 1
    ensures result == Failure(Io) && old(disk.now.Best()).Some? ==> disk.now.target.Whole?
    ensures disk.failures == old(disk.failures) ==>
      && disk.now == Tree(Whole(artifact), Absent, Absent) && disk.pending == [disk.now]
      && disk.flushed == old(disk.flushed) + SwapFlushes(old(disk.now.target), artifact)
    ensures result.Success? ==> disk.now.staging == Absent
    ensures result.Failure? && disk.failures == old(disk.failures) + 1 ==>
      || disk.now.(staging := Absent) == old(disk.now).(staging := Absent)
      || (disk.now.target == Whole(artifact) && disk.now.staging == Absent)
  {
    var filled := disk.FillStaging(artifact);
    if !filled {
      return Failure(Io);
    }
    result := SwapIntoPlace(disk, artifact, allowed);
  }

  /**
   * Any life of a device: installs, recoveries and crashes in any order, each run cut anywhere
   * or not. `seen` is every state a crash may have left since the first install that returned
   * success: in each, an intact artifact is at the target or parked beside it, and no removal
   * has begun on the only one.
   */
  method Live(disk: Disk, steps: nat) returns (installed: bool, ghost seen: set<Tree>)
    requires disk.Valid() && AllGood(disk.exposed, {None})
    modifies disk
    ensures disk.Valid()
    ensures forall t <- seen :: t.Safe() && (t.target.Whole? || t.previous.Whole?)
    ensures installed ==> disk.exposed <= seen
  {
    ghost var allowed: set<Option<nat>> := {None};
    installed, seen := false, {};
    for i := 0 to steps
      invariant disk.Valid() && AllGood(disk.exposed, allowed)
      invariant installed ==> None !in allowed && disk.exposed <= seen
      invariant forall t <- seen :: t.Safe() && (t.target.Whole? || t.previous.Whole?)
    {
      var recovers: bool := *;
      var artifact: nat := *;
      var succeeded := false;
      if recovers {
        var result := Recover(disk, allowed);
      } else {
        var result := Import(disk, artifact, allowed);
        succeeded := result.Success?;
        allowed := allowed + {Some(artifact)};
      }
      if installed {
        seen := seen + disk.exposed;
      }
      var cut: bool := *;
      if cut {
        disk.Crash();
      } else {
        disk.Returned();
        if succeeded {
          installed, allowed := true, {Some(artifact)};
          seen := seen + disk.exposed;
        }
      }
    }
  }
}
