/**
 * publish: the per-area loop over the whole pipeline, with its scratch directory created at
 * the start of each area and removed in a `finally`. The pipeline steps themselves are
 * abstract actions that may fail; what each area's run meets (the clock reading that names
 * its directory, and the first step the environment makes fail, if any) is an input.
 */
module Orchestrator {
  import opened Wrappers
  import Naming

  datatype Step = CreateDirectory | CreateCsv | CreateArchive | UploadToS3 | PublishOnDataGouv

  /** What one iteration of the loop meets: its clock reading and the step that raises, if any. */
  datatype Iteration = Iteration(stamp: string, failure: Option<Step>)

  /** Directory operations, in the order they happen. */
  datatype Event = Created(dir: string) | Removed(dir: string)

  /**
   * The exception publish propagates: the one raised by a pipeline step, or, in the code as
   * written, the one its cleanup raises when no directory was created (NameUnbound: the name
   * `directory_name` was never bound; DirectoryMissing: it still names a removed directory).
   */
  datatype Error = StepFailed(area: string, step: Step) | NameUnbound | DirectoryMissing(dir: string)

  datatype Outcome = ReturnedTrue | Raised(error: Error)

  datatype RunResult = RunResult(outcome: Outcome, trace: seq<Event>)

  /** The part of the filesystem publish touches: the set of existing directories. */
  class FileSystem {
    var dirs: set<string>
    ghost var trace: seq<Event>

    constructor (existing: set<string>)
      ensures dirs == existing && trace == []
    {
      dirs := existing;
      trace := [];
    }

    /** os.mkdir: fails when the directory already exists. */
    method MakeDirectory(name: string) returns (ok: bool)
      modifies this
      ensures ok <==> name !in old(dirs)
      ensures dirs == old(dirs) + {name}
      ensures trace == if ok then old(trace) + [Created(name)] else old(trace)
    {
      ok := name !in dirs;
      if ok {
        dirs := dirs + {name};
        trace := trace + [Created(name)];
      }
    }

    /** shutil.rmtree: fails when the directory does not exist. */
    method RemoveTree(name: string) returns (ok: bool)
      modifies this
      ensures ok <==> name in old(dirs)
      ensures dirs == old(dirs) - {name}
      ensures trace == if ok then old(trace) + [Removed(name)] else old(trace)
    {
      ok := name in dirs;
      if ok {
        dirs := dirs - {name};
        trace := trace + [Removed(name)];
      }
    }
  }

  /**
   * The step at which the pipeline of `area` raises: mkdir fails when the directory exists
   * already or when the environment makes it fail; otherwise the environment decides. The
   * pipeline goes through exactly when the environment makes nothing fail and the directory
   * is new; a later step can only fail once the directory was created.
   */
  function Attempt(area: string, it: Iteration, dirs: set<string>): (failed: Option<Step>)
    ensures failed.None? <==> it.failure.None? && Naming.DirectoryName(area, it.stamp) !in dirs
    ensures failed.Some? && failed.value != CreateDirectory ==>
      failed == it.failure && Naming.DirectoryName(area, it.stamp) !in dirs
  {
    if it.failure == Some(CreateDirectory) || Naming.DirectoryName(area, it.stamp) in dirs
    then Some(CreateDirectory)
    else it.failure
  }

  /** A directory created and then removed. */
  function Lifecycle(dir: string): seq<Event>
  {
    [Created(dir), Removed(dir)]
  }

  /** The directory lifecycles of areas that all went through. */
  function Lifecycles(areas: seq<string>, env: seq<Iteration>): seq<Event>
    requires |env| == |areas|
  {
    if areas == [] then []
    else Lifecycles(areas[..|areas| - 1], env[..|areas| - 1])
         + Lifecycle(Naming.DirectoryName(areas[|areas| - 1], env[|areas| - 1].stamp))
  }

  lemma {:induction false} LifecyclesCons(areas: seq<string>, env: seq<Iteration>)
    requires |env| == |areas| > 0
    ensures Lifecycles(areas, env) ==
      Lifecycle(Naming.DirectoryName(areas[0], env[0].stamp)) + Lifecycles(areas[1..], env[1..])
  {
    var n := |areas|;
    if n > 1 {
      LifecyclesCons(areas[..n - 1], env[..n - 1]);
      assert areas[..n - 1][1..] == areas[1..][..n - 2];
      assert env[..n - 1][1..] == env[1..][..n - 2];
    } else {
      assert areas[..0] == [] && areas[1..] == [];
    }
  }

  /**
   * The behaviour publish is meant to have: areas in list order; each area's directory is
   * created, its pipeline run, and the directory removed whatever happened; the first area
   * that raises ends the run with that exception. Only a pipeline step's exception is ever
   * raised (which area's, RunFailsAt says); each area touches at most two directory
   * events, and a run that returns True created and removed one directory per area.
   */
  function Run(areas: seq<string>, env: seq<Iteration>, dirs: set<string>): (r: RunResult)
    requires |env| == |areas|
    ensures r.outcome.Raised? ==> r.outcome.error.StepFailed?
    ensures |r.trace| <= 2 * |areas|
    ensures r.outcome == ReturnedTrue ==> |r.trace| == 2 * |areas|
  {
    if areas == [] then RunResult(ReturnedTrue, [])
    else
      var dir := Naming.DirectoryName(areas[0], env[0].stamp);
      match Attempt(areas[0], env[0], dirs)
      case None =>
        var rest := Run(areas[1..], env[1..], dirs);
        RunResult(rest.outcome, Lifecycle(dir) + rest.trace)
      case Some(CreateDirectory) => RunResult(Raised(StepFailed(areas[0], CreateDirectory)), [])
      case Some(step) => RunResult(Raised(StepFailed(areas[0], step)), Lifecycle(dir))
  }

  /** A sequence fact stated once, so that Publish and RunFailsAt need not rediscover it. */
  lemma AppendAssociative(a: seq<Event>, b: seq<Event>, c: seq<Event>)
    ensures (a + b) + c == a + (b + c)
  {
  }

  /** A sequence fact stated once, so that the loop of Publish need not rediscover it. */
  lemma AppendedTail(before: seq<Event>, added: seq<Event>, after: seq<Event>)
    requires |before| <= |after| && after[..|before|] == before && added == after[|before|..]
    ensures after == before + added
  {
  }

  /** One more area that went through adds its directory's lifecycle at the end. */
  lemma LifecyclesSnoc(areas: seq<string>, env: seq<Iteration>, i: nat)
    requires |env| == |areas| && i < |areas|
    ensures Lifecycles(areas[..i + 1], env[..i + 1]) ==
      Lifecycles(areas[..i], env[..i]) + Lifecycle(Naming.DirectoryName(areas[i], env[i].stamp))
  {
    assert areas[..i + 1][..i] == areas[..i] && env[..i + 1][..i] == env[..i];
  }

  /** When no area fails, publish returns True after creating and removing every area's directory in order. */
  lemma {:induction false} RunSucceeds(areas: seq<string>, env: seq<Iteration>, dirs: set<string>)
    requires |env| == |areas|
    requires forall j :: 0 <= j < |areas| ==> Attempt(areas[j], env[j], dirs) == None
    ensures Run(areas, env, dirs) == RunResult(ReturnedTrue, Lifecycles(areas, env))
  {
    if areas != [] {
      RunSucceeds(areas[1..], env[1..], dirs);
      LifecyclesCons(areas, env);
    }
  }

  /**
   * When area i is the first to fail, publish raises that area's exception; the areas before
   * it went through in order, its own directory (if created) was removed, and no area after
   * it was touched.
   */
  lemma {:induction false} RunFailsAt(areas: seq<string>, env: seq<Iteration>, dirs: set<string>, i: nat)
    requires |env| == |areas| && i < |areas|
    requires forall j :: 0 <= j < i ==> Attempt(areas[j], env[j], dirs) == None
    requires Attempt(areas[i], env[i], dirs).Some?
    ensures
      var step := Attempt(areas[i], env[i], dirs).value;
      var own := if step == CreateDirectory then []
                 else Lifecycle(Naming.DirectoryName(areas[i], env[i].stamp));
      Run(areas, env, dirs) == RunResult(Raised(StepFailed(areas[i], step)),
                                         Lifecycles(areas[..i], env[..i]) + own)
  {
    if i > 0 {
      RunFailsAt(areas[1..], env[1..], dirs, i - 1);
      LifecyclesCons(areas[..i], env[..i]);
      assert areas[..i][1..] == areas[1..][..i - 1];
      assert env[..i][1..] == env[1..][..i - 1];
      var step := Attempt(areas[i], env[i], dirs).value;
      var own := if step == CreateDirectory then []
                 else Lifecycle(Naming.DirectoryName(areas[i], env[i].stamp));
      AppendAssociative(Lifecycle(Naming.DirectoryName(areas[0], env[0].stamp)),
                        Lifecycles(areas[1..][..i - 1], env[1..][..i - 1]), own);
    }
  }

  /** publish returns True exactly when no area's pipeline raised. */
  lemma {:induction false} ReturnsTrueIffAllSucceed(areas: seq<string>, env: seq<Iteration>, dirs: set<string>)
    requires |env| == |areas|
    ensures Run(areas, env, dirs).outcome == ReturnedTrue <==>
      forall j :: 0 <= j < |areas| ==> Attempt(areas[j], env[j], dirs) == None
  {
    if areas != [] {
      ReturnsTrueIffAllSucceed(areas[1..], env[1..], dirs);
      if Attempt(areas[0], env[0], dirs) == None {
        forall j | 0 < j < |areas|
          ensures Attempt(areas[j], env[j], dirs) == Attempt(areas[1..][j - 1], env[1..][j - 1], dirs)
        {
        }
      }
    }
  }

  /** A trace made of whole lifecycles: every directory created is removed right after its area's pipeline. */
  predicate Balanced(trace: seq<Event>)
  {
    |trace| % 2 == 0 &&
    forall k :: 0 <= k < |trace| / 2 ==>
      trace[2 * k].Created? && trace[2 * k + 1] == Removed(trace[2 * k].dir)
  }

  lemma {:induction false} BalancedAppend(t: seq<Event>, dir: string)
    requires Balanced(t)
    ensures Balanced(t + Lifecycle(dir))
  {
    var u := t + Lifecycle(dir);
    forall k | 0 <= k < |u| / 2
      ensures u[2 * k].Created? && u[2 * k + 1] == Removed(u[2 * k].dir)
    {
      if k < |t| / 2 {
        assert u[2 * k] == t[2 * k] && u[2 * k + 1] == t[2 * k + 1];
      }
    }
  }

  lemma {:induction false} LifecyclesBalanced(areas: seq<string>, env: seq<Iteration>)
    requires |env| == |areas|
    ensures Balanced(Lifecycles(areas, env))
  {
    if areas != [] {
      var n := |areas|;
      LifecyclesBalanced(areas[..n - 1], env[..n - 1]);
      BalancedAppend(Lifecycles(areas[..n - 1], env[..n - 1]),
                     Naming.DirectoryName(areas[n - 1], env[n - 1].stamp));
    }
  }

  /** Whatever happens, every directory publish creates is removed, and nothing else is removed. */
  lemma RunCleansUp(areas: seq<string>, env: seq<Iteration>, dirs: set<string>)
    requires |env| == |areas|
    ensures Balanced(Run(areas, env, dirs).trace)
  {
    if forall j :: 0 <= j < |areas| ==> Attempt(areas[j], env[j], dirs) == None {
      RunSucceeds(areas, env, dirs);
      LifecyclesBalanced(areas, env);
    } else {
      var i := FirstFailure(areas, env, dirs);
      RunFailsAt(areas, env, dirs, i);
      LifecyclesBalanced(areas[..i], env[..i]);
      var step := Attempt(areas[i], env[i], dirs).value;
      if step != CreateDirectory {
        BalancedAppend(Lifecycles(areas[..i], env[..i]), Naming.DirectoryName(areas[i], env[i].stamp));
      }
    }
  }

  /** The index of the first area whose pipeline raises. */
  function FirstFailure(areas: seq<string>, env: seq<Iteration>, dirs: set<string>): (i: nat)
    requires |env| == |areas|
    requires exists j :: 0 <= j < |areas| && Attempt(areas[j], env[j], dirs).Some?
    ensures i < |areas| && Attempt(areas[i], env[i], dirs).Some?
    ensures forall j :: 0 <= j < i ==> Attempt(areas[j], env[j], dirs) == None
  {
    if Attempt(areas[0], env[0], dirs).Some? then 0
    else
      var j :| 0 <= j < |areas| && Attempt(areas[j], env[j], dirs).Some?;
      assert Attempt(areas[1..][j - 1], env[1..][j - 1], dirs).Some?;
      1 + FirstFailure(areas[1..], env[1..], dirs)
  }

  /**
   * One iteration of publish: create the area's directory, run its pipeline, and in the
   * `finally` remove the directory this iteration created. Returns the step that raised.
   */
  method PublishArea(fs: FileSystem, area: string, it: Iteration) returns (failed: Option<Step>)
    modifies fs
    ensures failed == Attempt(area, it, old(fs.dirs))
    ensures fs.dirs == old(fs.dirs)
    ensures fs.trace == old(fs.trace) +
      if failed == Some(CreateDirectory) then [] else Lifecycle(Naming.DirectoryName(area, it.stamp))
  {
    var directory := Naming.DirectoryName(area, it.stamp);
    var created := false;
    if it.failure != Some(CreateDirectory) {
      created := fs.MakeDirectory(directory);
    }
    failed := if created then it.failure else Some(CreateDirectory);
    if created {
      var _ := fs.RemoveTree(directory);
    }
  }

  /**
   * publish, with the cleanup in `finally` applied to the directory created in the same
   * iteration (if any). Areas are processed in list order; a failing area ends the loop with
   * its exception after its directory is removed; True is returned when all went through.
   */
  method Publish(fs: FileSystem, areas: seq<string>, env: seq<Iteration>) returns (outcome: Outcome)
    requires |env| == |areas|
    modifies fs
    ensures outcome == Run(areas, env, old(fs.dirs)).outcome
    ensures fs.trace == old(fs.trace) + Run(areas, env, old(fs.dirs)).trace
    ensures fs.dirs == old(fs.dirs)
  {
    ghost var dirs0 := fs.dirs;
    ghost var trace0 := fs.trace;
    var i := 0;
    while i < |areas|
      invariant 0 <= i <= |areas|
      invariant fs.dirs == dirs0
      invariant forall j :: 0 <= j < i ==> Attempt(areas[j], env[j], dirs0) == None
      invariant fs.trace == trace0 + Lifecycles(areas[..i], env[..i])
    {
      ghost var before := fs.trace;
      var failed := PublishArea(fs, areas[i], env[i]);
      ghost var added := fs.trace[|before|..];
      AppendedTail(before, added, fs.trace);
      AppendAssociative(trace0, Lifecycles(areas[..i], env[..i]), added);
      if failed.Some? {
        RunFailsAt(areas, env, dirs0, i);
        return Raised(StepFailed(areas[i], failed.value));
      }
      LifecyclesSnoc(areas, env, i);
      i := i + 1;
    }
    assert areas[..i] == areas && env[..i] == env;
    RunSucceeds(areas, env, dirs0);
    return ReturnedTrue;
  }

  /**
   * publish as written: the `finally` clause removes whatever `directory_name` names. When
   * mkdir raises, that name is unbound on the first iteration and names the previous
   * iteration's directory, already removed, on later ones; either way the cleanup raises
   * and its exception replaces the one mkdir raised. `bound` is the current binding. So a
   * step error that does propagate is never mkdir's, and NameUnbound can only come from the
   * first iteration, before any directory was made.
   */
  function RunAsWritten(areas: seq<string>, env: seq<Iteration>, dirs: set<string>,
                        bound: Option<string>): (r: RunResult)
    requires |env| == |areas|
    ensures r.outcome.Raised? && r.outcome.error.StepFailed? ==>
      r.outcome.error.step != CreateDirectory && r.outcome.error.area in areas
    ensures r.outcome == Raised(NameUnbound) ==> bound.None? && r.trace == []
    ensures |r.trace| % 2 == 0 && |r.trace| <= 2 * |areas|
  {
    if areas == [] then RunResult(ReturnedTrue, [])
    else
      var dir := Naming.DirectoryName(areas[0], env[0].stamp);
      match Attempt(areas[0], env[0], dirs)
      case None =>
        var rest := RunAsWritten(areas[1..], env[1..], dirs, Some(dir));
        RunResult(rest.outcome, Lifecycle(dir) + rest.trace)
      case Some(CreateDirectory) =>
        (match bound
         case None => RunResult(Raised(NameUnbound), [])
         case Some(previous) => RunResult(Raised(DirectoryMissing(previous)), []))
      case Some(step) => RunResult(Raised(StepFailed(areas[0], step)), Lifecycle(dir))
  }

  /** Where no mkdir fails, the code as written behaves as intended. */
  lemma {:induction false} AsWrittenAgreesWithoutCreateFailure(areas: seq<string>, env: seq<Iteration>,
                                                               dirs: set<string>, bound: Option<string>)
    requires |env| == |areas|
    requires forall j :: 0 <= j < |areas| ==> Attempt(areas[j], env[j], dirs) != Some(CreateDirectory)
    ensures RunAsWritten(areas, env, dirs, bound) == Run(areas, env, dirs)
  {
    if areas != [] {
      var dir := Naming.DirectoryName(areas[0], env[0].stamp);
      assert forall j :: 0 <= j < |areas| - 1 ==> areas[1..][j] == areas[j + 1] && env[1..][j] == env[j + 1];
      AsWrittenAgreesWithoutCreateFailure(areas[1..], env[1..], dirs, Some(dir));
    }
  }

  /**
   * When the first failing area fails in mkdir, the code as written never propagates the
   * mkdir error: it raises NameUnbound on the first area, and DirectoryMissing for the
   * previous area's directory on any later one.
   */
  lemma {:induction false} AsWrittenMasksCreateFailure(areas: seq<string>, env: seq<Iteration>,
                                                       dirs: set<string>, i: nat)
    requires |env| == |areas| && i < |areas|
    requires forall j :: 0 <= j < i ==> Attempt(areas[j], env[j], dirs) == None
    requires Attempt(areas[i], env[i], dirs) == Some(CreateDirectory)
    ensures RunAsWritten(areas, env, dirs, None).outcome ==
      if i == 0 then Raised(NameUnbound)
      else Raised(DirectoryMissing(Naming.DirectoryName(areas[i - 1], env[i - 1].stamp)))
    ensures Run(areas, env, dirs).outcome == Raised(StepFailed(areas[i], CreateDirectory))
  {
    RunFailsAt(areas, env, dirs, i);
    if i > 0 {
      MasksFrom(areas, env, dirs, i, None);
    }
  }

  lemma {:induction false} MasksFrom(areas: seq<string>, env: seq<Iteration>, dirs: set<string>,
                                     i: nat, bound: Option<string>)
    requires |env| == |areas| && 0 < i < |areas|
    requires forall j :: 0 <= j < i ==> Attempt(areas[j], env[j], dirs) == None
    requires Attempt(areas[i], env[i], dirs) == Some(CreateDirectory)
    ensures RunAsWritten(areas, env, dirs, bound).outcome ==
      Raised(DirectoryMissing(Naming.DirectoryName(areas[i - 1], env[i - 1].stamp)))
  {
    var dir := Naming.DirectoryName(areas[0], env[0].stamp);
    if i > 1 {
      MasksFrom(areas[1..], env[1..], dirs, i - 1, Some(dir));
    } else {
      assert Attempt(areas[1..][0], env[1..][0], dirs) == Some(CreateDirectory);
    }
  }

  /** A one-area run whose mkdir fails: the code as written raises NameUnbound instead of the mkdir error. */
  lemma FirstAreaCreateFailure(stamp: string)
    ensures RunAsWritten(["75"], [Iteration(stamp, Some(CreateDirectory))], {}, None).outcome == Raised(NameUnbound)
    ensures Run(["75"], [Iteration(stamp, Some(CreateDirectory))], {}).outcome ==
      Raised(StepFailed("75", CreateDirectory))
  {
  }
}
