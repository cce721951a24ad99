/** A validation run: the steps it records, some marked again later, and the Helm part
    (scripts/validate_slice.py). What commands and reads answer is left open. */
module Validation {
  import opened HelmTrace

  lemma RecordedIsQuiet(name: string, mark: Mark)
    ensures !Touches(Recorded(name, mark)) && !Deletes(Recorded(name, mark)) && MarkOf(Recorded(name, mark)) == [mark]
  {
  }

  class Step {
    const name: string
    var mark: Mark

    constructor (name: string, mark: Mark)
      ensures this.name == name && this.mark == mark
    {
      this.name := name;
      this.mark := mark;
    }
  }

  class Validation {
    var steps: seq<Step>
    var passed: bool
    var trace: Trace
    var now: int

    /** The run passes exactly while no step of it is failed, and is safe so far. */
    ghost predicate Valid()
      reads this, steps
    {
      (passed <==> forall s :: s in steps ==> s.mark != Failed) && Safe(trace)
    }

    constructor ()
      ensures Valid() && steps == [] && trace == []
    {
      steps, passed, trace, now := [], true, [], 0;
    }

    /** The steps and the trace go on from what they were. */
    twostate predicate Continues()
      reads this
    {
      old(steps) <= steps && old(trace) <= trace
    }

    method Emit(e: Event)
      requires Valid() && (e == Ran(Deploy) ==> Cleared(trace))
      modifies this`trace
      ensures Valid() && trace == old(trace) + [e]
      ensures Cleared(trace) <==> e == ReadVolumes(Remaining([])) || (!Deletes(e) && Cleared(old(trace)))
      ensures Touched(trace) <==> Touches(e) || Touched(old(trace))
      ensures Marks(trace) == Marks(old(trace)) + MarkOf(e)
      ensures DeployedAt(trace) == if e == Ran(Deploy) then |old(trace)| else DeployedAt(old(trace))
      ensures Pending(trace) == PendingAfter(Pending(old(trace)), e)
    {
      OneMore(trace, e);
      trace := trace + [e];
    }

    method Record(name: string, mark: Mark) returns (step: Step)
      requires Valid()
      modifies this`steps, this`passed, this`trace
      ensures Valid() && Continues()
      ensures fresh(step) && step.name == name && step.mark == mark && steps == old(steps) + [step]
      ensures passed <==> old(passed) && mark != Failed
      ensures trace == old(trace) + [Recorded(name, mark)] && Marks(trace) == Marks(old(trace)) + [mark]
      ensures Cleared(trace) <==> Cleared(old(trace))
      ensures (Touched(trace) <==> Touched(old(trace))) && DeployedAt(trace) == DeployedAt(old(trace))
      ensures Pending(trace) == Pending(old(trace))
    {
      hide Safe, Cleared, Touched, Marks, DeployedAt, Pending, Touches, Deletes;
      assert !Touches(Recorded(name, mark)) && !Deletes(Recorded(name, mark)) && MarkOf(Recorded(name, mark)) == [mark] by {
        RecordedIsQuiet(name, mark);
      }
      Emit(Recorded(name, mark));
      step := new Step(name, mark);
      steps := steps + [step];
      if mark == Failed {
        passed := false;
      }
    }

    method Fail(name: string)
      requires Valid()
      modifies this`steps, this`passed, this`trace
      ensures Valid() && Continues() && !passed
      ensures |steps| == |old(steps)| + 1 && fresh(steps[|old(steps)|]) && steps[|old(steps)|].mark == Failed
      ensures trace == old(trace) + [Recorded(name, Failed)] && Marks(trace) == Marks(old(trace)) + [Failed]
      ensures Cleared(trace) <==> Cleared(old(trace))
      ensures (Touched(trace) <==> Touched(old(trace))) && DeployedAt(trace) == DeployedAt(old(trace))
      ensures Pending(trace) == Pending(old(trace))
    {
      var step := Record(name, Failed);
      assert step in steps;
    }

    method Note(name: string)
      requires Valid()
      modifies this`steps, this`passed, this`trace
      ensures Valid() && Continues()
      ensures |steps| == |old(steps)| + 1 && fresh(steps[|old(steps)|]) && steps[|old(steps)|].mark == Passed
      ensures passed == old(passed)
      ensures trace == old(trace) + [Recorded(name, Passed)] && Marks(trace) == Marks(old(trace)) + [Passed]
      ensures Cleared(trace) <==> Cleared(old(trace))
      ensures (Touched(trace) <==> Touched(old(trace))) && DeployedAt(trace) == DeployedAt(old(trace))
      ensures Pending(trace) == Pending(old(trace))
    {
      var _ := Record(name, Passed);
    }

    method Warn(name: string)
      requires Valid()
      modifies this`steps, this`passed, this`trace
      ensures Valid() && Continues()
      ensures |steps| == |old(steps)| + 1 && fresh(steps[|old(steps)|]) && steps[|old(steps)|].mark == Warning
      ensures passed == old(passed)
      ensures trace == old(trace) + [Recorded(name, Warning)] && Marks(trace) == Marks(old(trace)) + [Warning]
      ensures Cleared(trace) <==> Cleared(old(trace))
      ensures (Touched(trace) <==> Touched(old(trace))) && DeployedAt(trace) == DeployedAt(old(trace))
      ensures Pending(trace) == Pending(old(trace))
    {
      var _ := Record(name, Warning);
    }

    /** Whether the checkout is no longer the commit: not known beforehand. */
    method CommitChanged() returns (changed: bool)
      requires Valid()
      modifies this`trace
      ensures Valid() && trace == old(trace) + [ReadCheckout(changed)] && Marks(trace) == Marks(old(trace))
      ensures Cleared(trace) <==> Cleared(old(trace))
      ensures (Touched(trace) <==> Touched(old(trace))) && DeployedAt(trace) == DeployedAt(old(trace))
      ensures Pending(trace) == Pending(old(trace))
    {
      changed := *;
      Emit(ReadCheckout(changed));
    }

    /** Runs a command and records it: as passed exactly if it was and the checkout is
        still the commit. */
    method Run(name: string, command: Command) returns (step: Step)
      requires Valid() && (command == Deploy ==> Cleared(trace))
      modifies this`steps, this`passed, this`trace
      ensures Valid() && Continues()
      ensures fresh(step) && step.name == name && steps == old(steps) + [step]
      ensures |trace| == |old(trace)| + 3 && trace[|old(trace)| + 1].Answered?
      ensures var answer := trace[|old(trace)| + 1];
        && trace == old(trace) + [Ran(command), answer, Recorded(name, step.mark)]
        && step.mark == (if answer.ok && !answer.changed then Passed else Failed)
      ensures passed <==> old(passed) && step.mark == Passed
      ensures Marks(trace) == Marks(old(trace)) + [step.mark]
      ensures Cleared(trace) <==> !Deletes(Ran(command)) && Cleared(old(trace))
      ensures Touched(trace) <==> Touches(Ran(command)) || Touched(old(trace))
      ensures DeployedAt(trace) == if command == Deploy then |old(trace)| else DeployedAt(old(trace))
      ensures Pending(trace) == PendingAfter(Pending(old(trace)), Ran(command))
      ensures step.mark == Passed ==> Passes(trace, |old(trace)|, command)
    {
      hide Cleared, Safe, Touched, Marks, DeployedAt, Pending;
      Emit(Ran(command));
      var ok: bool := *;
      step := new Step(name, if ok then Passed else Failed);
      if !ok {
        passed := false;
      }
      var changed: bool := *;
      if changed {
        // Whatever the command reported, what follows it is not of the commit.
        step.mark := Failed;
        passed := false;
      }
      AppendStep(step, ok, changed);
    }

    /** Records a step, the run already failed if it is. */
    method AppendStep(step: Step, ok: bool, changed: bool)
      requires Safe(trace) && step !in steps
      requires passed <==> step.mark != Failed && forall s :: s in steps ==> s.mark != Failed
      modifies this`steps, this`trace
      ensures Valid() && steps == old(steps) + [step]
      ensures trace == old(trace) + [Answered(ok, changed), Recorded(step.name, step.mark)]
      ensures Marks(trace) == Marks(old(trace)) + [step.mark]
      ensures (Cleared(trace) <==> Cleared(old(trace))) && (Touched(trace) <==> Touched(old(trace)))
      ensures DeployedAt(trace) == DeployedAt(old(trace)) && Pending(trace) == Pending(old(trace))
    {
      hide Cleared, Safe, Touched, Marks, DeployedAt, Pending;
      OneMore(trace, Answered(ok, changed));
      OneMore(trace + [Answered(ok, changed)], Recorded(step.name, step.mark));
      assert trace + [Answered(ok, changed)] + [Recorded(step.name, step.mark)]
             == trace + [Answered(ok, changed), Recorded(step.name, step.mark)];
      steps := steps + [step];
      trace := trace + [Answered(ok, changed), Recorded(step.name, step.mark)];
    }

    method Clock() returns (t: int)
      modifies this`now
      ensures t == now >= old(now)
    {
      var passes :| 0 <= passes;
      now := now + passes;
      t := now;
    }

    method Sleep(seconds: nat)
      modifies this`now
      ensures now >= old(now) + seconds
    {
      var more :| 0 <= more;
      now := now + seconds + more;
    }

    method Clean(name: string) returns (clean: bool)
      requires Valid()
      modifies this`steps, this`passed, this`trace
      ensures Valid() && Continues()
      ensures (Touched(trace) <==> Touched(old(trace))) && DeployedAt(trace) == DeployedAt(old(trace))
      ensures Pending(trace) == Pending(old(trace))
      ensures trace == old(trace) + [Recorded(name, if clean then Passed else Failed)]
      ensures (clean || !passed) && (!old(passed) ==> !passed)
    {
      clean := *;
      if clean {
        Note(name);
      } else {
        Fail(name);
      }
    }
  }
}
