/**
 * The built-in actions of crates/rg_ai/src/actions.rs: what one run of
 * each action's process system does to a running behaviour.  These systems
 * run once per frame, not in the fixed step of the transition systems;
 * the model takes one run between two transitions.  Each step
 * changes only the behaviour's command and its action state, and keeps the
 * action's type, so the agent stays in the `Running` state of module
 * BehaviorTrees until the transition system moves it on.
 *
 * The sequence and inversion actions use the corrected `ChildSucceeded`;
 * the two `AsWritten` methods show what the source's `child_succeeded`
 * makes of them.
 */
module Actions {
  import opened Wrappers
  import opened BehaviorTrees

  /**
   * `process_sequence_until_failure`: a failed child fails the sequence;
   * otherwise the next child runs and the index advances, and once every
   * child has run the sequence succeeds.  The index never passes the
   * number of children and a requested child exists.
   */
  method ProcessSequenceUntilFailure(b: Behavior)
    requires b.action.SequenceUntilFailure?
    modifies b
    ensures b.ChildFailed() ==> b.command == Exit(Failure) && b.action == old(b.action)
    ensures !b.ChildFailed() && old(b.action.index) < b.numChildren ==>
      b.command == RunChild(old(b.action.index)) && b.action == SequenceUntilFailure(old(b.action.index) + 1)
    ensures !b.ChildFailed() && old(b.action.index) >= b.numChildren ==>
      b.command == Exit(Success) && b.action == old(b.action)
    ensures b.action.SequenceUntilFailure? && old(b.action.index) <= b.action.index <= old(b.action.index) + 1
    ensures old(b.action.index) <= b.numChildren ==> b.action.index <= b.numChildren
    ensures b.command.RunChild? ==> b.command.index < b.numChildren
  {
    if b.ChildFailed() {
      b.ReportFailure();
      return;
    }
    var index := b.action.index;
    if index < b.numChildren {
      b.RunChild(index);
      b.action := b.action.(index := b.action.index + 1);
    } else {
      b.ReportSuccess();
    }
  }

  /**
   * Two frames between two fixed steps, as scheduled: the process system
   * runs twice on a fresh sequence before any transition, and the second
   * run overwrites the request for child 0 with one for child 1.
   */
  method SequenceTwoFramesSkipsFirstChild(b: Behavior)
    requires b.action == SequenceUntilFailure(0) && b.childResult == None && b.numChildren >= 2
    modifies b
    ensures b.command == RunChild(1) && b.action == SequenceUntilFailure(2)
  {
    ProcessSequenceUntilFailure(b);
    ProcessSequenceUntilFailure(b);
  }

  /**
   * One process step between two transitions: a fresh sequence with
   * children asks for child 0 first.
   */
  method SequenceOneStepRunsFirstChild(b: Behavior)
    requires b.action == SequenceUntilFailure(0) && b.childResult == None && b.numChildren >= 1
    modifies b
    ensures b.command == RunChild(0) && b.action == SequenceUntilFailure(1)
  {
    ProcessSequenceUntilFailure(b);
  }

  /**
   * `process_sequence_until_success`: a succeeded child succeeds the
   * sequence; otherwise the next child runs and the index advances, and
   * once every child has run the sequence fails.
   */
  method ProcessSequenceUntilSuccess(b: Behavior)
    requires b.action.SequenceUntilSuccess?
    modifies b
    ensures b.ChildSucceeded() ==> b.command == Exit(Success) && b.action == old(b.action)
    ensures !b.ChildSucceeded() && old(b.action.index) < b.numChildren ==>
      b.command == RunChild(old(b.action.index)) && b.action == SequenceUntilSuccess(old(b.action.index) + 1)
    ensures !b.ChildSucceeded() && old(b.action.index) >= b.numChildren ==>
      b.command == Exit(Failure) && b.action == old(b.action)
    ensures b.action.SequenceUntilSuccess? && old(b.action.index) <= b.action.index <= old(b.action.index) + 1
    ensures old(b.action.index) <= b.numChildren ==> b.action.index <= b.numChildren
    ensures b.command.RunChild? ==> b.command.index < b.numChildren
  {
    if b.ChildSucceeded() {
      b.ReportSuccess();
      return;
    }
    var index := b.action.index;
    if index < b.numChildren {
      b.RunChild(index);
      b.action := b.action.(index := b.action.index + 1);
    } else {
      b.ReportFailure();
    }
  }

  /**
   * The same step with the source's `child_succeeded`: a child that failed
   * ends the sequence with success, and one that succeeded starts the next
   * child.
   */
  method ProcessSequenceUntilSuccessAsWritten(b: Behavior)
    requires b.action.SequenceUntilSuccess?
    modifies b
    ensures b.childResult == Some(Failure) ==> b.command == Exit(Success)
    ensures b.childResult == Some(Success) && old(b.action.index) < b.numChildren ==>
      b.command == RunChild(old(b.action.index))
  {
    if b.ChildSucceededAsWritten() {
      b.ReportSuccess();
      return;
    }
    var index := b.action.index;
    if index < b.numChildren {
      b.RunChild(index);
      b.action := b.action.(index := b.action.index + 1);
    } else {
      b.ReportFailure();
    }
  }

  /**
   * `process_always_succeed`: with no children, or once its child has
   * returned, it succeeds whatever the child did; otherwise it runs child 0.
   */
  method ProcessAlwaysSucceed(b: Behavior)
    requires b.action.AlwaysSucceed?
    modifies b
    ensures b.numChildren == 0 || b.HasReturnedFromChild() ==> b.command == Exit(Success)
    ensures b.numChildren > 0 && !b.HasReturnedFromChild() ==> b.command == RunChild(0)
    ensures b.action == old(b.action)
    ensures b.command.RunChild? ==> b.command.index < b.numChildren
  {
    if b.numChildren == 0 || b.HasReturnedFromChild() {
      b.ReportSuccess();
    } else {
      b.RunChild(0);
    }
  }

  /**
   * `process_always_fail`: with no children, or once its child has
   * returned, it fails whatever the child did; otherwise it runs child 0.
   */
  method ProcessAlwaysFail(b: Behavior)
    requires b.action.AlwaysFail?
    modifies b
    ensures b.numChildren == 0 || b.HasReturnedFromChild() ==> b.command == Exit(Failure)
    ensures b.numChildren > 0 && !b.HasReturnedFromChild() ==> b.command == RunChild(0)
    ensures b.action == old(b.action)
    ensures b.command.RunChild? ==> b.command.index < b.numChildren
  {
    if b.numChildren == 0 || b.HasReturnedFromChild() {
      b.ReportFailure();
    } else {
      b.RunChild(0);
    }
  }

  /** The opposite result. */
  function Inverse(r: BehaviorResult): (s: BehaviorResult)
    ensures s != r
  {
    if r == Success then Failure else Success
  }

  /** Inverting twice gives the result back. */
  lemma InverseInvolutive(r: BehaviorResult)
    ensures Inverse(Inverse(r)) == r
  {
  }

  /**
   * `process_invert_result`: it runs child 0 until the child returns, then
   * reports the opposite of the child's result.  Child 0 exists only when
   * the node has a child; the source does not check.
   */
  method ProcessInvertResult(b: Behavior)
    requires b.action.InvertResult?
    modifies b
    ensures !b.HasReturnedFromChild() ==> b.command == RunChild(0)
    ensures b.HasReturnedFromChild() ==> b.command == Exit(Inverse(b.childResult.value))
    ensures b.action == old(b.action)
  {
    if !b.HasReturnedFromChild() {
      b.RunChild(0);
      return;
    }
    if b.ChildSucceeded() {
      b.ReportFailure();
    } else {
      b.ReportSuccess();
    }
  }

  /**
   * The same step with the source's `child_succeeded`: the action reports
   * its child's own result instead of inverting it.
   */
  method ProcessInvertResultAsWritten(b: Behavior)
    requires b.action.InvertResult?
    modifies b
    ensures !b.HasReturnedFromChild() ==> b.command == RunChild(0)
    ensures b.HasReturnedFromChild() ==> b.command == Exit(b.childResult.value)
  {
    if !b.HasReturnedFromChild() {
      b.RunChild(0);
      return;
    }
    if b.ChildSucceededAsWritten() {
      b.ReportFailure();
    } else {
      assert b.childResult.value == Success;
      b.ReportSuccess();
    }
  }

  /**
   * `process_sleep`, `delta` being the tick's duration in nanoseconds:
   * while the remaining time covers the tick it shrinks by the tick,
   * otherwise the sleep succeeds.  The remaining time never grows.
   */
  method ProcessSleep(b: Behavior, delta: nat)
    requires b.action.Sleep?
    modifies b
    ensures delta <= old(b.action.duration) ==>
      b.action == Sleep(old(b.action.duration) - delta) && b.command == old(b.command)
    ensures delta > old(b.action.duration) ==> b.action == old(b.action) && b.command == Exit(Success)
    ensures b.action.Sleep? && b.action.duration <= old(b.action.duration)
  {
    if delta <= b.action.duration {
      b.action := b.action.(duration := b.action.duration - delta);
    } else {
      b.ReportSuccess();
    }
  }

  /** `process_log_message`: it succeeds on its first tick; the log line is not modelled. */
  method ProcessLogMessage(b: Behavior)
    requires b.action.LogMessage?
    modifies b
    ensures b.command == Exit(Success) && b.action == old(b.action)
  {
    b.ReportSuccess();
  }
}
