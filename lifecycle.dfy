/**
 * The exit policy of the dispatch loop in main: each event of a finite trace
 * is either a notification that the certificate file was updated (carrying
 * whether the split it triggers succeeds) or an interrupt signal; the daemon
 * flag decides whether the loop keeps going after one event.
 */
module Lifecycle {

  datatype Event =
    | Updated(splitOk: bool)   // the update notification; whether handleCertFiles returned nil
    | Interrupt                 // the interrupt signal

  /** How the loop ends: `return`, `os.Exit(1)`, `break`, or still blocked when the trace runs out. */
  datatype Ending = Returned | ExitedFailure | Broke | Waiting

  /** Splits performed and how the loop ended. */
  datatype Run = Run(splits: nat, ending: Ending)

  /** The reference definition: the loop run over `trace`. */
  function Dispatch(trace: seq<Event>, daemon: bool): Run
    decreases |trace|
  {
    if trace == [] then Run(0, Waiting)
    else match trace[0]
      case Interrupt => Run(0, Returned)
      case Updated(ok) =>
        if !ok then Run(1, ExitedFailure)
        else if !daemon then Run(1, Broke)
        else
          var rest := Dispatch(trace[1..], daemon);
          Run(1 + rest.splits, rest.ending)
  }

  /** The process exit status of a finished run: returning from main is 0, os.Exit(1) is 1. */
  function ExitCode(e: Ending): int
    requires e != Waiting
  {
    if e == ExitedFailure then 1 else 0
  }

  /** The for/select loop, one event per iteration. */
  method EventLoop(trace: seq<Event>, daemon: bool) returns (splits: nat, ending: Ending)
    ensures Run(splits, ending) == Dispatch(trace, daemon)
  {
    splits := 0;
    var i := 0;
    while i < |trace|
      invariant 0 <= i <= |trace|
      invariant splits == i
      invariant 0 < i ==> daemon
      invariant forall j :: 0 <= j < i ==> trace[j] == Updated(true)
      invariant Dispatch(trace, daemon) == Run(i + Dispatch(trace[i..], daemon).splits, Dispatch(trace[i..], daemon).ending)
      decreases |trace| - i
    {
      if trace[i].Interrupt? {
        return splits, Returned;
      }
      splits := splits + 1;
      if !trace[i].splitOk {
        return splits, ExitedFailure;
      }
      if !daemon {
        return splits, Broke;
      }
      assert trace[i..][1..] == trace[i + 1..];
      i := i + 1;
    }
    return splits, Waiting;
  }

  /** The first event that stops a daemon: an interrupt or a failed split. */
  predicate Stops(e: Event) {
    e.Interrupt? || !e.splitOk
  }

  /**
   * In daemon mode every successful update before the first stopping event
   * is one split; the loop returns on an interrupt, exits with status 1 on a
   * failed split (after attempting it), and is still waiting if neither occurs.
   */
  lemma {:induction false} DaemonRun(trace: seq<Event>, k: nat)
    requires k <= |trace|
    requires forall j :: 0 <= j < k ==> !Stops(trace[j])
    requires k < |trace| ==> Stops(trace[k])
    ensures Dispatch(trace, true) ==
      if k == |trace| then Run(k, Waiting)
      else if trace[k].Interrupt? then Run(k, Returned)
      else Run(k + 1, ExitedFailure)
    decreases k
  {
    if k > 0 {
      assert forall j :: 0 <= j < k - 1 ==> trace[1..][j] == trace[j + 1];
      DaemonRun(trace[1..], k - 1);
    }
  }

  /** Without the daemon flag one event is handled: at most one split, and the loop never waits for more. */
  lemma OneShot(trace: seq<Event>)
    requires |trace| > 0
    ensures Dispatch(trace, false).splits <= 1
    ensures Dispatch(trace, false).ending != Waiting
    ensures Dispatch(trace, false).splits == (if trace[0].Updated? then 1 else 0)
  {
  }

  /** An interrupt ends the loop without a split, whatever follows it. */
  lemma InterruptFirst(trace: seq<Event>, daemon: bool)
    requires |trace| > 0 && trace[0] == Interrupt
    ensures Dispatch(trace, daemon) == Run(0, Returned)
  {
  }

  /** Event `k` is a failed split reached while the loop still runs: all earlier events were successful updates, and only a daemon gets past the first. */
  predicate FailsAt(trace: seq<Event>, k: int, daemon: bool) {
    && 0 <= k < |trace| && trace[k] == Updated(false)
    && (forall j :: 0 <= j < k ==> trace[j] == Updated(true))
    && (k == 0 || daemon)
  }

  /** The run exits with status 1 exactly when a failed split is reached before any interrupt. */
  lemma {:induction false} FailureIff(trace: seq<Event>, daemon: bool)
    ensures Dispatch(trace, daemon).ending == ExitedFailure <==> exists k :: FailsAt(trace, k, daemon)
    decreases |trace|
  {
    if trace != [] && trace[0] == Updated(true) && daemon {
      FailureIff(trace[1..], daemon);
      if exists k :: FailsAt(trace[1..], k, daemon) {
        var k :| FailsAt(trace[1..], k, daemon);
        assert trace[k + 1] == trace[1..][k];
        assert forall j :: 0 <= j < k + 1 ==> trace[j] == Updated(true) by {
          forall j | 0 <= j < k + 1
            ensures trace[j] == Updated(true)
          {
            if j > 0 {
              assert trace[j] == trace[1..][j - 1];
            }
          }
        }
        assert FailsAt(trace, k + 1, daemon);
      }
      if exists k :: FailsAt(trace, k, daemon) {
        var k :| FailsAt(trace, k, daemon);
        assert trace[1..][k - 1] == trace[k];
        assert forall j :: 0 <= j < k - 1 ==> trace[1..][j] == Updated(true) by {
          forall j | 0 <= j < k - 1
            ensures trace[1..][j] == Updated(true)
          {
            assert trace[1..][j] == trace[j + 1];
          }
        }
        assert FailsAt(trace[1..], k - 1, daemon);
      }
    } else if trace != [] && trace[0] == Updated(false) {
      assert FailsAt(trace, 0, daemon);
    }
  }

  /** A finished loop leaves status 1 exactly when a failed split is reached while it still runs; every other ending leaves 0. */
  lemma ExitStatus(trace: seq<Event>, daemon: bool)
    requires Dispatch(trace, daemon).ending != Waiting
    ensures ExitCode(Dispatch(trace, daemon).ending) == 1 <==> exists k :: FailsAt(trace, k, daemon)
    ensures ExitCode(Dispatch(trace, daemon).ending) == 0 <==> !exists k :: FailsAt(trace, k, daemon)
  {
    FailureIff(trace, daemon);
  }

  /** At most one split per event; a run still waiting has split on every event. */
  lemma {:induction false} SplitsBounded(trace: seq<Event>, daemon: bool)
    ensures Dispatch(trace, daemon).splits <= |trace|
    ensures Dispatch(trace, daemon).ending == Waiting ==> Dispatch(trace, daemon).splits == |trace|
    decreases |trace|
  {
    if trace != [] && trace[0] == Updated(true) && daemon {
      SplitsBounded(trace[1..], daemon);
    }
  }
}
