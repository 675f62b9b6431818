/** `FrameWaiter` of droidvncserver.cpp: the counter of frames the capture
    source has announced and the consumer has not yet taken, with a stop flag.
    The mutex, the condition variable and the 100 ms timed wait only order the
    producer's and the consumer's calls; here the calls are taken one at a time
    and a wait that would block is excluded by a precondition. */
module FrameWaiting {

  /** The waiter's state. The counter is a signed `int` in the source and can
      go below zero through `reportExtraConsumption`. */
  datatype Gate = Gate(pending: int, stopped: bool)

  /** `onFrameAvailable`: one more frame is pending. */
  function Announce(g: Gate): Gate {
    g.(pending := g.pending + 1)
  }

  /** `reportExtraConsumption(count)`: `count` frames were taken without the counter. */
  function ReportExtra(g: Gate, count: int): Gate {
    g.(pending := g.pending - count)
  }

  /** `getPendingFrames`: a zero counter is returned as is; any other value is
      returned and the counter then drops by one (a negative one too). */
  function Poll(g: Gate): (int, Gate) {
    if g.pending == 0 then (0, g) else (g.pending, g.(pending := g.pending - 1))
  }

  /** `waitForFrame` can return without blocking: stopped, or a frame pending. */
  predicate CanReturn(g: Gate) {
    g.stopped || g.pending > 0
  }

  /** `waitForFrame`: 0 once stopped, otherwise the positive count, which then drops by one. */
  function Await(g: Gate): (int, Gate)
    requires CanReturn(g)
  {
    if g.stopped then (0, g) else (g.pending, g.(pending := g.pending - 1))
  }

  /** `stop`. */
  function Halt(g: Gate): Gate {
    g.(stopped := true)
  }

  /** The calls the producer (`FrameAvailable`) and the consumer make on a waiter. */
  datatype Call = FrameAvailable | PollPending | Wait | ExtraConsumption(count: int) | StopCall

  predicate Enabled(g: Gate, c: Call) {
    c.Wait? ==> CanReturn(g)
  }

  /** The result of one call and the waiter after it. */
  function Apply(g: Gate, c: Call): (int, Gate)
    requires Enabled(g, c)
  {
    match c
    case FrameAvailable => (0, Announce(g))
    case PollPending => Poll(g)
    case Wait => Await(g)
    case ExtraConsumption(count) => (0, ReportExtra(g, count))
    case StopCall => (0, Halt(g))
  }

  /** A sequence of calls none of which blocks forever. */
  predicate Runs(g: Gate, calls: seq<Call>)
    decreases |calls|
  {
    calls == [] || (Enabled(g, calls[0]) && Runs(Apply(g, calls[0]).1, calls[1..]))
  }

  function Run(g: Gate, calls: seq<Call>): Gate
    requires Runs(g, calls)
    decreases |calls|
  {
    if calls == [] then g else Run(Apply(g, calls[0]).1, calls[1..])
  }

  /** Frames announced by the producer in `calls`. */
  function Announced(calls: seq<Call>): nat {
    if calls == [] then 0 else (if calls[0] == FrameAvailable then 1 else 0) + Announced(calls[1..])
  }

  /** Frames the consumer took in `calls`: one per call that returned a
      non-zero count, plus every reported extra consumption. */
  function Taken(g: Gate, calls: seq<Call>): int
    requires Runs(g, calls)
    decreases |calls|
  {
    if calls == [] then 0
    else
      var (n, g') := Apply(g, calls[0]);
      var here := match calls[0]
        case ExtraConsumption(count) => count
        case PollPending => if n != 0 then 1 else 0
        case Wait => if n != 0 then 1 else 0
        case _ => 0;
      here + Taken(g', calls[1..])
  }

  /** The counter is always what was announced minus what was taken. */
  lemma {:induction false} CounterConserved(g: Gate, calls: seq<Call>)
    requires Runs(g, calls)
    ensures Run(g, calls).pending == g.pending + Announced(calls) - Taken(g, calls)
    decreases |calls|
  {
    if calls != [] {
      CounterConserved(Apply(g, calls[0]).1, calls[1..]);
    }
  }

  /** The consumer's protocol for `reportExtraConsumption`: every report
      names at most the frames pending just before it, and never a negative
      count. A poll that returned `k + 1`, followed by announcements only,
      leaves at least `k` pending, so the drain loop's skip keeps to it. */
  predicate ReportsWithinCount(g: Gate, calls: seq<Call>)
    decreases |calls|
  {
    calls == []
    || (&& Enabled(g, calls[0])
        && (calls[0].ExtraConsumption? ==> 0 <= calls[0].count <= g.pending)
        && ReportsWithinCount(Apply(g, calls[0]).1, calls[1..]))
  }

  /** When every report keeps to the protocol, the counter never goes below
      zero, whatever the order of announcements, polls, waits, reports and stops. */
  lemma {:induction false} NeverNegativeReported(g: Gate, calls: seq<Call>)
    requires g.pending >= 0 && ReportsWithinCount(g, calls)
    ensures Runs(g, calls) && Run(g, calls).pending >= 0
    decreases |calls|
  {
    if calls != [] {
      NeverNegativeReported(Apply(g, calls[0]).1, calls[1..]);
    }
  }

  /** Calls without any report keep to the protocol trivially. */
  lemma {:induction false} NoReportsWithinCount(g: Gate, calls: seq<Call>)
    requires Runs(g, calls)
    requires forall i :: 0 <= i < |calls| ==> !calls[i].ExtraConsumption?
    ensures ReportsWithinCount(g, calls)
    decreases |calls|
  {
    if calls != [] {
      assert forall i :: 0 <= i < |calls[1..]| ==> calls[1..][i] == calls[i + 1];
      NoReportsWithinCount(Apply(g, calls[0]).1, calls[1..]);
    }
  }

  /** Without extra-consumption reports the counter never goes below zero. */
  lemma NeverNegative(g: Gate, calls: seq<Call>)
    requires g.pending >= 0 && Runs(g, calls)
    requires forall i :: 0 <= i < |calls| ==> !calls[i].ExtraConsumption?
    ensures Run(g, calls).pending >= 0
  {
    NoReportsWithinCount(g, calls);
    NeverNegativeReported(g, calls);
  }

  /** The drain loop's skip keeps to the protocol: a poll that returns `n > 1`,
      any number of announcements, then a report of the other `n - 1`. */
  lemma SkipWithinCount(g: Gate, announced: nat)
    requires g.pending > 1
    ensures ReportsWithinCount(g, [PollPending] + Announcements(announced) + [ExtraConsumption(g.pending - 1)])
  {
    var g1 := Poll(g).1;
    AnnouncementsThenReport(g1, announced, g.pending - 1);
    assert ([PollPending] + Announcements(announced) + [ExtraConsumption(g.pending - 1)])[1..]
        == Announcements(announced) + [ExtraConsumption(g.pending - 1)];
  }

  /** `k` calls of `onFrameAvailable`. */
  function Announcements(k: nat): (cs: seq<Call>)
    ensures |cs| == k && forall i :: 0 <= i < k ==> cs[i] == FrameAvailable
  {
    if k == 0 then [] else [FrameAvailable] + Announcements(k - 1)
  }

  /** Announcements only raise the counter, so a report of at most the
      count before them keeps to the protocol. */
  lemma {:induction false} AnnouncementsThenReport(g: Gate, k: nat, count: int)
    requires 0 <= count <= g.pending
    ensures ReportsWithinCount(g, Announcements(k) + [ExtraConsumption(count)])
    decreases k
  {
    var cs := Announcements(k) + [ExtraConsumption(count)];
    if k == 0 {
      assert cs == [ExtraConsumption(count)];
      assert cs[1..] == [];
    } else {
      AnnouncementsThenReport(Announce(g), k - 1, count);
      assert cs[1..] == Announcements(k - 1) + [ExtraConsumption(count)];
    }
  }

  /** The drain loop's skip: polling `n > 1` frames and reporting the other
      `n - 1` as consumed brings the counter back to zero. */
  lemma SkipReturnsToZero(g: Gate)
    requires g.pending > 1
    ensures var (n, g') := Poll(g);
            n == g.pending && ReportExtra(g', n - 1) == g.(pending := 0)
  {
  }

  /** Once stopped a waiter stays stopped, `stop` again changes nothing, and a
      wait returns 0 and leaves the counter alone. */
  lemma StopIsFinal(g: Gate)
    requires g.stopped
    ensures Halt(g) == g && CanReturn(g) && Await(g) == (0, g)
    ensures Announce(g).stopped && Poll(g).1.stopped
  {
  }

  /** A polled or awaited count, when not stopped, is the frame count before the poll. */
  lemma PollTakesOne(g: Gate)
    requires g.pending != 0
    ensures Poll(g) == (g.pending, Gate(g.pending - 1, g.stopped))
  {
  }

  /** The waiter object. Its methods do what the functions above say. */
  class FrameWaiter {
    var pending: int
    var stopped: bool

    function State(): Gate
      reads this
    {
      Gate(pending, stopped)
    }

    constructor ()
      ensures State() == Gate(0, false)
    {
      pending := 0;
      stopped := false;
    }

    method WaitForFrame() returns (n: int)
      requires CanReturn(State())
      modifies this
      ensures (n, State()) == Await(old(State()))
    {
      if stopped {
        return 0;
      }
      n := pending;
      pending := pending - 1;
    }

    method ReportExtraConsumption(count: int)
      modifies this
      ensures State() == ReportExtra(old(State()), count)
    {
      pending := pending - count;
    }

    method OnFrameAvailable()
      modifies this
      ensures State() == Announce(old(State()))
    {
      pending := pending + 1;
    }

    method GetPendingFrames() returns (n: int)
      modifies this
      ensures (n, State()) == Poll(old(State()))
    {
      if pending == 0 {
        return 0;
      }
      n := pending;
      pending := pending - 1;
    }

    method Stop()
      modifies this
      ensures State() == Halt(old(State()))
    {
      stopped := true;
    }

    method IsStopped() returns (s: bool)
      ensures s == stopped
    {
      s := stopped;
    }
  }
}
