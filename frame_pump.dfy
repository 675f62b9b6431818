/** The frame pump of `main` in droidvncserver.cpp: start-up on the first
    captured frame (kernel choice, screen creation, size check), the reaction to
    a change of device rotation, and the loop that drains pending frames.

    The capture source is abstract: the `n`-th `consumePendingFrame` call
    returns the error code `outcome(n)` (0 when a frame was delivered), and what
    the pump does with it is recorded as `Activity`, in order. A call of the
    selected screen-update kernel is recorded as `Update`; what the kernel
    writes is the contract of the `UpdateScreen` module, whose precondition
    (`stride * height` served pixels fit the buffer) is what `Fits` states. */
module FramePump {
  import opened Wrappers
  import opened IndexArith
  import opened ImageRotation
  import opened Options
  import opened Framebuffer
  import opened FrameWaiting

  /** The screen-update kernels `updateScreen1/2/4/8` and `updateScreen42`. */
  datatype Kernel = Update1 | Update2 | Update4 | Update8 | Update42

  /** Bytes per pixel a kernel reads from a frame (its source element type). */
  function BytesIn(k: Kernel): nat {
    match k
    case Update1 => 1
    case Update2 => 2
    case Update4 => 4
    case Update8 => 8
    case Update42 => 4
  }

  /** Bytes per pixel a kernel writes to the served buffer. */
  function BytesOut(k: Kernel): nat {
    match k
    case Update1 => 1
    case Update2 => 2
    case Update4 => 4
    case Update8 => 8
    case Update42 => 2
  }

  datatype Selection = Selected(kernel: Kernel, targetBpp: nat) | Unsupported(bpp: int)

  /** The kernel for the first frame's bytes per pixel: the one of the same
      width, except that with `-d` a 4-byte frame is served at 2 bytes; widths
      other than 1, 2, 4 and 8 are refused. */
  function SelectKernel(downgrade: bool, bpp: int): (s: Selection)
    ensures s.Selected? <==> bpp == 1 || bpp == 2 || bpp == 4 || bpp == 8
    ensures s.Selected? ==> BytesIn(s.kernel) == bpp && BytesOut(s.kernel) == s.targetBpp
    ensures s.Selected? ==> (s.kernel == Update42 <==> downgrade && bpp == 4)
    ensures s.Unsupported? ==> s.bpp == bpp
  {
    if bpp == 1 then Selected(Update1, 1)
    else if bpp == 2 then Selected(Update2, 2)
    else if bpp == 4 then (if downgrade then Selected(Update42, 2) else Selected(Update4, 4))
    else if bpp == 8 then Selected(Update8, 8)
    else Unsupported(bpp)
  }

  /** Only the downgrading kernel changes the pixel width, and only ever narrows it. */
  lemma SelectionNarrowsOnlyOnDowngrade(downgrade: bool, bpp: int)
    requires SelectKernel(downgrade, bpp).Selected?
    ensures var s := SelectKernel(downgrade, bpp);
            && s.targetBpp <= bpp
            && (s.targetBpp != bpp <==> downgrade && bpp == 4)
            && (!downgrade ==> s.targetBpp == bpp)
  {
  }

  /** The byte size a frame of this geometry must have. */
  function ExpectedSize(f: Shape): nat {
    f.stride * f.height * f.bpp
  }

  /** What happens between the pump, the capture source and the display, in order. */
  datatype Activity = Consume(err: int) | Update | Release

  /** Why the pump stops the process. */
  datatype Failure =
    | FirstFrameUnreadable(err: int)
    | UnsupportedBpp(bpp: int)
    | UnexpectedFrameSize(size: nat, expected: nat)

  /** A frame taken for display: consumed, shown when it was delivered, released. */
  function Round(err: int): seq<Activity> {
    [Consume(err)] + (if err == 0 then [Update] else []) + [Release]
  }

  /** `count` frames consumed from call `from` on and released without being shown. */
  function Skipped(outcome: nat -> int, from: nat, count: nat): seq<Activity>
    decreases count
  {
    if count == 0 then [] else Skipped(outcome, from, count - 1) + [Consume(outcome(from + count - 1)), Release]
  }

  /** `count` frames taken for display from call `from` on. */
  function Shown(outcome: nat -> int, from: nat, count: nat): seq<Activity>
    decreases count
  {
    if count == 0 then [] else Shown(outcome, from, count - 1) + Round(outcome(from + count - 1))
  }

  /** What the drain loop does with `n` pending frames: nothing when there are
      none; with frame skipping and more than one, all but the last skipped and
      the last taken for display; otherwise every one taken for display. */
  function DrainTrace(outcome: nat -> int, from: nat, n: int, skip: bool): seq<Activity> {
    if n <= 0 then []
    else if skip && n > 1 then Skipped(outcome, from, n - 1) + Round(outcome(from + n - 1))
    else Shown(outcome, from, n)
  }

  /** Every consumed frame is released straight away, after being shown if
      and only if it was delivered; nothing is shown or released otherwise. */
  predicate Paired(t: seq<Activity>)
    decreases |t|
  {
    t == []
    || (|t| >= 2 && t[0].Consume? && t[0].err != 0 && t[1] == Release && Paired(t[2..]))
    || (|t| >= 3 && t[0] == Consume(0) && t[1] == Update && t[2] == Release && Paired(t[3..]))
  }

  /** A skipped frame is released even when delivered; otherwise the same pairing. */
  predicate PairedSkipping(t: seq<Activity>)
    decreases |t|
  {
    t == []
    || (|t| >= 2 && t[0].Consume? && t[1] == Release && PairedSkipping(t[2..]))
    || (|t| >= 3 && t[0] == Consume(0) && t[1] == Update && t[2] == Release && PairedSkipping(t[3..]))
  }

  function Consumes(t: seq<Activity>): nat {
    if t == [] then 0 else (if t[0].Consume? then 1 else 0) + Consumes(t[1..])
  }

  function Releases(t: seq<Activity>): nat {
    if t == [] then 0 else (if t[0] == Release then 1 else 0) + Releases(t[1..])
  }

  function Updates(t: seq<Activity>): nat {
    if t == [] then 0 else (if t[0] == Update then 1 else 0) + Updates(t[1..])
  }

  lemma {:induction false} CountsAdd(a: seq<Activity>, b: seq<Activity>)
    ensures Consumes(a + b) == Consumes(a) + Consumes(b)
    ensures Releases(a + b) == Releases(a) + Releases(b)
    ensures Updates(a + b) == Updates(a) + Updates(b)
    decreases |a|
  {
    if a == [] {
      assert a + b == b;
    } else {
      assert (a + b)[0] == a[0] && (a + b)[1..] == a[1..] + b;
      CountsAdd(a[1..], b);
    }
  }

  lemma {:induction false} PairedAppend(a: seq<Activity>, b: seq<Activity>)
    requires Paired(a) && Paired(b)
    ensures Paired(a + b)
    decreases |a|
  {
    if a != [] {
      assert (a + b)[0] == a[0] && (a + b)[1] == a[1];
      if |a| >= 2 && a[0].Consume? && a[0].err != 0 && a[1] == Release && Paired(a[2..]) {
        assert (a + b)[2..] == a[2..] + b;
        PairedAppend(a[2..], b);
      } else {
        assert (a + b)[2] == a[2] && (a + b)[3..] == a[3..] + b;
        PairedAppend(a[3..], b);
      }
    } else {
      assert a + b == b;
    }
  }

  lemma {:induction false} PairedSkippingAppend(a: seq<Activity>, b: seq<Activity>)
    requires PairedSkipping(a) && PairedSkipping(b)
    ensures PairedSkipping(a + b)
    decreases |a|
  {
    if a != [] {
      assert (a + b)[0] == a[0] && (a + b)[1] == a[1];
      if |a| >= 2 && a[0].Consume? && a[1] == Release && PairedSkipping(a[2..]) {
        assert (a + b)[2..] == a[2..] + b;
        PairedSkippingAppend(a[2..], b);
      } else {
        assert (a + b)[2] == a[2] && (a + b)[3..] == a[3..] + b;
        PairedSkippingAppend(a[3..], b);
      }
    } else {
      assert a + b == b;
    }
  }

  lemma {:induction false} PairedSkips(t: seq<Activity>)
    requires Paired(t)
    ensures PairedSkipping(t)
    decreases |t|
  {
    if t != [] {
      if |t| >= 2 && t[0].Consume? && t[0].err != 0 && t[1] == Release && Paired(t[2..]) {
        PairedSkips(t[2..]);
      } else {
        PairedSkips(t[3..]);
      }
    }
  }

  lemma RoundPaired(err: int)
    ensures Paired(Round(err))
    ensures Consumes(Round(err)) == 1 && Releases(Round(err)) == 1
    ensures Updates(Round(err)) == if err == 0 then 1 else 0
  {
    var t := Round(err);
    var last := [Release];
    assert last[1..] == [];
    assert Consumes(last) == 0 && Releases(last) == 1 && Updates(last) == 0;
    if err == 0 {
      var tail := [Update, Release];
      assert t == [Consume(0)] + tail && tail[1..] == last && t[3..] == [];
      assert Consumes(tail) == 0 && Releases(tail) == 1 && Updates(tail) == 1;
    } else {
      assert t == [Consume(err)] + last && t[2..] == [];
    }
  }

  /** Taking `count` frames for display consumes and releases each of them and
      shows exactly the delivered ones. */
  lemma {:induction false} ShownFacts(outcome: nat -> int, from: nat, count: nat)
    ensures Paired(Shown(outcome, from, count))
    ensures Consumes(Shown(outcome, from, count)) == count
    ensures Releases(Shown(outcome, from, count)) == count
    ensures Updates(Shown(outcome, from, count)) <= count
    decreases count
  {
    if count > 0 {
      ShownFacts(outcome, from, count - 1);
      RoundPaired(outcome(from + count - 1));
      PairedAppend(Shown(outcome, from, count - 1), Round(outcome(from + count - 1)));
      CountsAdd(Shown(outcome, from, count - 1), Round(outcome(from + count - 1)));
    }
  }

  /** Skipping `count` frames consumes and releases each of them and shows none. */
  lemma {:induction false} SkippedFacts(outcome: nat -> int, from: nat, count: nat)
    ensures PairedSkipping(Skipped(outcome, from, count))
    ensures Consumes(Skipped(outcome, from, count)) == count
    ensures Releases(Skipped(outcome, from, count)) == count
    ensures Updates(Skipped(outcome, from, count)) == 0
    decreases count
  {
    if count > 0 {
      var pair := [Consume(outcome(from + count - 1)), Release];
      SkippedFacts(outcome, from, count - 1);
      var last := [Release];
      assert pair[2..] == [] && pair[1..] == last && last[1..] == [];
      assert Consumes(last) == 0 && Releases(last) == 1 && Updates(last) == 0;
      assert Consumes(pair) == 1 && Releases(pair) == 1 && Updates(pair) == 0;
      PairedSkippingAppend(Skipped(outcome, from, count - 1), pair);
      CountsAdd(Skipped(outcome, from, count - 1), pair);
    }
  }

  /** The drain loop consumes every pending frame and releases each one right
      after consuming it, whatever the error. With frame skipping and more than
      one frame pending at most the last frame is shown, exactly when it was
      delivered; without skipping every delivered frame is shown. */
  lemma DrainFacts(outcome: nat -> int, from: nat, n: int, skip: bool)
    ensures var t := DrainTrace(outcome, from, n, skip);
            && PairedSkipping(t)
            && Consumes(t) == (if n > 0 then n else 0)
            && Releases(t) == Consumes(t)
    ensures !(skip && n > 1) ==> Paired(DrainTrace(outcome, from, n, skip))
    ensures skip && n > 1 ==>
              Updates(DrainTrace(outcome, from, n, skip)) == (if outcome(from + n - 1) == 0 then 1 else 0)
  {
    if n > 0 {
      if skip && n > 1 {
        var last := Round(outcome(from + n - 1));
        SkippedFacts(outcome, from, n - 1);
        RoundPaired(outcome(from + n - 1));
        PairedSkips(last);
        PairedSkippingAppend(Skipped(outcome, from, n - 1), last);
        CountsAdd(Skipped(outcome, from, n - 1), last);
      } else {
        ShownFacts(outcome, from, n);
        PairedSkips(Shown(outcome, from, n));
      }
    }
  }

  /** Five frames pending with frame skipping, all delivered: four are consumed
      and released, the fifth is consumed, shown and released. */
  lemma FiveFramesSkipped(outcome: nat -> int, from: nat)
    requires forall k :: from <= k < from + 5 ==> outcome(k) == 0
    ensures DrainTrace(outcome, from, 5, true)
         == [Consume(0), Release, Consume(0), Release, Consume(0), Release, Consume(0), Release,
             Consume(0), Update, Release]
  {
    assert outcome(from) == 0 && outcome(from + 1) == 0 && outcome(from + 2) == 0;
    assert outcome(from + 3) == 0 && outcome(from + 4) == 0;
    assert Skipped(outcome, from, 1) == [Consume(0), Release];
    assert Skipped(outcome, from, 2) == [Consume(0), Release, Consume(0), Release];
    assert Skipped(outcome, from, 3) == [Consume(0), Release, Consume(0), Release, Consume(0), Release];
  }

  /** A kept buffer sized for the frame before a rotation change, after which
      the frame has the same width and height but a wider stride: without a
      forced rotation the screen already declares the target width and height,
      so `reinitVncServer`'s no-op test holds although a new, larger buffer was
      asked for, and `Session.Reinit` keeps the smaller one. */
  lemma StaleBufferAsWritten()
    ensures var before := Shape(720, 1280, 720, 4, 720 * 1280 * 4);
            var after := Shape(720, 1280, 736, 4, 736 * 1280 * 4);
            var declared := TargetGeometry(false, 0, before.width, before.height, before.stride, 4);
            && before.size == ExpectedSize(before) && after.size == ExpectedSize(after)
            && Skips(declared, TargetGeometry(false, 0, after.width, after.height, after.stride, 4))
            && ExpectedSize(after) != ExpectedSize(before)
            && before.stride * before.height < after.stride * after.height
  {
  }

  /** Equal byte sizes at the same pixel width mean equal pixel counts. */
  lemma SamePixelCount(a: nat, b: nat, k: nat)
    requires k > 0 && a * k == b * k
    ensures a == b
  {
    if a < b {
      MulMonotone(a + 1, b, k);
    } else if b < a {
      MulMonotone(b + 1, a, k);
    }
  }

  /** The pump: the served screen, the waiter the capture source signals, the
      configuration from the command line and the kernel chosen at start-up. */
  class Pump<T(0)> {
    const config: Config
    const kernel: Kernel
    const targetBpp: nat
    const frameBpp: nat
    const outcome: nat -> int
    var session: Session<T>
    var waiter: FrameWaiter
    var imageRotation: Degrees
    var expectedFrameSize: nat
    var consumed: nat
    var trace: seq<Activity>

    /** The buffer holds the `stride * height` pixels of the last checked frame,
        whose byte size is `expectedFrameSize`; the screen serves no freed buffer. */
    ghost predicate Valid()
      reads this, session
    {
      && session.Valid() && frameBpp > 0 && session.frameBuffer.Length * frameBpp == expectedFrameSize
      && (Forced(config) ==> session.width * session.height == session.frameBuffer.Length)
    }

    /** A kernel call on a `stride x height` frame stays inside the served buffer. */
    ghost predicate Fits(stride: nat, height: nat)
      reads this, session
    {
      stride * height <= session.frameBuffer.Length
    }

    constructor (config: Config, kernel: Kernel, targetBpp: nat, frameBpp: nat, outcome: nat -> int,
                 session: Session<T>, waiter: FrameWaiter, imageRotation: Degrees, expectedFrameSize: nat,
                 consumed: nat, trace: seq<Activity>)
      ensures this.config == config && this.kernel == kernel && this.targetBpp == targetBpp
      ensures this.frameBpp == frameBpp && this.outcome == outcome && this.session == session
      ensures this.waiter == waiter && this.imageRotation == imageRotation
      ensures this.expectedFrameSize == expectedFrameSize && this.consumed == consumed && this.trace == trace
    {
      this.config, this.kernel, this.targetBpp, this.frameBpp, this.outcome := config, kernel, targetBpp, frameBpp, outcome;
      this.session, this.waiter, this.imageRotation := session, waiter, imageRotation;
      this.expectedFrameSize, this.consumed, this.trace := expectedFrameSize, consumed, trace;
    }

    /** `consumePendingFrame`: the next error code of the capture source. */
    method ConsumePendingFrame() returns (err: int)
      modifies this`consumed, this`trace
      ensures err == outcome(old(consumed)) && consumed == old(consumed) + 1
      ensures trace == old(trace) + [Consume(err)]
    {
      err := outcome(consumed);
      consumed := consumed + 1;
      trace := trace + [Consume(err)];
    }

    /** `releaseConsumedFrame`. */
    method ReleaseConsumedFrame()
      modifies this`trace
      ensures trace == old(trace) + [Release]
    {
      trace := trace + [Release];
    }

    /** The reaction to a change of device rotation: recompute the frame
        rotation, stop the old waiter and wait on the new one, consume the first
        re-oriented frame (its error code is not looked at), check its byte size
        (fatal when it is not `stride * height * bpp`), reinitialise the screen,
        asking for a new buffer exactly when the byte size changed, then show and
        release the frame. The screen is reinitialised by `ReinitChecked`, so the
        buffer then holds the frame's `stride * height` pixels. */
    method Reorient(screenRotation: Degrees, next: FrameWaiter, frame: Shape) returns (failure: Option<Failure>)
      requires Valid() && frame.bpp == frameBpp
      requires next != waiter && !next.stopped && next.pending > 0
      modifies this, session, waiter, next
      ensures old(waiter).stopped && waiter == next && next.State() == Await(old(next.State())).1
      ensures session == old(session) && consumed == old(consumed) + 1
      ensures imageRotation == GetImageRotation(screenRotation, config.mask, config.rotate180)
      ensures frame.size != ExpectedSize(frame) ==>
                failure == Some(UnexpectedFrameSize(frame.size, ExpectedSize(frame)))
                && trace == old(trace) + [Consume(outcome(old(consumed)))]
                && unchanged(session) && expectedFrameSize == old(expectedFrameSize)
      ensures frame.size == ExpectedSize(frame) ==>
                var target := TargetGeometry(Forced(config), imageRotation, frame.width, frame.height, frame.stride, targetBpp);
                var resized := frame.size != old(expectedFrameSize);
                && (Skips(old(session.Declared()), target) && !resized ==> unchanged(session))
                && (!(Skips(old(session.Declared()), target) && !resized) ==>
                      session.Resized(Forced(config), imageRotation, frame.width, frame.height, frame.stride,
                                      targetBpp, resized))
      ensures frame.size == ExpectedSize(frame) ==>
                && failure == None && Valid() && Fits(frame.stride, frame.height)
                && session.frameBuffer.Length == frame.stride * frame.height
                && expectedFrameSize == frame.size
                && (frame.size != old(expectedFrameSize) ==> fresh(session.frameBuffer))
                && trace == old(trace) + [Consume(outcome(old(consumed))), Update, Release]
    {
      imageRotation := GetImageRotation(screenRotation, config.mask, config.rotate180);
      waiter.Stop();
      waiter := next;
      var _ := waiter.WaitForFrame();
      var err := ConsumePendingFrame();
      var newFrameSize := ExpectedSize(frame);
      if frame.size != newFrameSize {
        return Some(UnexpectedFrameSize(frame.size, newFrameSize));
      }
      ghost var oldLength := session.frameBuffer.Length;
      ghost var oldDeclared := session.Declared();
      var forced := Forced(config);
      session.ReinitChecked(forced, imageRotation, frame.width, frame.height, frame.stride, targetBpp,
                            newFrameSize != expectedFrameSize);
      GeometryWithinFrame(forced, imageRotation, frame.width, frame.height, frame.stride, targetBpp);
      if newFrameSize == expectedFrameSize {
        SamePixelCount(oldLength, frame.stride * frame.height, frameBpp);
      }
      expectedFrameSize := newFrameSize;
      trace := trace + [Update];
      ReleaseConsumedFrame();
      failure := None;
    }

    /** One frame taken for display: consumed, handed to the kernel only when
        it was delivered (error code 0), then released. */
    method TakeFrame()
      modifies this`consumed, this`trace
      ensures consumed == old(consumed) + 1
      ensures trace == old(trace) + Round(outcome(old(consumed)))
    {
      var err := ConsumePendingFrame();
      if err == 0 {
        trace := trace + [Update];
      }
      ReleaseConsumedFrame();
    }

    /** The inner loop of frame skipping: `count` frames consumed and released,
        none shown, whatever their error codes. */
    method SkipFrames(count: nat)
      modifies this`consumed, this`trace
      ensures consumed == old(consumed) + count
      ensures trace == old(trace) + Skipped(outcome, old(consumed), count)
    {
      var pending := count;
      while pending >= 1
        invariant 0 <= pending <= count
        invariant consumed == old(consumed) + (count - pending)
        invariant trace == old(trace) + Skipped(outcome, old(consumed), count - pending)
      {
        var err := ConsumePendingFrame();
        ReleaseConsumedFrame();
        pending := pending - 1;
      }
    }

    /** The loop that drains the pending frames: while the waiter is not stopped
        and `getPendingFrames` returns a positive `n`, either (frame skipping,
        `n > 1`) report `n - 1` frames as consumed, consume and release them,
        then take one more, or take one; a taken frame is shown only when it was
        delivered, and released in any case. Afterwards the counter is 0 (or,
        having started below 0, one lower still). */
    method Drain()
      modifies this`consumed, this`trace, waiter
      ensures waiter.stopped == old(waiter.stopped)
      ensures old(waiter.stopped) ==>
                waiter.pending == old(waiter.pending) && trace == old(trace) && consumed == old(consumed)
      ensures !old(waiter.stopped) ==>
                && trace == old(trace) + DrainTrace(outcome, old(consumed), old(waiter.pending), config.skipFrames)
                && consumed == old(consumed) + (if old(waiter.pending) > 0 then old(waiter.pending) else 0)
                && waiter.pending == (if old(waiter.pending) < 0 then old(waiter.pending) - 1 else 0)
    {
      ghost var n := waiter.pending;
      ghost var c0 := consumed;
      ghost var t0 := trace;
      ghost var skipping := config.skipFrames && n > 1;
      while true
        invariant waiter.stopped == old(waiter.stopped) && consumed >= c0
        invariant old(waiter.stopped) ==> waiter.pending == n && trace == t0 && consumed == c0
        invariant !old(waiter.stopped) ==> waiter.pending == n - (consumed - c0)
        invariant !old(waiter.stopped) && n <= 0 ==> consumed == c0 && trace == t0
        invariant !old(waiter.stopped) && skipping ==>
                    (consumed == c0 && trace == t0) || (consumed == c0 + n && trace == t0 + DrainTrace(outcome, c0, n, true))
        invariant !old(waiter.stopped) && !skipping && n > 0 ==>
                    consumed - c0 <= n && trace == t0 + Shown(outcome, c0, consumed - c0)
        decreases if waiter.pending > 0 then waiter.pending else 0
      {
        var stopped := waiter.IsStopped();
        if stopped {
          break;
        }
        var pending := waiter.GetPendingFrames();
        if pending <= 0 {
          break;
        }
        if config.skipFrames && pending > 1 {
          waiter.ReportExtraConsumption(pending - 1);
          pending := pending - 1;
          SkipFrames(pending);
        }
        TakeFrame();
      }
    }
  }

  /** How start-up ends: a running pump, or the process stopped with a diagnostic. */
  datatype Startup<T(0)> = Started(pump: Pump<T>) | Aborted(failure: Failure)

  /** Start-up on the first frame: wait for it on the capture source's waiter
      and consume it (fatal when that fails), choose the kernel for its bytes
      per pixel (fatal when unsupported), create the screen for the chosen width
      with the rotation `getImageRotation` gives, check the frame's byte size
      (fatal when it is not `stride * height * bpp`), then show and release it.
      The waiter has been signalled at least once, so the wait returns. */
  method Start<T(0)>(config: Config, outcome: nat -> int, screenRotation: Degrees, waiter: FrameWaiter, first: Shape)
    returns (r: Startup<T>)
    requires !waiter.stopped && waiter.pending > 0
    modifies waiter
    ensures outcome(0) != 0 ==> r == Aborted(FirstFrameUnreadable(outcome(0)))
    ensures outcome(0) == 0 && SelectKernel(config.downgrade, first.bpp).Unsupported? ==>
              r == Aborted(UnsupportedBpp(first.bpp))
    ensures outcome(0) == 0 && SelectKernel(config.downgrade, first.bpp).Selected? && first.size != ExpectedSize(first) ==>
              r == Aborted(UnexpectedFrameSize(first.size, ExpectedSize(first)))
    ensures r.Started? <==>
              outcome(0) == 0 && SelectKernel(config.downgrade, first.bpp).Selected? && first.size == ExpectedSize(first)
    ensures waiter.State() == Await(old(waiter.State())).1
    ensures r.Started? ==>
              var p := r.pump;
              && fresh(p) && fresh(p.session) && p.Valid() && p.Fits(first.stride, first.height)
              && p.config == config && p.outcome == outcome && p.waiter == waiter
              && p.kernel == SelectKernel(config.downgrade, first.bpp).kernel
              && p.targetBpp == SelectKernel(config.downgrade, first.bpp).targetBpp
              && p.frameBpp == first.bpp && p.expectedFrameSize == first.size
              && p.imageRotation == GetImageRotation(screenRotation, config.mask, config.rotate180)
              && p.session.Declared()
                 == TargetGeometry(Forced(config), p.imageRotation, first.width, first.height, first.stride, p.targetBpp)
              && p.session.events == [GetScreen(p.session.width, p.session.height, p.targetBpp), InitServer]
              && p.consumed == 1 && p.trace == [Consume(0), Update, Release]
  {
    var imageRotation := GetImageRotation(screenRotation, config.mask, config.rotate180);
    var _ := waiter.WaitForFrame();
    var err := outcome(0);
    if err != 0 {
      return Aborted(FirstFrameUnreadable(err));
    }
    var selection := SelectKernel(config.downgrade, first.bpp);
    if selection.Unsupported? {
      return Aborted(UnsupportedBpp(first.bpp));
    }
    var session := new Session<T>.Init(Forced(config), imageRotation, first.width, first.height, first.stride,
                                       selection.targetBpp);
    var expected := ExpectedSize(first);
    if expected != first.size {
      return Aborted(UnexpectedFrameSize(first.size, expected));
    }
    GeometryWithinFrame(Forced(config), imageRotation, first.width, first.height, first.stride, selection.targetBpp);
    var pump := new Pump(config, selection.kernel, selection.targetBpp, first.bpp, outcome, session, waiter,
                         imageRotation, expected, 1, [Consume(0), Update, Release]);
    return Started(pump);
  }
}