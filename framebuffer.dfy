/** The framebuffer session of droidvncserver.cpp: the display library's
    screen record (`vncscr`) and the pixel buffer it serves (`vncbuf`, which is
    always the screen's `frameBuffer`). `initVncServer` creates it and
    `reinitVncServer` resizes it after a rotation change.

    The display library itself is not modelled: each call into it is recorded
    as an `Event`, in order, and its effect on the screen record is written out
    where the server relies on it. */
module Framebuffer {
  import opened IndexArith

  /** Calls into the display library and the allocator, in the order made. */
  datatype Event =
    | GetScreen(width: nat, height: nat, bytesPerPixel: nat)      // rfbGetScreen
    | InitServer                                                 // rfbInitServer
    | RescaleClient(client: nat)                                 // rfbScalingSetup on one client
    | NewFramebuffer(width: nat, height: nat, bytesPerPixel: nat) // rfbNewFramebuffer
    | FreeOldBuffer                                              // free(oldBuffer)
    | MarkModified(x: nat, y: nat, width: nat, height: nat)      // rfbMarkRectAsModified

  /** The geometry of a captured frame: its width and height in pixels, its
      stride (pixels per row in memory), bytes per pixel and byte size. */
  datatype Shape = Shape(width: nat, height: nat, stride: nat, bpp: nat, size: nat)

  /** Declared screen geometry: columns, rows and bytes per row. */
  datatype Geometry = Geometry(width: nat, height: nat, rowBytes: nat)

  /** The geometry the server declares for a frame. A forced rotation of 90 or
      270 degrees swaps the frame (`height` columns of `stride` rows); any other
      forced rotation keeps `stride` columns. Without a forced rotation the
      screen is `width x height` with rows padded to `stride` pixels. The display
      library sets the row length to `width * bpp` itself; only the unforced
      path overrides it. */
  function TargetGeometry(forced: bool, imageRotation: int, width: nat, height: nat, stride: nat, bpp: nat): (g: Geometry)
    ensures forced ==> multiset{g.width, g.height} == multiset{stride, height} && g.rowBytes == g.width * bpp
    ensures forced ==> (g.width == height && g.height == stride <==> imageRotation == 90 || imageRotation == 270)
                       || stride == height
    ensures !forced ==> g.width == width && g.height == height && g.rowBytes == stride * bpp
  {
    if forced then
      if imageRotation == 90 || imageRotation == 270 then Geometry(height, stride, height * bpp)
      else Geometry(stride, height, stride * bpp)
    else Geometry(width, height, stride * bpp)
  }

  /** Whatever the path, the declared rows exactly fill the `stride * height * bpp`
      bytes the server allocates. */
  lemma GeometryFillsBuffer(forced: bool, imageRotation: int, width: nat, height: nat, stride: nat, bpp: nat)
    ensures var g := TargetGeometry(forced, imageRotation, width, height, stride, bpp);
            g.rowBytes * g.height == stride * height * bpp
  {
    var g := TargetGeometry(forced, imageRotation, width, height, stride, bpp);
    if forced && (imageRotation == 90 || imageRotation == 270) {
      assert g.rowBytes * g.height == (height * bpp) * stride;
    } else {
      assert g.rowBytes * g.height == (stride * bpp) * height;
    }
  }

  /** With a forced rotation the declared screen has exactly one pixel per
      buffer element; without one it is no wider than the padded row when the
      frame's width is within its stride. */
  lemma GeometryWithinFrame(forced: bool, imageRotation: int, width: nat, height: nat, stride: nat, bpp: nat)
    ensures var g := TargetGeometry(forced, imageRotation, width, height, stride, bpp);
            && (forced ==> g.width * g.height == stride * height)
            && (!forced ==> g.height == height && g.rowBytes == stride * bpp)
            && (!forced && width <= stride ==> g.width <= stride)
  {
    var g := TargetGeometry(forced, imageRotation, width, height, stride, bpp);
    if forced && (imageRotation == 90 || imageRotation == 270) {
      assert g.width * g.height == height * stride;
    }
  }

  /** The no-op test of `reinitVncServer`: the declared width and height equal
      the target's. The row length, and so the stride, is not compared. */
  predicate Skips(current: Geometry, target: Geometry): (b: bool)
    ensures b <==> current.(rowBytes := target.rowBytes) == target
  {
    current.width == target.width && current.height == target.height
  }

  /** With a forced rotation the declared screen has one pixel per buffer
      element, so equal width and height mean an equal pixel count. Without one
      the stride can differ behind equal width and height. */
  lemma SkipsKeepsPixelCount(forced: bool, imageRotation: int, width: nat, height: nat, stride: nat, bpp: nat,
                             current: Geometry)
    requires Skips(current, TargetGeometry(forced, imageRotation, width, height, stride, bpp))
    ensures forced ==> current.width * current.height == stride * height
  {
    if forced && (imageRotation == 90 || imageRotation == 270) {
      MulComm(height, stride);
    }
  }

  /** `RescaleClient(0), ..., RescaleClient(n - 1)`: one scaling call per connected client. */
  function RescaleAll(n: nat): (r: seq<Event>)
    ensures |r| == n && forall i :: 0 <= i < n ==> r[i] == RescaleClient(i)
  {
    if n == 0 then [] else RescaleAll(n - 1) + [RescaleClient(n - 1)]
  }

  /** The screen record together with the buffer it serves. `T` is the pixel
      word of the served depth, so one element is `bpp` bytes. */
  class Session<T(0)> {
    var width: nat                // vncscr->width
    var height: nat               // vncscr->height
    var paddedWidthInBytes: nat   // vncscr->paddedWidthInBytes
    var bitsPerPixel: nat         // vncscr->bitsPerPixel
    var frameBuffer: array<T>     // vncscr->frameBuffer, also held in vncbuf
    var clients: nat              // connected viewers
    var events: seq<Event>
    ghost var freed: set<array<T>>

    /** The screen never serves a buffer that has been freed. */
    ghost predicate Valid()
      reads this
    {
      frameBuffer !in freed
    }

    /** The geometry the screen currently declares. */
    function Declared(): Geometry
      reads this
    {
      Geometry(width, height, paddedWidthInBytes)
    }

    /** `initVncServer`: allocate `stride * height` pixels, create the screen with
        the target geometry and start serving. */
    constructor Init(forced: bool, imageRotation: int, width: nat, height: nat, stride: nat, bpp: nat)
      ensures Valid() && fresh(frameBuffer) && freed == {}
      ensures frameBuffer.Length == stride * height
      ensures Declared() == TargetGeometry(forced, imageRotation, width, height, stride, bpp)
      ensures bitsPerPixel == bpp * 8 && clients == 0
      ensures events == [GetScreen(this.width, this.height, bpp), InitServer]
    {
      var buffer := new T[stride * height];
      var g := TargetGeometry(forced, imageRotation, width, height, stride, bpp);
      this.width, this.height := g.width, g.height;
      paddedWidthInBytes := g.rowBytes;
      bitsPerPixel := bpp * 8;
      frameBuffer := buffer;
      clients := 0;
      events := [GetScreen(g.width, g.height, bpp), InitServer];
      freed := {};
    }

    /** The screen after a real reinitialisation towards the target geometry:
        every client rescaled, then the new geometry declared on a fresh
        `stride * height` buffer, the old one freed (`recreateBuffer`), or on the
        buffer it already had. */
    twostate predicate Resized(forced: bool, imageRotation: int, width: nat, height: nat, stride: nat, bpp: nat,
                               recreateBuffer: bool)
      reads this
    {
      var g := TargetGeometry(forced, imageRotation, width, height, stride, bpp);
      && Declared() == g && bitsPerPixel == bpp * 8 && clients == old(clients)
      && events == old(events) + RescaleAll(old(clients)) + [NewFramebuffer(g.width, g.height, bpp)]
                   + (if recreateBuffer then [FreeOldBuffer] else [])
      && (recreateBuffer ==> fresh(frameBuffer) && frameBuffer.Length == stride * height
                             && freed == old(freed) + {old(frameBuffer)})
      && (!recreateBuffer ==> frameBuffer == old(frameBuffer) && freed == old(freed))
    }

    /** `reinitVncServer`: nothing at all happens, not even when `recreateBuffer`
        asks for a new buffer, if the declared width and height already equal the
        target's; otherwise the screen is `Resized`. */
    method Reinit(forced: bool, imageRotation: int, width: nat, height: nat, stride: nat, bpp: nat, recreateBuffer: bool)
      requires Valid()
      modifies this
      ensures Valid()
      ensures Skips(old(Declared()), TargetGeometry(forced, imageRotation, width, height, stride, bpp)) ==> unchanged(this)
      ensures !Skips(old(Declared()), TargetGeometry(forced, imageRotation, width, height, stride, bpp)) ==>
                Resized(forced, imageRotation, width, height, stride, bpp, recreateBuffer)
    {
      if Skips(Declared(), TargetGeometry(forced, imageRotation, width, height, stride, bpp)) {
        return;
      }
      Resize(forced, imageRotation, width, height, stride, bpp, recreateBuffer);
    }

    /** `reinitVncServer` with its no-op test also requiring that no new buffer
        was asked for: a requested buffer is always allocated, so the buffer
        holds `stride * height` pixels whenever the caller asked for that size. */
    method ReinitChecked(forced: bool, imageRotation: int, width: nat, height: nat, stride: nat, bpp: nat,
                         recreateBuffer: bool)
      requires Valid()
      modifies this
      ensures Valid()
      ensures recreateBuffer ==> frameBuffer.Length == stride * height && old(frameBuffer) in freed
      ensures !recreateBuffer ==> frameBuffer == old(frameBuffer)
      ensures Skips(old(Declared()), TargetGeometry(forced, imageRotation, width, height, stride, bpp)) && !recreateBuffer
              ==> unchanged(this)
      ensures !(Skips(old(Declared()), TargetGeometry(forced, imageRotation, width, height, stride, bpp)) && !recreateBuffer)
              ==> Resized(forced, imageRotation, width, height, stride, bpp, recreateBuffer)
    {
      if Skips(Declared(), TargetGeometry(forced, imageRotation, width, height, stride, bpp)) && !recreateBuffer {
        return;
      }
      Resize(forced, imageRotation, width, height, stride, bpp, recreateBuffer);
    }

    /** The loop over the connected clients: each is rescaled, in order. */
    method RescaleClients()
      modifies this`events
      ensures events == old(events) + RescaleAll(clients)
    {
      var i := 0;
      while i < clients
        invariant 0 <= i <= clients
        invariant events == old(events) + RescaleAll(i)
      {
        events := events + [RescaleClient(i)];
        i := i + 1;
      }
    }

    /** The work of a real reinitialisation. */
    method Resize(forced: bool, imageRotation: int, width: nat, height: nat, stride: nat, bpp: nat, recreateBuffer: bool)
      requires Valid()
      modifies this
      ensures Valid()
      ensures Resized(forced, imageRotation, width, height, stride, bpp, recreateBuffer)
    {
      var g := TargetGeometry(forced, imageRotation, width, height, stride, bpp);
      // rescale every connected client before the framebuffer changes
      RescaleClients();
      if recreateBuffer {
        var oldBuffer := frameBuffer;
        var newBuffer := new T[stride * height];
        // install the new buffer, then free the old one
        frameBuffer := newBuffer;
        this.width, this.height, paddedWidthInBytes := g.width, g.height, g.rowBytes;
        events := events + [NewFramebuffer(g.width, g.height, bpp)];
        freed := freed + {oldBuffer};
        events := events + [FreeOldBuffer];
      } else {
        this.width, this.height, paddedWidthInBytes := g.width, g.height, g.rowBytes;
        events := events + [NewFramebuffer(g.width, g.height, bpp)];
      }
      bitsPerPixel := bpp * 8;
    }
  }
}
