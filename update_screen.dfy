/** The screen-update kernels: `updateScreen1/2/4/8` (update_screen_template.cpp
    instantiated in update_screen.cpp for `uint8_t` to `uint64_t` pixels) and
    `updateScreen42` (update_screen_downgrade_template.cpp, `uint32_t` in,
    `uint16_t` out). Each copies one captured frame into the served buffer,
    rotated, then marks the whole screen as modified. */
module UpdateScreen {
  import opened RotationMaps
  import opened Pixels
  import opened Framebuffer

  /** A captured frame: its geometry, its format and its pixel words. The
      pipeline only ever reads it. */
  datatype Frame<T> = Frame(shape: Shape, format: Format, data: seq<T>)

  /** Destination index `k` has been written once the loop has passed the point `Coords` names for it. */
  ghost predicate Done(b: Branch, stride: nat, height: nat, k: nat, x: nat, y: nat)
    requires k < stride * height
  {
    var (cx, cy) := Coords(b, stride, height, k);
    cx < x || (cx == x && cy < y)
  }

  /** The nested loops shared by every branch of both templates: for each column
      `x` of the source and each row `y`, write `conv` of the pixel read at
      `(x, y)` to the index the branch maps `(x, y)` to. Only the first
      `stride * height` destination pixels change. */
  method Transform<S, T>(dest: array<T>, src: seq<S>, stride: nat, height: nat, b: Branch, conv: S -> T)
    requires stride * height <= |src| && stride * height <= dest.Length
    modifies dest
    ensures dest[..] == Rotated(b, src, stride, height, conv) + old(dest[stride * height..])
  {
    ghost var n := stride * height;
    ghost var want := Rotated(b, src, stride, height, conv);
    var x := 0;
    while x < stride
      invariant x <= stride
      invariant forall k :: 0 <= k < dest.Length ==>
                  dest[k] == if k < n && Done(b, stride, height, k, x, 0) then want[k] else old(dest[k])
    {
      var y := 0;
      while y < height
        invariant y <= height
        invariant forall k :: 0 <= k < dest.Length ==>
                    dest[k] == if k < n && Done(b, stride, height, k, x, y) then want[k] else old(dest[k])
      {
        var d := DestIndex(b, stride, height, x, y);
        CoordsOfDest(b, stride, height, x, y);
        RotatedAt(b, src, stride, height, conv, x, y);
        forall k | 0 <= k < n && Coords(b, stride, height, k) == (x, y)
          ensures k == d
        {
          DestOfCoords(b, stride, height, k);
        }
        dest[d] := conv(src[SrcIndex(b, stride, height, x, y)]);
        y := y + 1;
      }
      x := x + 1;
    }
    assert forall k :: 0 <= k < n ==> Done(b, stride, height, k, stride, 0);
    assert dest[..] == want + old(dest[n..]);
  }

  /** What a call of a plain kernel needs: the pixels its branch reads and
      writes exist in the frame and in the served buffer. */
  predicate KernelFits<T(0)>(bufferLength: nat, frame: Frame<T>, pixelBytes: nat, rotation: int) {
    && pixelBytes > 0
    && (BranchOf(rotation) != Straight ==>
          frame.shape.stride * frame.shape.height <= |frame.data| && frame.shape.stride * frame.shape.height <= bufferLength)
    && (BranchOf(rotation) == Straight ==>
          frame.shape.size / pixelBytes <= |frame.data| && frame.shape.size / pixelBytes <= bufferLength)
  }

  /** The screen after a plain kernel: 90, 180 and 270 degrees leave the
      rotation of the frame in the first `stride * height` pixels; any other
      rotation leaves the frame's first `size / pixelBytes` pixels unchanged in
      place. Nothing past them changes, and the whole `width x height` screen
      is then marked modified. */
  twostate predicate Updated<T(0)>(session: Session<T>, frame: Frame<T>, pixelBytes: nat, rotation: int)
    reads session, session.frameBuffer
  {
    && session.frameBuffer == old(session.frameBuffer)
    && KernelFits(session.frameBuffer.Length, frame, pixelBytes, rotation)
    && (BranchOf(rotation) != Straight ==>
          session.frameBuffer[..]
          == Rotated(BranchOf(rotation), frame.data, frame.shape.stride, frame.shape.height, Id)
             + old(session.frameBuffer[..])[frame.shape.stride * frame.shape.height..])
    && (BranchOf(rotation) == Straight ==>
          session.frameBuffer[..]
          == frame.data[..frame.shape.size / pixelBytes] + old(session.frameBuffer[..])[frame.shape.size / pixelBytes..])
    && session.events == old(session.events) + [MarkModified(0, 0, session.width, session.height)]
  }

  /** The template shared by `updateScreen1/2/4/8`, with `pixelBytes` the
      instantiation's `BYTES_PER_PIXEL`: 90, 180 and 270 degrees run the loops;
      any other rotation copies the frame's first `size` bytes, i.e.
      `size / pixelBytes` whole pixels, unchanged. The frame is only read. */
  method UpdateScreenN<T(0)>(session: Session<T>, frame: Frame<T>, pixelBytes: nat, rotation: int)
    requires KernelFits(session.frameBuffer.Length, frame, pixelBytes, rotation)
    modifies session`events, session.frameBuffer
    ensures Updated(session, frame, pixelBytes, rotation)
  {
    var b := BranchOf(rotation);
    if b != Straight {
      Transform(session.frameBuffer, frame.data, frame.shape.stride, frame.shape.height, b, Id);
    } else {
      // memcpy(vncbuf, data, frame->size)
      var count := frame.shape.size / pixelBytes;
      var buffer := session.frameBuffer;
      forall i | 0 <= i < count {
        buffer[i] := frame.data[i];
      }
      assert buffer[..] == frame.data[..count] + old(buffer[..])[count..];
    }
    session.events := session.events + [MarkModified(0, 0, session.width, session.height)];
  }

  /** `updateScreen1`: the template on `uint8_t` pixels. */
  method UpdateScreen1(session: Session<Pixel8>, frame: Frame<Pixel8>, rotation: int)
    requires KernelFits(session.frameBuffer.Length, frame, 1, rotation)
    modifies session`events, session.frameBuffer
    ensures Updated(session, frame, 1, rotation)
  {
    UpdateScreenN(session, frame, 1, rotation);
  }

  /** `updateScreen2`: the template on `uint16_t` pixels. */
  method UpdateScreen2(session: Session<Pixel16>, frame: Frame<Pixel16>, rotation: int)
    requires KernelFits(session.frameBuffer.Length, frame, 2, rotation)
    modifies session`events, session.frameBuffer
    ensures Updated(session, frame, 2, rotation)
  {
    UpdateScreenN(session, frame, 2, rotation);
  }

  /** `updateScreen4`: the template on `uint32_t` pixels. */
  method UpdateScreen4(session: Session<Pixel32>, frame: Frame<Pixel32>, rotation: int)
    requires KernelFits(session.frameBuffer.Length, frame, 4, rotation)
    modifies session`events, session.frameBuffer
    ensures Updated(session, frame, 4, rotation)
  {
    UpdateScreenN(session, frame, 4, rotation);
  }

  /** `updateScreen8`: the template on `uint64_t` pixels. */
  method UpdateScreen8(session: Session<Pixel64>, frame: Frame<Pixel64>, rotation: int)
    requires KernelFits(session.frameBuffer.Length, frame, 8, rotation)
    modifies session`events, session.frameBuffer
    ensures Updated(session, frame, 8, rotation)
  {
    UpdateScreenN(session, frame, 8, rotation);
  }

  /** `CONVERT` as the downgrading kernel applies it to every pixel of a frame of format `format`. */
  function Convert42(format: Format): Pixel32 -> Pixel16 {
    p => ConvertFormat42(format, p)
  }

  /** `updateScreen42`: the same loops as the plain kernel, each pixel passed
      through `convertFormat42`; any rotation other than 90, 180 or 270 converts
      the pixels in place order. Writes 16-bit pixels below index
      `stride * height` only, then marks the whole screen modified. */
  method UpdateScreen42(session: Session<Pixel16>, frame: Frame<Pixel32>, rotation: int)
    requires frame.shape.stride * frame.shape.height <= |frame.data|
    requires frame.shape.stride * frame.shape.height <= session.frameBuffer.Length
    modifies session`events, session.frameBuffer
    ensures session.frameBuffer[..]
         == Rotated(BranchOf(rotation), frame.data, frame.shape.stride, frame.shape.height, Convert42(frame.format))
            + old(session.frameBuffer[frame.shape.stride * frame.shape.height..])
    ensures session.events == old(session.events) + [MarkModified(0, 0, session.width, session.height)]
  {
    Transform(session.frameBuffer, frame.data, frame.shape.stride, frame.shape.height, BranchOf(rotation), Convert42(frame.format));
    session.events := session.events + [MarkModified(0, 0, session.width, session.height)];
  }

  /** The downgrading kernel moves pixels exactly as the plain one does and
      only converts them: converting after a plain rotation gives its output. */
  lemma DowngradeIsConvertedRotation(b: Branch, src: seq<Pixel32>, stride: nat, height: nat, format: Format)
    requires stride * height <= |src|
    ensures forall k :: 0 <= k < stride * height ==>
              Rotated(b, src, stride, height, Convert42(format))[k]
              == ConvertFormat42(format, Rotated(b, src, stride, height, Id)[k])
  {
    forall k | 0 <= k < stride * height
      ensures Rotated(b, src, stride, height, Convert42(format))[k]
           == ConvertFormat42(format, Rotated(b, src, stride, height, Id)[k])
    {
      var i := SourceOf(b, stride, height, k);
      assert Rotated(b, src, stride, height, Id)[k] == Id(src[i]) == src[i];
      assert Rotated(b, src, stride, height, Convert42(format))[k] == Convert42(format)(src[i]);
    }
  }
}
