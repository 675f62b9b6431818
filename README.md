# droid-VNC-server frame pipeline, in Dafny

A model of the frame pipeline of droid-VNC-server (`jni/vnc`), with proofs
about it. The server captures the Android screen and serves it over VNC.
The model covers:

- **Rotation kernels** `updateScreen1/2/4/8` and `updateScreen42`
  (`RotationMaps`, `UpdateScreen`). They copy a captured `stride x height`
  frame into the served buffer `vncbuf`, turned by 0, 90, 180 or 270
  degrees. `updateScreen42` also packs each 32-bit pixel into 16 bits with
  `convertFormat42` (`Pixels`). The kernels are methods that write an
  `array` in place. They are proved to leave exactly `Rotated(...)` in the
  first `stride * height` elements and to leave the rest of the buffer alone.
  `Rotated` is the specification function. It is proved to be a
  permutation with the source's index formulas; 180 degrees twice and
  90 degrees then 270 degrees both give back the source.
- **The served screen** `vncscr`/`vncbuf` (`Framebuffer.Session`, a class).
  `initVncServer` and `reinitVncServer` are covered: the target geometry,
  the no-op test, rescaling every client before the framebuffer changes,
  and installing a new buffer before the old one is freed. Calls into the
  VNC library are recorded as events.
- **`FrameWaiter`** (`FrameWaiting`): the pending-frame counter and stop
  flag, as a class. Each method is proved equal to a pure function on the
  state, and lemmas cover call sequences.
- **`getImageRotation`** (`ImageRotation`): the rotation chosen from the
  allowed-rotation mask, the screen rotation and the `-z` flag.
- **The command-line loop of `main`** (`Options`), as a `while` loop proved
  equal to a recursive specification.
- **The ` init=WxH` probe of `dumpsys window`** (`DisplayInfo`), as a pure
  function of the line read.
- **The frame pump of `main`** (`FramePump`). It covers start-up on the
  first frame (kernel choice, screen creation, size check), the reaction to
  a rotation change, and the loop that drains pending frames, including
  frame skipping. The capture source is a function from call number to
  error code, and the pump records what it does in a trace.

`Wrappers` holds an `Option` type. `IndexArith` holds the non-linear index
facts the kernels need.

## Model

| member | source | states |
|---|---|---|
| RotationMaps.DestIndex | jni/vnc/update_screen_template.cpp:23-42 | every index a 90/180/270 branch writes at a loop point `x < stride, y < height` is below `stride * height` |
| RotationMaps.SrcIndex | jni/vnc/update_screen_template.cpp:23-42 | every index a branch reads is below `stride * height` |
| RotationMaps.Coords | jni/vnc/update_screen_template.cpp:23-42 | every destination index below `stride * height` has a loop point inside the loop bounds |
| RotationMaps.CoordsOfDest | jni/vnc/update_screen_template.cpp:23-42 | the loop point is recovered from the index it writes |
| RotationMaps.DestOfCoords | jni/vnc/update_screen_template.cpp:23-42 | each destination index is the one written at the loop point `Coords` names, so every index in range is written |
| RotationMaps.WrittenOnce | jni/vnc/update_screen_template.cpp:23-42 | two loop points never write the same index, so each branch writes each index exactly once: a permutation |
| RotationMaps.Rotated | jni/vnc/update_screen_template.cpp:23-42 | the kernel's output holds exactly `stride * height` pixels |
| RotationMaps.RotatedAt | jni/vnc/update_screen_template.cpp:23-42 | the pixel at the index written at `(x, y)` is the converted pixel read at `(x, y)` |
| RotationMaps.Rotated90Formula | jni/vnc/update_screen_template.cpp:23-28 | `dest[(stride-x-1)*height + y] == src[y*stride + x]`, both indices in range |
| RotationMaps.Rotated180Formula | jni/vnc/update_screen_template.cpp:29-34 | `dest[y*stride + x] == src[(height-1-y)*stride + (stride-1-x)]`, both indices in range |
| RotationMaps.Rotated270Formula | jni/vnc/update_screen_template.cpp:35-42 | `dest[x*height + (height-y-1)] == src[y*stride + x]`, both indices in range |
| RotationMaps.StraightInPlace | jni/vnc/update_screen_downgrade_template.cpp:47-53 | any other rotation keeps every pixel at its index: `dest[i] == conv(src[i])` |
| RotationMaps.Rotated180Mirror | jni/vnc/update_screen_template.cpp:29-34 | 180 degrees reads the pixel mirrored through the buffer's centre, `src[stride*height - 1 - k]` |
| RotationMaps.Rotate180Twice | jni/vnc/update_screen_template.cpp:29-34 | the 180-degree kernel applied twice restores the source |
| RotationMaps.Rotate90Then270 | jni/vnc/update_screen_template.cpp:23-42 | the 90-degree output, read as a `height x stride` frame and turned by 270 degrees, is the source: inverse permutations |
| RotationMaps.Rotate270Then90 | jni/vnc/update_screen_template.cpp:23-42 | the other order is the identity too |
| RotationMaps.Rotate90Example | jni/vnc/update_screen_template.cpp:23-28 | 90 degrees on the 4 x 2 frame `[1..8]` gives `[4,8,3,7,2,6,1,5]` |
| RotationMaps.Rotate270Example | jni/vnc/update_screen_template.cpp:35-42 | 270 degrees on it gives `[5,1,6,2,7,3,8,4]` |
| Pixels.ConvertFormat42 | jni/vnc/update_screen.cpp:38-65 | for RGBA_8888 the 5-bit red, 6-bit green and 5-bit blue fields of the result are the top 5/6/5 bits of bytes r, g and b; every other format gives the low 16 bits |
| Pixels.PackedFitsSixteenBits | jni/vnc/update_screen.cpp:50-54 | the packed RGBA_8888 value is below 2^16, so narrowing to `uint16_t` loses nothing |
| Pixels.ConvertShiftForm | jni/vnc/update_screen.cpp:50-54 | the result is the bitwise or of `((p>>11)&0x1f)<<11`, `((p>>18)&0x3f)<<5` and `p>>27` |
| Pixels.ConvertReadsOnlyTopBits | jni/vnc/update_screen.cpp:50-54 | words that agree on bits 11-15, 18-23 and 27-31 convert alike |
| Pixels.ConvertIgnoresAlpha | jni/vnc/update_screen.cpp:50-54 | the low (alpha) byte never affects the RGBA_8888 result |
| Pixels.ConvertExamples | jni/vnc/update_screen.cpp:38-65 | white stays white, pure red lands in bits 0-4, and RGB_565 keeps the low 16 bits |
| UpdateScreen.Transform | jni/vnc/update_screen_template.cpp:23-42 | the nested `x`/`y` loops leave `Rotated(...)` in the first `stride * height` elements and everything beyond unchanged |
| UpdateScreen.UpdateScreenN | jni/vnc/update_screen_template.cpp:19-47 | `Updated`: 90/180/270 degrees: buffer = rotation of the frame, rest unchanged; other rotations: the frame's first `size / BYTES_PER_PIXEL` pixels copied unchanged; then the whole `width x height` screen is marked modified |
| UpdateScreen.UpdateScreen1 | jni/vnc/update_screen.cpp:9-11 | `updateScreen1`: the template on `uint8_t` pixels, one byte each, leaves the screen `Updated` |
| UpdateScreen.UpdateScreen2 | jni/vnc/update_screen.cpp:15-17 | `updateScreen2`: the template on `uint16_t` pixels, two bytes each, leaves the screen `Updated` |
| UpdateScreen.UpdateScreen4 | jni/vnc/update_screen.cpp:21-23 | `updateScreen4`: the template on `uint32_t` pixels, four bytes each, leaves the screen `Updated` |
| UpdateScreen.UpdateScreen8 | jni/vnc/update_screen.cpp:27-29 | `updateScreen8`: the template on `uint64_t` pixels, eight bytes each, leaves the screen `Updated` |
| UpdateScreen.UpdateScreen42 | jni/vnc/update_screen_downgrade_template.cpp:20-55 | the buffer holds the rotation of the frame with `convertFormat42` applied to every pixel (in place order for other rotations), nothing past `stride * height` changes, and the whole screen is marked modified |
| UpdateScreen.DowngradeIsConvertedRotation | jni/vnc/update_screen_downgrade_template.cpp:25-53 | the downgrading kernel moves pixels exactly as the plain kernel does and only converts them |
| Framebuffer.TargetGeometry | jni/vnc/droidvncserver.cpp:143-152 | with a forced rotation the screen's sides are the frame's stride and height, swapped exactly for 90 and 270 degrees (unless they are equal), with unpadded rows; without one it is the frame's `width x height` with rows padded to `stride * bpp` bytes |
| Framebuffer.GeometryFillsBuffer | jni/vnc/droidvncserver.cpp:139-166 | on every path the declared rows exactly fill the `stride * height * bpp` bytes allocated |
| Framebuffer.GeometryWithinFrame | jni/vnc/droidvncserver.cpp:178-187 | forced rotation: declared pixels = buffer pixels (`height x stride` for 90/270, `stride x height` otherwise); unforced: `height` rows of `stride * bpp` bytes, no wider than the stride |
| Framebuffer.Skips | jni/vnc/droidvncserver.cpp:121-125 | the no-op test holds exactly when the declared geometry equals the target in everything but the row length, which is never compared |
| Framebuffer.SkipsKeepsPixelCount | jni/vnc/droidvncserver.cpp:105-128 | with a forced rotation, the no-op test implies the declared screen has the new frame's pixel count |
| Framebuffer.RescaleAll | jni/vnc/droidvncserver.cpp:132-136 | one rescale event per connected client, in client order |
| Framebuffer.Session.Init | jni/vnc/droidvncserver.cpp:171-219 | a fresh `stride * height` buffer, the target geometry declared, `bitsPerPixel == bpp * 8`, the screen created and then started |
| Framebuffer.Session.Reinit | jni/vnc/droidvncserver.cpp:102-169 | as written: nothing changes, not even with `recreateBuffer`, when width and height already equal the target's; otherwise clients are rescaled, the geometry is declared, and a fresh buffer is installed before the old one is freed (or the old one is kept); the served buffer is never a freed one |
| Framebuffer.Session.ReinitChecked | jni/vnc/droidvncserver.cpp:102-169 | as intended: the no-op also needs no request for a new buffer, so with `recreateBuffer` the buffer always holds `stride * height` pixels and the old one is freed |
| Framebuffer.Session.Resize | jni/vnc/droidvncserver.cpp:130-168 | the work of a real reinitialisation: clients rescaled first, the new framebuffer declared, the old buffer freed only after the new one is installed, `bitsPerPixel == bpp * 8` |
| Framebuffer.Session.RescaleClients | jni/vnc/droidvncserver.cpp:132-136 | the loop over the connected clients rescales each of them once, in order, and changes nothing else |
| FrameWaiting.CounterConserved | jni/vnc/droidvncserver.cpp:341-372 | after any sequence of calls, the counter = initial + frames announced − frames taken |
| FrameWaiting.NeverNegativeReported | jni/vnc/droidvncserver.cpp:341-372 | when every `reportExtraConsumption` names at most the frames pending just before it, every call sequence can run and the counter never goes below zero |
| FrameWaiting.NeverNegative | jni/vnc/droidvncserver.cpp:341-372 | the special case of calls without `reportExtraConsumption`: the counter never goes below zero |
| FrameWaiting.NoReportsWithinCount | jni/vnc/droidvncserver.cpp:341-372 | call sequences without `reportExtraConsumption` keep to the reporting protocol |
| FrameWaiting.SkipWithinCount | jni/vnc/droidvncserver.cpp:774-780 | the drain loop's skip keeps to the protocol: a poll returning `n > 1`, any number of announcements, then a report of `n - 1` |
| FrameWaiting.AnnouncementsThenReport | jni/vnc/droidvncserver.cpp:356-366 | announcements only raise the counter, so a report of at most the count before them keeps to the protocol |
| FrameWaiting.SkipReturnsToZero | jni/vnc/droidvncserver.cpp:766-771 | polling `n > 1` frames and reporting `n - 1` extra brings the counter back to 0 |
| FrameWaiting.StopIsFinal | jni/vnc/droidvncserver.cpp:341-382 | once stopped: `stop` changes nothing, a wait returns 0 and leaves the counter alone, and later calls keep it stopped |
| FrameWaiting.PollTakesOne | jni/vnc/droidvncserver.cpp:367-372 | a non-zero counter `n` is returned and left at `n - 1` |
| FrameWaiting.FrameWaiter.constructor | jni/vnc/droidvncserver.cpp:335-339 | starts with no pending frame, not stopped |
| FrameWaiting.FrameWaiter.WaitForFrame | jni/vnc/droidvncserver.cpp:341-352 | returns 0 once stopped, else the positive count, which then drops by one |
| FrameWaiting.FrameWaiter.ReportExtraConsumption | jni/vnc/droidvncserver.cpp:354-358 | subtracts the count |
| FrameWaiting.FrameWaiter.OnFrameAvailable | jni/vnc/droidvncserver.cpp:360-365 | adds one |
| FrameWaiting.FrameWaiter.GetPendingFrames | jni/vnc/droidvncserver.cpp:367-372 | returns 0 with the counter unchanged when it is 0, else returns it and decrements it |
| FrameWaiting.FrameWaiter.Stop | jni/vnc/droidvncserver.cpp:374-377 | sets the stop flag, the counter unchanged |
| FrameWaiting.FrameWaiter.IsStopped | jni/vnc/droidvncserver.cpp:379-382 | returns the stop flag |
| ImageRotation.Resolve | jni/vnc/droidvncserver.cpp:407-417 | with a non-empty mask, the chosen rotation `r` serves an allowed orientation (bit `(s + r/90) mod 4` set), and every offset earlier in the order 0, 180, 90, 270 is not allowed |
| ImageRotation.GetImageRotation | jni/vnc/droidvncserver.cpp:407-419 | the result differs from the resolved rotation exactly when `-z` was given |
| ImageRotation.FlipAddsHalfTurn | jni/vnc/droidvncserver.cpp:418 | `-z` adds exactly 180 modulo 360, in both directions |
| ImageRotation.SingleOrientationReached | jni/vnc/droidvncserver.cpp:407-417 | with one allowed orientation `q`, the served screen has orientation `q` whatever the device rotation |
| ImageRotation.UnrestrictedKeepsShape | jni/vnc/droidvncserver.cpp:407-419 | with every orientation allowed the rotation is 0, or 180 with `-z` |
| ImageRotation.OrientationPairRotations | jni/vnc/droidvncserver.cpp:407-417 | the portrait and landscape masks only ever give 0 or 90 |
| ImageRotation.ResolveExamples | jni/vnc/droidvncserver.cpp:407-419 | upright with every orientation allowed gives 0; 90 degrees with portrait only gives 90, or 270 with `-z`; `-r 90` at 0 gives 90 |
| Options.Truncate | jni/vnc/droidvncserver.cpp:470-474 | `strncpy` into the password buffers keeps exactly the first `n` characters of a longer value, and the whole value when it fits |
| Options.StepAt | jni/vnc/droidvncserver.cpp:452-551 | one pass of the loop moves on by one or two arguments, or ends the loop |
| Options.Parse | jni/vnc/droidvncserver.cpp:449-553 | the outcome of the loop from argument `i`; once the rotation policy is restricted, a run never changes it again (a second `-r` or `-o` is fatal) |
| Options.ParseArguments | jni/vnc/droidvncserver.cpp:449-553 | the argument loop ends with the outcome of the recursive specification `Parse` from `argv[1]` and the default configuration |
| Options.StepKeepsWellFormed | jni/vnc/droidvncserver.cpp:452-551 | one pass keeps the mask reachable, the scale in 1..150 and the passwords within their buffers |
| Options.ValuedKeepsWellFormed | jni/vnc/droidvncserver.cpp:460-504 | the same for the options with a value |
| Options.PolicyKeepsWellFormed | jni/vnc/droidvncserver.cpp:505-544 | the same for `-r` and `-o` |
| Options.ParseKeepsWellFormed | jni/vnc/droidvncserver.cpp:449-553 | every configuration the loop hands on has a reachable, non-empty mask, a scale of 1..150 and passwords that fit |
| Options.DefaultsWellFormed | jni/vnc/droidvncserver.cpp:35-43 | the initial configuration is well formed and not forced |
| Options.FlagSwallowsNext | jni/vnc/droidvncserver.cpp:478-548 | `-d`, `-z` and `-f` set their flag and skip the next argument whatever it is |
| Options.RotationOption | jni/vnc/droidvncserver.cpp:505-529 | `-r` with 0/90/180/270 allows exactly that orientation, 360 counts as 0, anything else is fatal |
| Options.OrientationOption | jni/vnc/droidvncserver.cpp:530-544 | `-o portrait` allows 0 and 180, `-o landscape` allows 90 and 270, any other word is fatal |
| Options.SecondPolicyFatal | jni/vnc/droidvncserver.cpp:505-532 | once the mask is restricted, another `-r` or `-o` is fatal before its value is read |
| Options.ScalingOption | jni/vnc/droidvncserver.cpp:490-499 | `-s` keeps a value of 1 to 150 and is fatal otherwise |
| Options.AtoiExamples | jni/vnc/droidvncserver.cpp:462 | `atoi` skips white space, takes a sign and stops at the first non-digit |
| Options.FlagSwallowExample | jni/vnc/droidvncserver.cpp:449-553 | `-r 90 -f -s 50` sets the 90-degree mask and frame skipping, and `-s` is swallowed: the scale stays 100 |
| Options.PolicyExamples | jni/vnc/droidvncserver.cpp:490-544 | `-o portrait -r 0` is a conflict, `-r 360` means upright, `-s 200` is fatal |
| DisplayInfo.FindMeaning | jni/vnc/droidvncserver.cpp:282-298 | `strstr`: the result is an occurrence and no earlier one exists, or there is none at all |
| DisplayInfo.FindFirst | jni/vnc/droidvncserver.cpp:282-298 | the first occurrence is the one `strstr` finds |
| DisplayInfo.FieldsMeaning | jni/vnc/droidvncserver.cpp:282-296 | the width text and the rest lie right after a ` init=`, split at an `x`; none when there is no `x` after ` init=` |
| DisplayInfo.FieldsOf | jni/vnc/droidvncserver.cpp:282-296 | a line made of text without ` init=`, then ` init=`, a width text without `x`, `x` and a rest splits into exactly that width text and that rest |
| DisplayInfo.Checked | jni/vnc/droidvncserver.cpp:304-310 | the size is accepted exactly when both values are positive |
| DisplayInfo.ParseInitAsWritten | jni/vnc/droidvncserver.cpp:282-311 | as written: unrecognised exactly when no `x` follows ` init=`; it writes through a null pointer exactly when the text after that `x` holds no space; an accepted size is positive |
| DisplayInfo.ParseInit | jni/vnc/droidvncserver.cpp:282-311 | as intended: unrecognised exactly when no `x` follows ` init=`, never a null write, an accepted size is positive |
| DisplayInfo.FindSpace | jni/vnc/droidvncserver.cpp:297-298 | `strstr(p, " ")` finds nothing exactly when the text holds no space |
| DisplayInfo.AgreeUnlessNullWrite | jni/vnc/droidvncserver.cpp:282-311 | the code as written and the intended reading agree whenever the former does not fault, and the latter never faults |
| DisplayInfo.NewlineAfterHeight | jni/vnc/droidvncserver.cpp:297-300 | ` init=1080x1920` followed by a newline makes the code write through a null pointer; the intended reading gives 1080 x 1920 |
| DisplayInfo.ParseInitRoundTrip | jni/vnc/droidvncserver.cpp:282-311 | the intended probe reads back any positive `W x H` written in decimal after ` init=`, whatever precedes it and whatever non-digit follows |
| DisplayInfo.HeightRead | jni/vnc/droidvncserver.cpp:297-300 | a height in decimal followed by a non-digit is read back exactly |
| DisplayInfo.AtoiDecimal | jni/vnc/droidvncserver.cpp:295 | `atoi` reads back a number written in decimal, up to the first non-digit |
| FramePump.SelectKernel | jni/vnc/droidvncserver.cpp:671-697 | a kernel exists exactly for 1, 2, 4 and 8 bytes per pixel; it reads frames of that width and writes the target width; it is `updateScreen42` exactly with `-d` and 4 bytes |
| FramePump.SelectionNarrowsOnlyOnDowngrade | jni/vnc/droidvncserver.cpp:671-697 | the target width never exceeds the frame's, and differs only for `-d` with 4 bytes |
| FramePump.RoundPaired | jni/vnc/droidvncserver.cpp:786-796 | a taken frame is consumed once, shown exactly when delivered, and released once |
| FramePump.ShownFacts | jni/vnc/droidvncserver.cpp:766-797 | taking `n` frames consumes and releases each, in pairs, and shows at most `n` |
| FramePump.SkippedFacts | jni/vnc/droidvncserver.cpp:773-783 | skipping `n` frames consumes and releases each and shows none |
| FramePump.DrainFacts | jni/vnc/droidvncserver.cpp:766-797 | draining `n` pending frames consumes all `n`, releases each right after consuming it, and with skipping shows only the last, exactly when it was delivered |
| FramePump.FiveFramesSkipped | jni/vnc/droidvncserver.cpp:766-797 | five delivered frames with skipping: four consumed and released, the fifth consumed, shown and released |
| FramePump.StaleBufferAsWritten | jni/vnc/droidvncserver.cpp:121-125 | a 720 x 1280 frame whose stride grows from 720 to 736: the no-op test holds although the byte size changed and more pixels are needed |
| FramePump.Pump.ConsumePendingFrame | jni/vnc/droidvncserver.cpp:786 | returns the capture source's next error code and records the call |
| FramePump.Pump.Reorient | jni/vnc/droidvncserver.cpp:729-764 | with the corrected reinitialisation (see ## Findings): the new rotation is chosen, the old waiter stopped and the new one waited on; a badly sized frame is fatal and leaves the screen untouched; otherwise the screen is entirely unchanged when it already has the target width and height and no new buffer is needed, and is otherwise `Resized` to the target geometry for the new rotation (clients kept and each rescaled, the new framebuffer declared, a fresh buffer with the old one freed when the byte size changed, the same buffer when it did not); the buffer then holds exactly the frame's `stride * height` pixels, so the kernel stays inside it, and the frame is shown and released |
| FramePump.Pump.TakeFrame | jni/vnc/droidvncserver.cpp:786-796 | consume, show only when delivered, release |
| FramePump.Pump.SkipFrames | jni/vnc/droidvncserver.cpp:773-783 | `count` frames consumed and released, none shown |
| FramePump.Pump.Drain | jni/vnc/droidvncserver.cpp:766-797 | the drain loop's trace is `DrainTrace` of the pending count; every pending frame is consumed; the counter ends at 0 (one lower still if it started negative); a stopped waiter is left alone |
| FramePump.Start | jni/vnc/droidvncserver.cpp:616-707 | start-up aborts on an unreadable first frame, then on an unsupported width, then on a bad size, and succeeds exactly otherwise, with the selected kernel, the target geometry declared, the buffer fitting the frame and the first frame shown and released |

## Left out

- The VNC library (`rfbGetScreen`, `rfbNewFramebuffer`, `rfbScalingSetup`, `rfbMarkRectAsModified`, event loop, authentication, reverse connection) is a foreign library. Its calls are recorded as `Framebuffer.Event`s, and their effect on the screen record is written out.
- The capture library (`minicap_create`, `setDesiredInfo`, `consumePendingFrame`, `releaseConsumedFrame`) is foreign. Its results are a function from call number to error code, and its frames are given as values.
- The mutex, condition variable, 100 ms timed wait and `usleep` of `FrameWaiter` and the rotation path are concurrency. Calls are taken one at a time.
- FrameWaiting.FrameWaiter.WaitForFrame: requires that the call returns (stopped, or a frame pending), because a wait that would block until the producer calls cannot be expressed sequentially.
- Client scaling arithmetic (`* scaling / 100.0 + 0.5`) is floating point. Rescaling is recorded per client without its size.
- `extractHostPort` is not part of this model: `-R` only records its argument.
- Display probing I/O (`popen`, `fgets`, `open`, `ioctl`) and the framebuffer and capture-library fallbacks are I/O. Only the ` init=WxH` parse of the line read is modelled.
- Signals, `cleanup`, the usage and version text, logging and the format-logging switch (with its fatal default for an unknown format) are left out. They are I/O or diagnostics only.
- `cmpbuf` is allocated and never read, so it is left out.
- The rotation watcher and the outer `while (1)` loop are left out. The model has one rotation change (`Reorient`) and one drain (`Drain`) as separate operations.
- Integer widths: indices, sizes and the counter are unbounded. 32-bit wrap-around of `stride * height * bpp` and overflow in `atoi` are not modelled.
- UpdateScreen.UpdateScreenN: the 0-degree `memcpy` copies `size / BYTES_PER_PIXEL` whole pixels. A trailing partial pixel, when `size` is not a multiple of the pixel width, is not modelled.
- The file-static loop counters `x` and `y` of update_screen.cpp are locals of `Transform`, because only one thread runs the kernels.
- Allocation failure of `malloc` is not checked by the code and is not modelled.
- FramePump.Pump.Reorient: requires the re-oriented frame to have the first frame's bytes per pixel. The code keeps the kernel and target width chosen at start-up and does not check this.
- FramePump.Pump.Reorient: the consumed frame's error code is ignored, as in the code, and the kernel call is recorded as `Update` rather than run on pixel data. What a kernel writes is `UpdateScreen`'s contract, whose precondition is what `Fits` establishes.
- FramePump.Pump.Drain: frames taken while draining are not size-checked (the code does not check them), and the kernel call is recorded as `Update`.
- FramePump.Start: the kernel call on the first frame is recorded as `Update` rather than run; the screen is created before the size check, as in the code.

## Findings

| source | as written | input that shows it | evidently intended | confidence | as-written member | corrected member |
|---|---|---|---|---|---|---|
| jni/vnc/droidvncserver.cpp:121-125 | without a forced rotation, `reinitVncServer` returns before anything else when width and height are unchanged, even when the caller asked for a new buffer because the frame's byte size changed | a 720 x 1280 frame at stride 720, then after a rotation change a 720 x 1280 frame at stride 736: the 720 x 1280 buffer is kept while the kernel writes 736 x 1280 pixels | allocate the requested buffer whenever `recreateBuffer` is set (or compare the stride too) | low, not executed: needs a capture source that changes only the stride | Framebuffer.Session.Reinit, FramePump.StaleBufferAsWritten | Framebuffer.Session.ReinitChecked, FramePump.Pump.Reorient |
| jni/vnc/droidvncserver.cpp:297-300 | the result of `strstr(p, " ")` is written through without a check | the line ` init=1080x1920` followed by a newline (`fgets` keeps it) has no space after the height, so `*q = 0` writes through a null pointer | read the height to the end of the line when no space follows | low, not executed: only when the line ends right after the height | DisplayInfo.ParseInitAsWritten, DisplayInfo.NewlineAfterHeight | DisplayInfo.ParseInit, DisplayInfo.ParseInitRoundTrip |
