/** `getImageRotation` of droidvncserver.cpp: given the device's current screen
    rotation and the set of orientations the server may serve, the rotation to
    apply to every captured frame. */
module ImageRotation {

  /** The allowed-rotation mask: bit `q` allows serving the screen turned `q`
      quarter-turns. Only the low four bits are ever set. */
  type Mask = bv4

  const ROT_0: Mask := 1
  const ROT_90: Mask := 2
  const ROT_180: Mask := 4
  const ROT_270: Mask := 8
  const ROT_ALL: Mask := 15

  /** A rotation in degrees, as the rotation watcher reports it and as the kernels take it. */
  type Degrees = d: int | d == 0 || d == 90 || d == 180 || d == 270

  type Quarter = q: nat | q < 4

  /** Quarter-turns in a rotation (`screenRotation / 90`). */
  function Turns(d: Degrees): Quarter {
    (d as int) / 90
  }

  predicate Allows(mask: Mask, q: Quarter) {
    mask & (1 << q) != 0
  }

  /** The order in which quarter-turn offsets from the current orientation are
      tried: none, a half turn, one quarter-turn, three quarter-turns. */
  const Preference: seq<Quarter> := [0, 2, 1, 3]

  /** The position of a rotation in `Preference`. */
  function Rank(r: Degrees): (i: nat)
    ensures i < 4 && Preference[i] == Turns(r)
  {
    if r == 0 then 0 else if r == 180 then 1 else if r == 90 then 2 else 3
  }

  /** The rotation before the `-z` flip: the first offset in `Preference` whose
      orientation the mask allows; 270 when none is allowed. */
  function Resolve(screenRotation: Degrees, mask: Mask): (r: Degrees)
    ensures mask != 0 ==> Allows(mask, (Turns(screenRotation) + Turns(r)) % 4)
    ensures forall j :: 0 <= j < Rank(r) ==> !Allows(mask, (Turns(screenRotation) + Preference[j]) % 4)
  {
    var s := Turns(screenRotation);
    if Allows(mask, s) then 0
    else if Allows(mask, (s + 2) % 4) then 180
    else if Allows(mask, (s + 1) % 4) then 90
    else
      assert mask != 0 ==> Allows(mask, (s + 3) % 4) by {
        if mask != 0 && !Allows(mask, (s + 3) % 4) {
          OneBitAllowed(mask, s);
        }
      }
      270
  }

  /** A non-empty mask allows one of the four orientations reached from `s`. */
  lemma OneBitAllowed(mask: Mask, s: Quarter)
    requires mask != 0
    ensures Allows(mask, s) || Allows(mask, (s + 1) % 4) || Allows(mask, (s + 2) % 4) || Allows(mask, (s + 3) % 4)
  {
    assert Allows(mask, 0) || Allows(mask, 1) || Allows(mask, 2) || Allows(mask, 3);
  }

  /** `getImageRotation`: `Resolve`, turned a further half turn when `-z` was given. */
  function GetImageRotation(screenRotation: Degrees, mask: Mask, rotate180: bool): (rot: Degrees)
    ensures rot == Resolve(screenRotation, mask) <==> !rotate180
  {
    var r := Resolve(screenRotation, mask);
    if rotate180 then (r + 180) % 360 else r
  }

  /** The flag adds exactly 180 degrees modulo 360 to the unflipped rotation. */
  lemma FlipAddsHalfTurn(screenRotation: Degrees, mask: Mask)
    ensures GetImageRotation(screenRotation, mask, true) == (GetImageRotation(screenRotation, mask, false) + 180) % 360
    ensures GetImageRotation(screenRotation, mask, false) == (GetImageRotation(screenRotation, mask, true) + 180) % 360
  {
  }

  /** With a single allowed orientation `q`, the frames are turned exactly so
      that the served screen has orientation `q`, whatever the device does. */
  lemma SingleOrientationReached(screenRotation: Degrees, q: Quarter)
    ensures var r := Resolve(screenRotation, 1 << q);
            (Turns(screenRotation) + Turns(r)) % 4 == q
  {
    var mask: Mask := 1 << q;
    var r := Resolve(screenRotation, mask);
    var t := (Turns(screenRotation) + Turns(r)) % 4;
    assert Allows(mask, t);
  }

  /** When every orientation is allowed the frames are never rotated by a
      quarter turn: only the `-z` flip can turn them, by half a turn. */
  lemma UnrestrictedKeepsShape(screenRotation: Degrees, rotate180: bool)
    ensures GetImageRotation(screenRotation, ROT_ALL, rotate180) == (if rotate180 then 180 else 0)
  {
    assert Allows(ROT_ALL, Turns(screenRotation));
  }

  /** A portrait-only or landscape-only mask never needs more than a quarter
      turn: either the device is already right (0) or it is one quarter-turn off (90). */
  lemma OrientationPairRotations(screenRotation: Degrees, mask: Mask)
    requires mask == ROT_0 | ROT_180 || mask == ROT_90 | ROT_270
    ensures Resolve(screenRotation, mask) == 0 || Resolve(screenRotation, mask) == 90
  {
    var s: nat := Turns(screenRotation);
    if !Allows(mask, s) {
      assert !Allows(mask, (s + 2) % 4) && Allows(mask, (s + 1) % 4) by {
        if mask == 5 {
          assert s == 1 || s == 3;
        } else {
          assert s == 0 || s == 2;
        }
      }
    }
  }

  /** Device upright with every orientation allowed: no rotation. Device at 90
      degrees while only portrait is allowed: the frame is turned 90 degrees. */
  lemma ResolveExamples()
    ensures GetImageRotation(0, ROT_ALL, false) == 0
    ensures GetImageRotation(90, ROT_0 | ROT_180, false) == 90
    ensures GetImageRotation(90, ROT_0 | ROT_180, true) == 270
    ensures GetImageRotation(0, ROT_90, false) == 90
  {
    assert Allows(ROT_ALL, 0);
    assert !Allows(ROT_0 | ROT_180, 1) && !Allows(ROT_0 | ROT_180, 3) && Allows(ROT_0 | ROT_180, 2);
    assert !Allows(ROT_90, 0) && !Allows(ROT_90, 2) && Allows(ROT_90, 1);
  }
}
