/** The screen-size probe of `try_get_dumpsys_display_info` in droidvncserver.cpp,
    as a function of the first line `dumpsys window` prints: find ` init=`,
    read the width up to the next `x` and the height up to the next space. */
module DisplayInfo {
  import opened Wrappers
  import opened Options

  /** `pat` occurs in `s` starting at position `j`. */
  predicate OccursAt(s: string, pat: string, j: nat) {
    j + |pat| <= |s| && s[j..j + |pat|] == pat
  }

  /** `strstr`: the first position at which `pat` occurs in `s`. */
  function Find(s: string, pat: string): (r: Option<nat>)
    ensures r.Some? ==> r.value + |pat| <= |s|
    decreases |s|
  {
    if |pat| <= |s| && s[..|pat|] == pat then Some(0)
    else if s == [] then None
    else
      match Find(s[1..], pat)
      case None => None
      case Some(i) => Some(i + 1)
  }

  /** What `Find` finds: an occurrence with none before it, or, when it finds
      nothing, there is no occurrence at all. */
  lemma {:induction false} FindMeaning(s: string, pat: string)
    ensures var r := Find(s, pat);
            && (r.Some? ==> OccursAt(s, pat, r.value))
            && (r.Some? ==> forall j: nat :: j < r.value ==> !OccursAt(s, pat, j))
            && (r.None? ==> forall j: nat :: !OccursAt(s, pat, j))
    decreases |s|
  {
    if |pat| <= |s| && s[..|pat|] == pat {
      assert s[0..|pat|] == s[..|pat|];
    } else if s != [] {
      assert !OccursAt(s, pat, 0) by {
        if |pat| <= |s| {
          assert s[0..|pat|] == s[..|pat|];
        }
      }
      FindMeaning(s[1..], pat);
      var r := Find(s[1..], pat);
      if r.Some? {
        ShiftOccurs(s, pat, r.value);
        forall j: nat | j < r.value + 1
          ensures !OccursAt(s, pat, j)
        {
          if j > 0 {
            ShiftOccurs(s, pat, j - 1);
          }
        }
      } else {
        forall j: nat
          ensures !OccursAt(s, pat, j)
        {
          if j > 0 {
            ShiftOccurs(s, pat, j - 1);
          }
        }
      }
    }
  }

  /** Dropping the first character moves every occurrence one place left. */
  lemma ShiftOccurs(s: string, pat: string, j: nat)
    requires s != []
    ensures OccursAt(s[1..], pat, j) == OccursAt(s, pat, j + 1)
  {
    if j + |pat| <= |s[1..]| {
      assert s[1..][j..j + |pat|] == s[j + 1..j + 1 + |pat|];
    }
  }

  /** The first occurrence of `pat` in `s` is where `strstr` finds it. */
  lemma FindFirst(s: string, pat: string, k: nat)
    requires OccursAt(s, pat, k)
    requires forall j: nat :: j < k ==> !OccursAt(s, pat, j)
    ensures Find(s, pat) == Some(k)
  {
    FindMeaning(s, pat);
  }

  /** What the probe reports. */
  datatype Probe =
    | Size(width: int, height: int)
    | Unrecognized     // no ` init=`, or no `x` after it
    | InvalidValues    // a width or height that is not positive
    | NullWrite        // no space after the height: the code writes through a null pointer

  /** The width text and the rest of a line whose ` init=` is at `p` and whose
      next `x` is `dx` characters after `p`. */
  function SplitAt(line: string, p: nat, dx: nat): (string, string)
    requires 6 <= dx && p + dx < |line|
  {
    (line[p + 6..p + dx], line[p + dx + 1..])
  }

  /** The text between ` init=` and the next `x`, and everything after that `x`. */
  function Fields(line: CString): Option<(string, string)> {
    match Find(line, " init=")
    case None => None
    case Some(p) =>
      match Find(line[p..], "x")
      case None => None
      case Some(dx) =>
        FindMeaning(line, " init=");
        FindMeaning(line[p..], "x");
        NoCrossBeforeX(line, p, dx);
        Some(SplitAt(line, p, dx))
  }

  /** The fields lie right after a ` init=`, split at an `x`; there are none
      only when no `x` follows any ` init=`. */
  lemma FieldsMeaning(line: CString)
    ensures var f := Fields(line);
            f.Some? ==> exists p: nat :: OccursAt(line, " init=", p) && |line| >= p + 6 + |f.value.0| + 1
                          && line[p + 6..] == f.value.0 + "x" + f.value.1
    ensures Fields(line).None? ==> forall p: nat :: OccursAt(line, " init=", p) ==> 'x' !in line[p + 6..]
  {
    FindMeaning(line, " init=");
    match Find(line, " init=")
    case None =>
    case Some(p) =>
      FindMeaning(line[p..], "x");
      match Find(line[p..], "x")
      case None =>
        NoXAfterInit(line, p);
      case Some(dx) =>
        NoCrossBeforeX(line, p, dx);
        FieldsSplitAt(line, p, dx);
        SplitAtJoin(line, p, dx);
  }

  /** When no `x` follows the first ` init=`, none follows any later one either. */
  lemma NoXAfterInit(line: string, p: nat)
    requires OccursAt(line, " init=", p)
    requires forall j: nat :: j < p ==> !OccursAt(line, " init=", j)
    requires forall j: nat :: !OccursAt(line[p..], "x", j)
    ensures forall q: nat :: OccursAt(line, " init=", q) ==> 'x' !in line[q + 6..]
  {
    forall q: nat | OccursAt(line, " init=", q)
      ensures 'x' !in line[q + 6..]
    {
      var t := line[q + 6..];
      forall i | 0 <= i < |t|
        ensures t[i] != 'x'
      {
        var k := q + 6 + i - p;
        assert t[i] == line[p..][k] == line[p..][k..k + 1][0];
        assert !OccursAt(line[p..], "x", k);
      }
    }
  }

  /** The text after ` init=` is the width text, the `x` and the rest. */
  lemma SplitAtJoin(line: string, p: nat, dx: nat)
    requires 6 <= dx && p + dx < |line|
    requires OccursAt(line[p..], "x", dx)
    ensures line[p + 6..] == SplitAt(line, p, dx).0 + "x" + SplitAt(line, p, dx).1
  {
    assert line[p + dx] == line[p..][dx..dx + 1][0];
    assert line[p + 6..] == line[p + 6..p + dx] + [line[p + dx]] + line[p + dx + 1..];
  }

  /** The verdict on a width and a height read: both must be positive. */
  function Checked(w: int, h: int): (r: Probe)
    ensures r == Size(w, h) <==> w > 0 && h > 0
    ensures r != Size(w, h) ==> r == InvalidValues
  {
    if w <= 0 || h <= 0 then InvalidValues else Size(w, h)
  }

  /** The probe as written: after the height it looks for a space and writes a
      terminator there without checking that one was found. */
  function ParseInitAsWritten(line: CString): (r: Probe)
    ensures r == Unrecognized <==> Fields(line).None?
    ensures r == NullWrite <==> Fields(line).Some? && ' ' !in Fields(line).value.1
    ensures r.Size? ==> r.width > 0 && r.height > 0
  {
    match Fields(line)
    case None => Unrecognized
    case Some((width, rest)) =>
      FindSpace(rest);
      match Find(rest, " ")
      case None => NullWrite
      case Some(ds) => Checked(Atoi(width), Atoi(rest[..ds]))
  }

  /** The height as evidently intended: up to the first space, or to the end of the line. */
  function Height(rest: string): int {
    match Find(rest, " ")
    case None => Atoi(rest)
    case Some(ds) => Atoi(rest[..ds])
  }

  /** The probe as evidently intended: with no space after the height the
      height runs to the end of the line. */
  function ParseInit(line: CString): (r: Probe)
    ensures r == Unrecognized <==> Fields(line).None?
    ensures r != NullWrite
    ensures r.Size? ==> r.width > 0 && r.height > 0
  {
    match Fields(line)
    case None => Unrecognized
    case Some((width, rest)) => Checked(Atoi(width), Height(rest))
  }

  /** ` init=` holds no `x`, so the `x` found from it lies after it. */
  lemma NoCrossBeforeX(line: string, p: nat, dx: nat)
    requires OccursAt(line, " init=", p) && OccursAt(line[p..], "x", dx)
    ensures 6 <= dx && p + dx < |line|
  {
    assert line[p..][dx..dx + 1][0] == line[p + dx] == 'x';
    var init := line[p..p + 6];
    assert forall i :: 0 <= i < 6 ==> init[i] == line[p + i];
  }

  /** Both read the same values whenever the code as written does not fault. */
  lemma AgreeUnlessNullWrite(line: CString)
    ensures ParseInitAsWritten(line) != NullWrite ==> ParseInitAsWritten(line) == ParseInit(line)
    ensures ParseInit(line) != NullWrite
  {
  }

  /** With no ` init=` in the prefix, `strstr` finds the one placed after it. */
  lemma InitAfterPrefix(prefix: string, rest: string)
    requires forall j: nat :: !OccursAt(prefix, " init=", j)
    ensures Find(prefix + " init=" + rest, " init=") == Some(|prefix|)
  {
    var line := prefix + " init=" + rest;
    var k := |prefix|;
    assert OccursAt(line, " init=", k);
    forall j: nat | j < k
      ensures !OccursAt(line, " init=", j)
    {
      if j + 6 <= k {
        assert line[j..j + 6] == prefix[j..j + 6];
        assert !OccursAt(prefix, " init=", j);
      } else {
        assert line[j..j + 6][k - j] == line[k] == ' ';
      }
    }
    FindFirst(line, " init=", k);
  }

  /** The first `x` after ` init=` ends a width text that holds none. */
  lemma XAfterText(width: string, rest: string)
    requires 'x' !in width
    ensures Find(" init=" + width + "x" + rest, "x") == Some(6 + |width|)
  {
    var tail := " init=" + width + "x" + rest;
    assert OccursAt(tail, "x", 6 + |width|);
    forall j: nat | j < 6 + |width|
      ensures !OccursAt(tail, "x", j)
    {
      assert tail[j..j + 1][0] == tail[j];
      if j >= 6 {
        assert tail[j] == width[j - 6];
      } else {
        assert tail[j] == " init="[j];
      }
    }
    FindFirst(tail, "x", 6 + |width|);
  }

  /** `Fields` in terms of where `strstr` finds ` init=` and the `x` after it. */
  lemma FieldsAt(line: CString, k: nat, width: string, rest: string)
    requires Find(line, " init=") == Some(k) && k <= |line|
    requires Find(line[k..], "x") == Some(6 + |width|)
    requires k + 6 + |width| + 1 <= |line|
    requires line[k + 6..k + 6 + |width|] == width && line[k + 6 + |width| + 1..] == rest
    ensures Fields(line) == Some((width, rest))
  {
    FieldsSplitAt(line, k, 6 + |width|);
    SplitAtPieces(line, k, width, rest);
  }

  /** `Fields` splits where `strstr` finds ` init=` and the `x` after it. */
  lemma FieldsSplitAt(line: CString, p: nat, dx: nat)
    requires Find(line, " init=") == Some(p) && p <= |line|
    requires Find(line[p..], "x") == Some(dx)
    requires 6 <= dx && p + dx < |line|
    ensures Fields(line) == Some(SplitAt(line, p, dx))
  {
  }

  /** The pieces `SplitAt` cuts, given what lies at those places. */
  lemma SplitAtPieces(line: string, p: nat, width: string, rest: string)
    requires p + 6 + |width| + 1 <= |line|
    requires line[p + 6..p + 6 + |width|] == width && line[p + 6 + |width| + 1..] == rest
    ensures SplitAt(line, p, 6 + |width|) == (width, rest)
  {
  }

  /** The fields of a line made of a prefix without ` init=`, then ` init=`,
      a width text without `x`, `x`, and the rest. */
  lemma FieldsOf(line: CString, prefix: string, width: string, rest: string)
    requires line == prefix + " init=" + width + "x" + rest
    requires forall j: nat :: !OccursAt(prefix, " init=", j)
    requires 'x' !in width
    ensures Fields(line) == Some((width, rest))
  {
    var k := |prefix|;
    var after := width + "x" + rest;
    var tail := " init=" + width + "x" + rest;
    assert line == prefix + " init=" + after;
    InitAfterPrefix(prefix, after);
    assert line[k..] == tail;
    XAfterText(width, rest);
    assert tail[6..6 + |width|] == width && tail[6 + |width| + 1..] == rest;
    assert line[k + 6..k + 6 + |width|] == tail[6..6 + |width|];
    assert line[k + 6 + |width| + 1..] == tail[6 + |width| + 1..];
    FieldsAt(line, k, width, rest);
  }

  /** `strstr` finds a space exactly in a text that holds one. */
  lemma FindSpace(rest: string)
    ensures Find(rest, " ").None? <==> ' ' !in rest
  {
    FindMeaning(rest, " ");
    forall j: nat | j < |rest|
      ensures OccursAt(rest, " ", j) <==> rest[j] == ' '
    {
      assert rest[j..j + 1][0] == rest[j];
    }
  }

  /** The pieces of ` init=1080x1920` followed by a newline. */
  lemma NewlineLineFields(line: CString)
    requires line == " init=1080x1920\n"
    ensures Fields(line) == Some(("1080", "1920\n"))
  {
    FieldsOf(line, "", "1080", "1920\n");
  }

  /** The numbers read from those pieces, and the missing space. */
  lemma NewlineLineValues()
    ensures Find("1920\n", " ").None?
    ensures Atoi("1080") == 1080 && Atoi("1920\n") == 1920
  {
    FindSpace("1920\n");
  }

  /** The line `dumpsys` ends with a newline right after the height: the code
      as written faults, the intended reading gives the size. */
  lemma NewlineAfterHeight(line: CString)
    requires line == " init=1080x1920\n"
    ensures ParseInitAsWritten(line) == NullWrite
    ensures ParseInit(line) == Size(1080, 1920)
  {
    NewlineLineFields(line);
    NewlineLineValues();
  }

  /** The decimal digits of `n`, without leading zeros. */
  function Decimal(n: nat): (d: string)
    ensures |d| > 0 && forall i :: 0 <= i < |d| ==> IsDigit(d[i])
  {
    if n < 10 then [('0' as int + n) as char] else Decimal(n / 10) + [('0' as int + n % 10) as char]
  }

  lemma {:induction false} DigitsAppend(a: string, b: string, acc: int)
    requires forall i :: 0 <= i < |a| ==> IsDigit(a[i])
    ensures DigitsValue(a + b, acc) == DigitsValue(b, DigitsValue(a, acc))
    decreases |a|
  {
    if a == [] {
      assert a + b == b;
    } else {
      assert (a + b)[0] == a[0] && (a + b)[1..] == a[1..] + b;
      DigitsAppend(a[1..], b, 10 * acc + (a[0] as int - '0' as int));
    }
  }

  lemma {:induction false} DecimalValue(n: nat)
    ensures DigitsValue(Decimal(n), 0) == n
    decreases n
  {
    if n >= 10 {
      var c := [('0' as int + n % 10) as char];
      DecimalValue(n / 10);
      DigitsAppend(Decimal(n / 10), c, 0);
      assert c[1..] == [];
    } else {
      assert Decimal(n)[1..] == [];
    }
  }

  /** `atoi` reads back a number written in decimal, up to the first non-digit. */
  lemma AtoiDecimal(n: nat, s: string)
    requires s == [] || !IsDigit(s[0])
    ensures Atoi(Decimal(n) + s) == n
  {
    var d := Decimal(n);
    assert (d + s)[0] == d[0];
    DigitsAppend(d, s, 0);
    DecimalValue(n);
  }

  /** The intended height reading of `h` in decimal followed by a non-digit is `h`. */
  lemma HeightRead(h: nat, suffix: string)
    requires suffix == [] || !IsDigit(suffix[0])
    ensures Height(Decimal(h) + suffix) == h
  {
    var dh := Decimal(h);
    var rest := dh + suffix;
    AtoiDecimal(h, suffix);
    FindMeaning(rest, " ");
    match Find(rest, " ")
    case None =>
    case Some(ds) =>
      assert rest[ds..ds + 1][0] == rest[ds];
      assert ds >= |dh|;
      assert rest[..ds] == dh + suffix[..ds - |dh|];
      AtoiDecimal(h, suffix[..ds - |dh|]);
  }

  /** The intended probe reads back any positive size written as ` init=WxH`,
      whatever precedes it (so long as it holds no ` init=`) and whatever
      non-digit follows. */
  lemma ParseInitRoundTrip(prefix: string, w: nat, h: nat, suffix: string)
    requires w > 0 && h > 0
    requires forall j: nat :: !OccursAt(prefix, " init=", j)
    requires suffix == [] || !IsDigit(suffix[0])
    requires '\0' !in prefix + suffix
    ensures var line := prefix + " init=" + Decimal(w) + "x" + Decimal(h) + suffix;
            '\0' !in line && ParseInit(line) == Size(w, h)
  {
    var dw, dh := Decimal(w), Decimal(h);
    var line := prefix + " init=" + dw + "x" + (dh + suffix);
    assert line == prefix + " init=" + dw + "x" + dh + suffix;
    assert '\0' !in line by {
      assert forall i :: 0 <= i < |dw| ==> dw[i] != '\0';
      assert forall i :: 0 <= i < |dh| ==> dh[i] != '\0';
    }
    assert 'x' !in dw by {
      assert forall i :: 0 <= i < |dw| ==> dw[i] != 'x';
    }
    FieldsOf(line, prefix, dw, dh + suffix);
    AtoiDecimal(w, []);
    assert dw + [] == dw;
    HeightRead(h, suffix);
  }
}
