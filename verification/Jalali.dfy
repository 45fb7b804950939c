/** The Solar Hijri (Jalali) calendar: leap years, month lengths and conversion from day numbers. */
module Jalali {
  import opened Truncation
  import G = Gregorian

  const BREAKS := [
    -61, 9, 38, 199, 426, 686, 756, 818, 1111, 1181, 1210, 1635, 2060, 2097, 2192,
    2262, 2324, 2394, 2456, 3178
  ]

  /** The years the table covers. */
  const FIRST_YEAR := -61
  const LAST_YEAR := 3177

  datatype YearInfo = YearInfo(leap: int, gy: int, march: int)

  /** The segment of the table a year falls in, searching from segment i. */
  function Segment(jy: int, i: nat): (s: nat)
    requires i < |BREAKS|
    ensures i <= s < |BREAKS|
    ensures i < s ==> BREAKS[s] <= jy
    ensures s < |BREAKS| - 1 ==> jy < BREAKS[s + 1]
    decreases |BREAKS| - i
  {
    if i + 1 < |BREAKS| && BREAKS[i + 1] <= jy then Segment(jy, i + 1) else i
  }

  /** The length of a segment; past the end of the table the last length is kept. */
  function Jump(s: nat): int
    requires s < |BREAKS|
  {
    if s + 1 < |BREAKS| then BREAKS[s + 1] - BREAKS[s] else BREAKS[s] - BREAKS[s - 1]
  }

  /** The leap days accumulated at the start of a segment. */
  function LeapsAtBreak(s: nat): int
    requires s < |BREAKS|
  {
    if s == 0 then -14
    else LeapsAtBreak(s - 1) + Div(Jump(s - 1), 33) * 8 + Div(Mod(Jump(s - 1), 33), 4)
  }

  /** The leap days accumulated n years into a segment. */
  function LeapsWithin(jump: int, n: int): int {
    Div(n, 33) * 8 + Div(Mod(n, 33) + 3, 4)
    + (if Mod(jump, 33) == 4 && jump - n == 4 then 1 else 0)
  }

  /** Years since the last leap year, n years into a segment; 0 marks a leap year. */
  function SinceLeap(jump: int, n: int): int {
    var m := if jump - n < 6 then n - jump + Div(jump + 4, 33) * 33 else n;
    var leap := Mod(Mod(m + 1, 33) - 1, 4);
    if leap == -1 then 4 else leap
  }

  /** Gregorian leap days up to a year, on the same scale. */
  function GregorianLeaps(gy: int): int {
    Div(gy, 4) - Div((Div(gy, 100) + 1) * 3, 4) - 150
  }

  /** What a year looks like from the segment it falls in. */
  function YearInSegment(jy: int, jp: int, jump: int, leapJ: int): YearInfo {
    var gy := jy + 621;
    YearInfo(SinceLeap(jump, jy - jp), gy, 20 + (leapJ + LeapsWithin(jump, jy - jp)) - GregorianLeaps(gy))
  }

  /** Everything the conversions need to know about a Jalali year. */
  function Year(jy: int): (r: YearInfo) {
    var s := Segment(jy, 0);
    YearInSegment(jy, BREAKS[s], Jump(s), LeapsAtBreak(s))
  }

  /** One step of the scan: past break i the segment lies further on, before it it is found. */
  lemma ScanStep(jy: int, i: nat)
    requires 1 <= i <= |BREAKS|
    ensures i < |BREAKS| && BREAKS[i] <= jy ==> Segment(jy, i - 1) == Segment(jy, i)
    ensures i == |BREAKS| || jy < BREAKS[i] ==> Segment(jy, i - 1) == i - 1
    ensures i < |BREAKS| ==> Jump(i - 1) == BREAKS[i] - BREAKS[i - 1]
    ensures i < |BREAKS| ==>
      LeapsAtBreak(i) == LeapsAtBreak(i - 1) + Div(Jump(i - 1), 33) * 8 + Div(Mod(Jump(i - 1), 33), 4)
    ensures i == |BREAKS| ==> Jump(i - 1) == BREAKS[i - 1] - BREAKS[i - 2]
  {
    hide Div, Mod;
  }

  /** The scan of the break table, accumulating leap days segment by segment. */
  method JalCal(jy: int) returns (r: YearInfo)
    ensures r == Year(jy)
  {
    hide YearInSegment, Div, Mod, Segment, Jump, LeapsAtBreak;
    assert LeapsAtBreak(0) == -14 by { FirstBreak(); }
    var leapJ := -14;
    var jp := BREAKS[0];
    var jump := 0;
    var i := 1;
    while i < |BREAKS|
      invariant 1 <= i <= |BREAKS|
      invariant jp == BREAKS[i - 1] && leapJ == LeapsAtBreak(i - 1)
      invariant Segment(jy, 0) == Segment(jy, i - 1)
      invariant i == |BREAKS| ==> jump == BREAKS[i - 1] - BREAKS[i - 2]
    {
      ScanStep(jy, i);
      var jm := BREAKS[i];
      jump := jm - jp;
      if jy < jm {
        break;
      }
      leapJ := leapJ + Div(jump, 33) * 8 + Div(Mod(jump, 33), 4);
      jp := jm;
      i := i + 1;
    }
    ScanStep(jy, i);
    r := YearInSegment(jy, jp, jump, leapJ);
  }

  lemma FirstBreak()
    ensures LeapsAtBreak(0) == -14
  {
  }

  /** The table's gaps come in two shapes. */
  lemma GapShape(s: nat)
    requires s < |BREAKS| - 1
    ensures GapShaped(Jump(s))
  {
  }

  predicate GapShaped(jump: int) {
    jump >= 29 && (jump % 33 == 29 || (jump % 33 == 4 && jump >= 37))
  }

  /**
   * A reference rule. A segment is made of 33-year cycles and ends with one cycle of 29 or
   * 37 years; in every cycle the leap years are every fourth year, except the last year.
   */
  function YearsSinceLeap(jump: int, n: int): (years: int)
    requires 0 <= n < jump
    ensures 0 <= years <= 4
  {
    var last := if jump % 33 == 4 then 37 else 29;
    var length := if n < jump - last then 33 else last;
    var position := if n < jump - last then n % 33 else n - (jump - last);
    if position == length - 1 then 4 else position % 4
  }

  lemma Cycle(n: int)
    requires n >= 0
    ensures Div(n, 33) == n / 33 && Mod(n, 33) == n % 33 && n == 33 * (n / 33) + n % 33
  {
  }

  /** The leap flag with flooring operators only. */
  function FlooredSinceLeap(jump: int, n: int): int {
    var m := if jump - n < 6 then n - jump + (jump + 4) / 33 * 33 else n;
    var t := (m + 1) % 33;
    if t == 0 then 4 else (t - 1) % 4
  }

  lemma SinceLeapFloored(jump: int, n: int)
    requires GapShaped(jump) && 0 <= n < jump
    ensures SinceLeap(jump, n) == FlooredSinceLeap(jump, n)
  {
    Cycle(jump + 4);
    var m := if jump - n < 6 then n - jump + (jump + 4) / 33 * 33 else n;
    Cycle(m + 1);
  }

  lemma Residue(x: int, k: int, t: int)
    requires x == 33 * k + t && 0 <= t < 33
    ensures x / 33 == k && x % 33 == t
  {
  }

  lemma LeapFlagInCycles(jump: int, n: int)
    requires GapShaped(jump) && 0 <= n < jump - (if jump % 33 == 4 then 37 else 29)
    ensures FlooredSinceLeap(jump, n) == YearsSinceLeap(jump, n)
  {
    if n % 33 < 32 {
      Residue(n + 1, n / 33, n % 33 + 1);
    } else {
      Residue(n + 1, n / 33 + 1, 0);
    }
  }

  lemma LeapFlagInLast29(jump: int, p: int)
    requires jump >= 29 && jump % 33 == 29 && 0 <= p < 29
    ensures FlooredSinceLeap(jump, jump - 29 + p) == YearsSinceLeap(jump, jump - 29 + p)
  {
    var a, n := jump / 33, jump - 29 + p;
    Residue(jump + 4, a + 1, 0);
    if p < 24 {
      Residue(n + 1, a, p + 1);
    } else if p < 28 {
      Residue(n + 5, a, p + 5);
    } else {
      Residue(n + 5, a + 1, 0);
    }
  }

  lemma LeapFlagInLast37(jump: int, p: int)
    requires jump >= 37 && jump % 33 == 4 && 0 <= p < 37
    ensures FlooredSinceLeap(jump, jump - 37 + p) == YearsSinceLeap(jump, jump - 37 + p)
  {
    var a, n := jump / 33, jump - 37 + p;
    Residue(jump + 4, a, 8);
    if p < 32 {
      Residue(n + 1, a - 1, p + 1);
    } else if p < 36 {
      Residue(n - 3, a - 1, p - 3);
    } else {
      Residue(n - 3, a, 0);
    }
  }

  lemma LeapFlagFloored(jump: int, n: int)
    requires GapShaped(jump) && 0 <= n < jump
    ensures FlooredSinceLeap(jump, n) == YearsSinceLeap(jump, n)
  {
    hide FlooredSinceLeap, YearsSinceLeap;
    if jump % 33 == 29 && n >= jump - 29 {
      LeapFlagInLast29(jump, n - jump + 29);
    } else if jump % 33 == 4 && n >= jump - 37 {
      LeapFlagInLast37(jump, n - jump + 37);
    } else {
      LeapFlagInCycles(jump, n);
    }
  }

  lemma LeapFlagInSegment(jump: int, n: int)
    requires GapShaped(jump) && 0 <= n < jump
    ensures SinceLeap(jump, n) == YearsSinceLeap(jump, n)
  {
    SinceLeapFloored(jump, n);
    LeapFlagFloored(jump, n);
  }

  /** The leap days counted within a segment, with flooring operators only. */
  function FlooredLeapsWithin(jump: int, n: int): int {
    n / 33 * 8 + (n % 33 + 3) / 4 + (if jump % 33 == 4 && jump - n == 4 then 1 else 0)
  }

  lemma LeapsWithinFloored(jump: int, n: int)
    requires jump > 0 && n >= 0
    ensures LeapsWithin(jump, n) == FlooredLeapsWithin(jump, n)
    ensures Div(jump, 33) * 8 + Div(Mod(jump, 33), 4) == jump / 33 * 8 + jump % 33 / 4
  {
    Cycle(n);
    Cycle(jump);
  }

  /** Within a segment the count grows by one over each leap year; at its end it meets the next. */
  lemma LeapCountInSegment(jump: int, n: int)
    requires GapShaped(jump) && 0 <= n < jump
    ensures (if n + 1 < jump then FlooredLeapsWithin(jump, n + 1)
             else jump / 33 * 8 + jump % 33 / 4)
         == FlooredLeapsWithin(jump, n) + (if YearsSinceLeap(jump, n) == 0 then 1 else 0)
  {
    var a, last := jump / 33, if jump % 33 == 4 then 37 else 29;
    var p := n - (jump - last);
    if p < 0 {
      if n % 33 < 32 {
        Residue(n + 1, n / 33, n % 33 + 1);
      } else {
        Residue(n + 1, n / 33 + 1, 0);
      }
    } else if last == 29 {
      Residue(n, a, p);
      if p < 28 {
        Residue(n + 1, a, p + 1);
      }
    } else if p < 32 {
      Residue(n, a - 1, p);
      Residue(n + 1, a - 1, p + 1);
    } else if p == 32 {
      Residue(n, a - 1, p);
      Residue(n + 1, a, 0);
    } else {
      Residue(n, a, p - 33);
      Residue(n + 1, a, p - 32);
    }
  }

  lemma {:induction false} BreaksAscend(i: nat, j: nat)
    requires i < j < |BREAKS|
    ensures BREAKS[i] < BREAKS[j]
    decreases j
  {
    GapShape(j - 1);
    if i < j - 1 {
      BreaksAscend(i, j - 1);
    }
  }

  /** A year lies in exactly one segment. */
  lemma {:induction false} SegmentIs(jy: int, i: nat, s: nat)
    requires i <= s < |BREAKS| && BREAKS[s] <= jy
    requires s < |BREAKS| - 1 ==> jy < BREAKS[s + 1]
    ensures Segment(jy, i) == s
    decreases s - i
  {
    if i < s {
      if i + 1 < s {
        BreaksAscend(i + 1, s);
      }
      SegmentIs(jy, i + 1, s);
    }
  }

  predicate Covered(jy: int) {
    FIRST_YEAR <= jy <= LAST_YEAR
  }

  /** The reference rule for leap years, over the whole table. */
  predicate LeapYear(jy: int)
    requires Covered(jy)
  {
    InSegment(jy);
    var s := Segment(jy, 0);
    YearsSinceLeap(Jump(s), jy - BREAKS[s]) == 0
  }

  lemma InSegment(jy: int)
    requires Covered(jy)
    ensures var s := Segment(jy, 0);
      s < |BREAKS| - 1 && BREAKS[s] <= jy < BREAKS[s + 1]
      && Jump(s) == BREAKS[s + 1] - BREAKS[s] && GapShaped(Jump(s))
  {
    GapShape(Segment(jy, 0));
  }

  lemma YearIn(jy: int)
    requires Covered(jy)
    ensures var s := Segment(jy, 0);
      Year(jy).leap == SinceLeap(Jump(s), jy - BREAKS[s])
      && (LeapYear(jy) <==> YearsSinceLeap(Jump(s), jy - BREAKS[s]) == 0)
  {
    hide SinceLeap, YearsSinceLeap, LeapsWithin, GregorianLeaps, GapShaped, Jump, LeapsAtBreak;
    InSegment(jy);
  }

  function LeapsBefore(jy: int): int {
    var s := Segment(jy, 0);
    LeapsAtBreak(s) + LeapsWithin(Jump(s), jy - BREAKS[s])
  }

  lemma LeapsBeforeIn(jy: int, s: nat)
    requires s < |BREAKS| && BREAKS[s] <= jy && (s < |BREAKS| - 1 ==> jy < BREAKS[s + 1])
    ensures LeapsBefore(jy) == LeapsAtBreak(s) + FlooredLeapsWithin(Jump(s), jy - BREAKS[s])
  {
    SegmentIs(jy, 0, s);
    GapShapeAt(s);
    LeapsWithinFloored(Jump(s), jy - BREAKS[s]);
  }

  lemma LeapsAtNextBreak(s: nat)
    requires s < |BREAKS| - 1
    ensures LeapsAtBreak(s + 1) == LeapsAtBreak(s) + Jump(s) / 33 * 8 + Jump(s) % 33 / 4
  {
    GapShapeAt(s);
    Cycle(Jump(s));
  }

  /** The accumulated leap days grow by one over each leap year, across every break. */
  lemma LeapsAccumulate(jy: int)
    requires Covered(jy)
    ensures LeapsBefore(jy + 1) == LeapsBefore(jy) + (if LeapYear(jy) then 1 else 0)
  {
    hide *;
    InSegment(jy);
    YearIn(jy);
    var s := Segment(jy, 0);
    LeapsBeforeIn(jy, s);
    LeapCountInSegment(Jump(s), jy - BREAKS[s]);
    if jy + 1 < BREAKS[s + 1] {
      LeapsBeforeIn(jy + 1, s);
    } else {
      LeapsAtNextBreak(s);
      BreaksAscendFrom(s + 1);
      LeapsBeforeIn(jy + 1, s + 1);
    }
  }

  lemma BreaksAscendFrom(s: nat)
    requires s < |BREAKS|
    ensures s < |BREAKS| - 1 ==> BREAKS[s] < BREAKS[s + 1]
    ensures FlooredLeapsWithin(Jump(s), 0) == 0 && Jump(s) > 0
  {
    GapShapeAt(s);
  }

  lemma GapShapeAt(s: nat)
    requires s < |BREAKS|
    ensures GapShaped(Jump(s))
  {
    GapShape(if s < |BREAKS| - 1 then s else s - 1);
  }

  /** The day number of 1 Farvardin. */
  function Farvardin(jy: int): int {
    var y := Year(jy);
    G.DayNumber(y.gy, 3, y.march)
  }

  lemma GregorianLeapsForm(gy: int)
    requires gy >= 0
    ensures GregorianLeaps(gy) == gy / 4 - (gy / 100 + 1) * 3 / 4 - 150
  {
  }

  lemma ClosedFormShift(gy: int)
    requires gy >= 0
    ensures var y := gy + 100100;
      y / 4 - y / 100 * 3 / 4 == gy / 4 - (gy / 100 + 1) * 3 / 4 + 24275
  {
    var c, y := gy / 100, gy + 100100;
    assert y / 4 == gy / 4 + 25025 && y / 100 == c + 1001;
    assert (c + 1001) * 3 == (c + 1) * 3 + 4 * 750;
  }

  /** Where the Gregorian and Jalali leap counts meet, the Gregorian one cancels. */
  lemma FarvardinClosedForm(jy: int)
    requires FIRST_YEAR <= jy <= LAST_YEAR + 1
    ensures Farvardin(jy) == 365 * jy + LeapsBefore(jy) + 1947954
  {
    hide GregorianLeaps, LeapsWithin, SinceLeap, Div, Mod;
    var gy, march := jy + 621, Year(jy).march;
    G.DayNumberClosedForm(G.Date(gy, 3, march));
    GregorianLeapsForm(gy);
    ClosedFormShift(gy);
  }

  lemma FarvardinAdvance(jy: int)
    requires Covered(jy)
    ensures Farvardin(jy + 1) - Farvardin(jy) == 365 + LeapsBefore(jy + 1) - LeapsBefore(jy)
  {
    hide Farvardin, LeapsBefore;
    FarvardinClosedForm(jy);
    FarvardinClosedForm(jy + 1);
  }

  /** A year has 366 days exactly when its flag is 0, and the flag follows the reference rule. */
  lemma YearLength(jy: int)
    requires Covered(jy)
    ensures 0 <= Year(jy).leap <= 4
    ensures Year(jy).leap == 0 <==> LeapYear(jy)
    ensures Farvardin(jy + 1) - Farvardin(jy) == if Year(jy).leap == 0 then 366 else 365
  {
    hide *;
    InSegment(jy);
    YearIn(jy);
    var s := Segment(jy, 0);
    LeapFlagInSegment(Jump(s), jy - BREAKS[s]);
    LeapsAccumulate(jy);
    FarvardinAdvance(jy);
  }

  /** At each break the leap days stay within s/33 of eight in 33 years. */
  lemma {:induction false} BreaksKeepPace(s: nat)
    requires s < |BREAKS|
    ensures 0 - s <= 33 * (LeapsAtBreak(s) + 14) - 8 * (BREAKS[s] + 61) <= s
  {
    if s > 0 {
      BreaksKeepPace(s - 1);
      GapShapeAt(s - 1);
      LeapsAtNextBreak(s - 1);
      SegmentPace(Jump(s - 1));
    }
  }

  lemma SegmentPace(jump: int)
    requires GapShaped(jump)
    ensures -1 <= 33 * (jump / 33 * 8 + jump % 33 / 4) - 8 * jump <= 1
  {
  }

  lemma PaceWithin(jump: int, n: int)
    requires n >= 0
    ensures 0 <= 33 * FlooredLeapsWithin(jump, n) - 8 * n <= 66
  {
    var q, r := n / 33, n % 33;
    assert n == 33 * q + r;
    assert 8 * r <= 33 * ((r + 3) / 4) <= 8 * r + 33;
  }

  lemma GregorianPace(gy: int)
    requires gy >= 0
    ensures -600 <= 400 * (GregorianLeaps(gy) + 150) - 97 * gy <= 297
  {
    hide GregorianLeaps;
    GregorianLeapsForm(gy);
    var c, t := gy / 100, (gy / 100 + 1) * 3 / 4;
    assert 100 * c <= gy <= 100 * c + 99;
    assert 4 * t <= 3 * c + 3 <= 4 * t + 3;
    assert gy - 3 <= 4 * (gy / 4) <= gy;
  }

  /** 1 Farvardin always falls in the second half of March. */
  lemma NowruzInMarch(jy: int)
    requires FIRST_YEAR <= jy <= LAST_YEAR + 1
    ensures 19 <= Year(jy).march <= 24
  {
    hide GregorianLeaps, LeapsWithin, SinceLeap, FlooredLeapsWithin, GapShaped, LeapsAtBreak, LeapsBefore, Jump;
    LeapsKeepPace(jy);
    GregorianPace(jy + 621);
    MarchBounds(jy, LeapsBefore(jy), GregorianLeaps(jy + 621));
    MarchIs(jy);
  }

  lemma MarchIs(jy: int)
    ensures Year(jy).march == 20 + LeapsBefore(jy) - GregorianLeaps(jy + 621)
  {
    hide GregorianLeaps, LeapsWithin, SinceLeap, LeapsAtBreak, Segment, Jump;
  }

  lemma LeapsKeepPace(jy: int)
    requires FIRST_YEAR <= jy
    ensures -19 <= 33 * (LeapsBefore(jy) + 14) - 8 * (jy + 61) <= 85
  {
    hide LeapsWithin, FlooredLeapsWithin, LeapsAtBreak, LeapsBefore, Jump;
    var s := Segment(jy, 0);
    LeapsBeforeIn(jy, s);
    BreaksKeepPace(s);
    PaceWithin(Jump(s), jy - BREAKS[s]);
  }

  lemma MarchBounds(jy: int, leapJ: int, leapG: int)
    requires -61 <= jy <= 3178
    requires -19 <= 33 * (leapJ + 14) - 8 * (jy + 61) <= 85
    requires -600 <= 400 * (leapG + 150) - 97 * (jy + 621) <= 297
    ensures 19 <= 20 + leapJ - leapG <= 24
  {
    var x := 33 * (leapJ + 14) - 8 * (jy + 61);
    var y := 400 * (leapG + 150) - 97 * (jy + 621);
    assert 13200 * (20 + leapJ - leapG) == 266579 - jy + 400 * x - 33 * y;
  }


  /** In any segment, the flag counts the years since the last leap year of the reference rule. */
  lemma FlagCounts(jy: int, s: nat)
    requires s < |BREAKS| && BREAKS[s] <= jy && (s < |BREAKS| - 1 ==> jy < BREAKS[s + 1])
    requires jy - BREAKS[s] < Jump(s)
    ensures Year(jy).leap == YearsSinceLeap(Jump(s), jy - BREAKS[s])
  {
    hide YearsSinceLeap, SinceLeap, LeapsWithin, LeapsAtBreak, GregorianLeaps, GapShaped, Jump;
    SegmentIs(jy, 0, s);
    GapShapeAt(s);
    LeapFlagInSegment(Jump(s), jy - BREAKS[s]);
  }

  lemma YearsSinceLeapFollow(jump: int, n: int)
    requires GapShaped(jump) && 0 < n < jump
    ensures YearsSinceLeap(jump, n) == 1 <==> YearsSinceLeap(jump, n - 1) == 0
  {
    var last := if jump % 33 == 4 then 37 else 29;
    if n <= jump - last {
      if n % 33 > 0 {
        Residue(n - 1, n / 33, n % 33 - 1);
      } else {
        Residue(n - 1, n / 33 - 1, 32);
      }
      if n == jump - last {
        Residue(n, jump / 33 - (if last == 37 then 1 else 0), 0);
      }
    } else {
      AlternateFours(n - (jump - last));
    }
  }

  lemma AlternateFours(p: int)
    ensures p % 4 == 1 <==> (p - 1) % 4 == 0
  {
  }

  lemma SegmentEnds(jump: int)
    requires GapShaped(jump)
    ensures YearsSinceLeap(jump, 0) == 0 && YearsSinceLeap(jump, jump - 1) == 4
  {
  }

  /** The flag is 1 exactly when the previous year is a leap year, also across a break. */
  lemma LeapFlagFollows(jy: int)
    requires FIRST_YEAR < jy <= LAST_YEAR + 1
    ensures Year(jy).leap == 1 <==> Year(jy - 1).leap == 0
  {
    hide YearsSinceLeap, Year, GapShaped, Segment;
    InSegment(jy - 1);
    FlagFollowsIn(jy, Segment(jy - 1, 0));
  }

  lemma FlagFollowsIn(jy: int, s: nat)
    requires s < |BREAKS| - 1 && BREAKS[s] <= jy - 1 < BREAKS[s + 1]
    requires Jump(s) == BREAKS[s + 1] - BREAKS[s]
    ensures Year(jy).leap == 1 <==> Year(jy - 1).leap == 0
  {
    hide YearsSinceLeap, Year, GapShaped, Jump;
    GapShapeAt(s);
    FlagCounts(jy - 1, s);
    if jy < BREAKS[s + 1] {
      FlagCounts(jy, s);
      YearsSinceLeapFollow(Jump(s), jy - BREAKS[s]);
    } else {
      SegmentEnds(Jump(s));
      BreaksAscendFrom(s + 1);
      GapShapeAt(s + 1);
      FlagCounts(jy, s + 1);
      SegmentEnds(Jump(s + 1));
    }
  }
}
