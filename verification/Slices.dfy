/** The allowance periods of a paid period, and the months it may mint notes for. */
module Slices {
  import opened Wrappers
  import opened Naturals
  import opened Calendar

  function Clamp(x: int, lo: int, hi: int): int
    requires lo <= hi
  {
    if x < lo then lo else if x > hi then hi else x
  }

  // ---- slices ------------------------------------------------------------------------------

  /** From `k` downwards, the first month not begun after `now`. */
  function SearchDown(start: nat, now: nat, k: nat): (r: nat)
    ensures r <= k
  {
    if k > 0 && AddMonths(start, k) > now then SearchDown(start, now, k - 1) else k
  }

  /** Which of the twelve months of a paid year `now` lies in. */
  function SliceMonth(start: nat, now: nat): (k: nat)
    ensures k <= 11
  {
    var (c0, c1) := (CivilFromMs(start), CivilFromMs(Max(now, start)));
    SearchDown(start, now, Clamp((c1.y - c0.y) * 12 + c1.m - c0.m, 0, 11))
  }

  function SliceAt(start: nat, until: nat, yearly: bool, now: nat): Option<(nat, nat)> {
    if until <= now || start == 0 || start >= until then None
    else if !yearly then Some((start, until))
    else
      var k := SliceMonth(start, now);
      Some((AddMonths(start, k), if k >= 11 then until else Min(AddMonths(start, k + 1), until)))
  }

  /** The search as the program runs it: counting down month by month. */
  method ComputeSlice(start: nat, until: nat, yearly: bool, now: nat) returns (slice: Option<(nat, nat)>)
    ensures slice == SliceAt(start, until, yearly, now)
  {
    hide AddMonths, CivilFromMs;
    if until <= now || start == 0 || start >= until {
      return None;
    }
    if !yearly {
      return Some((start, until));
    }
    var c0 := CivilFromMs(start);
    var c1 := CivilFromMs(Max(now, start));
    var k: nat := Clamp((c1.y - c0.y) * 12 + c1.m - c0.m, 0, 11);
    while k > 0 && AddMonths(start, k) > now
      invariant SearchDown(start, now, k) == SliceMonth(start, now)
    {
      k := k - 1;
    }
    var end := if k >= 11 then until else Min(AddMonths(start, k + 1), until);
    return Some((AddMonths(start, k), end));
  }

  /** Month `k` is the one `now` lies in: begun, and the next one not (a clock behind the
      rail's is in the first month, the last month runs on). */
  predicate InMonth(start: nat, now: nat, k: nat) {
    && k <= 11
    && (k > 0 ==> AddMonths(start, k) <= now)
    && (k < 11 ==> now < AddMonths(start, k + 1))
  }

  lemma {:induction false} SearchStopsRight(start: nat, now: nat, k: nat)
    requires k <= 11 && (k < 11 ==> now < AddMonths(start, k + 1))
    ensures InMonth(start, now, SearchDown(start, now, k))
  {
    hide AddMonths;
    if k > 0 && AddMonths(start, k) > now {
      SearchStopsRight(start, now, k - 1);
    }
  }

  lemma InMonthUnique(start: nat, now: nat, j: nat, k: nat)
    requires InMonth(start, now, j) && InMonth(start, now, k)
    ensures j == k
  {
    hide AddMonths;
    if j < k && j + 1 < k { AddMonthsIncreases(start, j + 1, k); }
    if k < j && k + 1 < j { AddMonthsIncreases(start, k + 1, j); }
  }

  /** The loop stops at the right month, whatever day and time the year began on. */
  lemma SliceMonthIsRight(start: nat, now: nat, k: nat)
    ensures SliceMonth(start, now) == k <==> InMonth(start, now, k)
  {
    hide CivilFromMs, AddMonths, SearchDown;
    var m := Max(now, start);
    var d := MonthIndex(CivilFromMs(m)) - MonthIndex(CivilFromMs(start));
    MonthsKeepOrder(start, m);
    if d < 11 {
      AddMonthsLands(start, d + 1);
      if AddMonths(start, d + 1) <= m {
        MonthsKeepOrder(AddMonths(start, d + 1), m);
      }
    }
    SearchStopsRight(start, now, Clamp(d, 0, 11));
    if InMonth(start, now, k) {
      InMonthUnique(start, now, k, SliceMonth(start, now));
    }
  }

  /** A moment of the paid period lies in its slice, and the slice in the paid period. */
  lemma SliceHoldsNow(start: nat, until: nat, yearly: bool, now: nat)
    requires 0 < start <= now < until
    ensures var slice := SliceAt(start, until, yearly, now);
            slice.Some? && start <= slice.value.0 <= now < slice.value.1 <= until
  {
    hide AddMonths, SliceMonth;
    if yearly {
      var k := SliceMonth(start, now);
      SliceMonthIsRight(start, now, k);
      NoMonths(start);
      if k > 0 { AddMonthsIncreases(start, 0, k); }
    }
  }

  /** Every moment of a slice gives that slice. */
  lemma SliceIsConstant(start: nat, until: nat, yearly: bool, now: nat, t: nat)
    requires 0 < start <= now < until
    requires var slice := SliceAt(start, until, yearly, now); slice.Some? && slice.value.0 <= t < slice.value.1
    ensures SliceAt(start, until, yearly, t) == SliceAt(start, until, yearly, now)
  {
    hide AddMonths, SliceMonth;
    SliceHoldsNow(start, until, yearly, now);
    if yearly {
      var k := SliceMonth(start, now);
      SliceMonthIsRight(start, now, k);
      SliceMonthIsRight(start, t, k);
    }
  }

  /** Slices meet: where one ends before the paid period does, the next begins; the first
      begins with the paid period. */
  lemma SlicesMeet(start: nat, until: nat, yearly: bool, now: nat)
    requires 0 < start <= now < until
    ensures var slice := SliceAt(start, until, yearly, now);
            && slice.Some?
            && (slice.value.1 < until ==>
                  var next := SliceAt(start, until, yearly, slice.value.1); next.Some? && next.value.0 == slice.value.1)
    ensures var first := SliceAt(start, until, yearly, start); first.Some? && first.value.0 == start
  {
    hide AddMonths, SliceMonth;
    SliceHoldsNow(start, until, yearly, now);
    SliceHoldsNow(start, until, yearly, start);
    if yearly {
      NoMonths(start);
      AddMonthsIncreases(start, 0, 1);
      SliceMonthIsRight(start, start, 0);
      var k := SliceMonth(start, now);
      var e := SliceAt(start, until, yearly, now).value.1;
      if e < until {
        SliceMonthIsRight(start, now, k);
        AddMonthsIncreases(start, k + 1, k + 2);
        SliceMonthIsRight(start, e, k + 1);
      }
    }
  }

  /** There is a slice exactly while the paid period is known and not over; a monthly plan's is the paid
      period, and a clock behind the rail's reads the first of a year's. */
  lemma SliceExactlyWhen(start: nat, until: nat, yearly: bool, now: nat)
    ensures SliceAt(start, until, yearly, now).Some? <==> 0 < start < until && now < until
    ensures SliceAt(start, until, false, now).Some? ==> SliceAt(start, until, false, now).value == (start, until)
    ensures yearly && now < start && SliceAt(start, until, yearly, now).Some? ==>
              SliceAt(start, until, yearly, now).value == (start, Min(AddMonths(start, 1), until))
  {
    hide AddMonths, SliceMonth;
    if now < start {
      NoMonths(start);
      AddMonthsIncreases(start, 0, 1);
      SliceMonthIsRight(start, now, 0);
    }
  }

  lemma {:induction false} AtMostOneEach(s: seq<nat>, n: nat)
    requires forall i :: 0 <= i < |s| ==> s[i] < n
    requires forall i, j :: 0 <= i < j < |s| ==> s[i] != s[j]
    ensures |s| <= n
  {
    assert s == [] || s[0] < n;
    if i :| 0 <= i < |s| && s[i] == n - 1 {
      AtMostOneEach(s[..i] + s[i + 1..], n - 1);
    } else if n > 0 {
      AtMostOneEach(s, n - 1);
    }
  }

  /** There are at most twelve slices: moments whose slices all differ number twelve or fewer. */
  lemma AtMostTwelve(start: nat, until: nat, yearly: bool, moments: seq<nat>)
    requires forall i :: 0 <= i < |moments| ==> SliceAt(start, until, yearly, moments[i]).Some?
    requires forall i, j :: 0 <= i < j < |moments| ==>
               SliceAt(start, until, yearly, moments[i]) != SliceAt(start, until, yearly, moments[j])
    ensures |moments| <= if yearly then 12 else 1
  {
    hide AddMonths, SliceMonth;
    var months := seq(|moments|, i requires 0 <= i < |moments| => if yearly then SliceMonth(start, moments[i]) else 0);
    forall i, j | 0 <= i < j < |months| ensures months[i] != months[j] {
      assert SliceAt(start, until, yearly, moments[i]) != SliceAt(start, until, yearly, moments[j]);
    }
    AtMostOneEach(months, if yearly then 12 else 1);
  }

  const U32 := 0x1_0000_0000

  /** The name of a period: its start in seconds, at most what 32 bits hold. */
  function PeriodKey(start: nat): nat {
    if start / 1000 < U32 then start / 1000 else U32 - 1
  }

  // ---- month epochs ----------------------------------------------------------------------------

  const EPOCH_ZERO_YEAR := 2026
  const U16_MAX := 65_535

  function RawEpoch(ms: nat): int {
    var c := CivilFromMs(ms);
    (c.y - EPOCH_ZERO_YEAR) * 12 + (c.m - 1)
  }

  /** Calendar months since January 2026, held to the 16 bits they travel in. */
  function EpochOfMs(ms: nat): (r: nat)
    ensures r <= U16_MAX
  {
    Clamp(RawEpoch(ms), 0, U16_MAX)
  }

  function EpochStart(epoch: nat): nat {
    MsFromCivil(Date(EPOCH_ZERO_YEAR + epoch / 12, epoch % 12 + 1, 1))
  }

  function EpochEnd(epoch: nat): nat {
    EpochStart(epoch + 1)
  }

  lemma EpochStartIsFirstDay(epoch: nat)
    ensures FirstDay(24_312 + epoch) >= 0 && EpochStart(epoch) == FirstDay(24_312 + epoch) * DAY_MS
  {
    hide DaysFromCivil;
    var c := MonthOf(24_312 + epoch, 1);
    assert c == Date(EPOCH_ZERO_YEAR + epoch / 12, epoch % 12 + 1, 1);
    DaysSinceEpoch(c);
  }

  /** A moment belongs to an epoch exactly when it lies between its first millisecond and the
      next one's; everything before 2026 counts as the first. */
  lemma EpochBounds(ms: nat, k: nat)
    requires k < U16_MAX
    ensures EpochOfMs(ms) == k <==> (k == 0 || EpochStart(k) <= ms) && ms < EpochEnd(k)
  {
    hide RawEpoch, EpochStart;
    BegunByEpoch(ms, k);
    BegunByEpoch(ms, k + 1);
  }

  lemma BegunByEpoch(ms: nat, k: nat)
    ensures EpochStart(k) <= ms <==> k <= RawEpoch(ms)
  {
    hide CivilFromDays, FirstDay, EpochStart;
    EpochStartIsFirstDay(k);
    DayBegun(FirstDay(24_312 + k), ms);
    MonthOrder(ms / DAY_MS, 24_312 + k);
  }

  lemma DayBegun(day: int, ms: nat)
    ensures day * DAY_MS <= ms <==> day <= ms / DAY_MS
  {
  }

  lemma MonthOrder(z: int, idx: int)
    ensures idx <= MonthIndex(CivilFromDays(z)) <==> FirstDay(idx) <= z
  {
    hide CivilFromDays, FirstDay;
    var x := MonthIndex(CivilFromDays(z));
    MonthBounds(z, x);
    if idx <= x { FirstDaysIncrease(idx, x); } else { FirstDaysIncrease(x + 1, idx); }
  }

  /** A month's number is the calendar's, held to sixteen bits. */
  lemma SixteenBits(ms: nat)
    ensures EpochOfMs(ms) < 65_536
    ensures 0 <= RawEpoch(ms) < 65_536 ==> EpochOfMs(ms) == RawEpoch(ms)
  {
    hide RawEpoch;
  }

  lemma EpochsKeepOrder(a: nat, b: nat)
    requires a <= b
    ensures EpochOfMs(a) <= EpochOfMs(b)
  {
    hide CivilFromMs;
    MonthsKeepOrder(a, b);
  }

  /** The moment month `i` of a period ends. */
  function MonthEnd(start: nat, until: nat, i: nat): nat {
    Min(AddMonths(start, i + 1), until)
  }

  function EpochsFrom(start: nat, until: nat, i: nat, n: nat): (r: seq<nat>)
    requires i <= n
    ensures |r| <= n - i
    decreases n - i
  {
    if i == n then []
    else
      var e := MonthEnd(start, until, i);
      if e <= AddMonths(start, i) then [] else [EpochOfMs(e - 1)] + EpochsFrom(start, until, i + 1, n)
  }

  /** The month epochs a paid period may mint notes for: the month each of its months ends in. */
  function EpochsCovered(start: nat, until: nat, yearly: bool): seq<nat> {
    EpochsFrom(start, until, 0, if yearly then 12 else 1)
  }

  method ComputeEpochs(start: nat, until: nat, yearly: bool) returns (out: seq<nat>)
    ensures out == EpochsCovered(start, until, yearly)
  {
    hide AddMonths, EpochOfMs;
    var n := if yearly then 12 else 1;
    out := [];
    for i := 0 to n
      invariant out + EpochsFrom(start, until, i, n) == EpochsCovered(start, until, yearly)
    {
      var s := AddMonths(start, i);
      var e := Min(AddMonths(start, i + 1), until);
      if e <= s {
        return;
      }
      ghost var rest := EpochsFrom(start, until, i + 1, n);
      assert out + ([EpochOfMs(e - 1)] + rest) == (out + [EpochOfMs(e - 1)]) + rest;
      out := out + [EpochOfMs(e - 1)];
    }
  }

  lemma {:induction false} EpochsFromAt(start: nat, until: nat, i: nat, n: nat, j: nat)
    requires i <= n && j < |EpochsFrom(start, until, i, n)|
    ensures AddMonths(start, i + j) < MonthEnd(start, until, i + j)
    ensures EpochsFrom(start, until, i, n)[j] == EpochOfMs(MonthEnd(start, until, i + j) - 1)
    decreases n - i
  {
    hide AddMonths, EpochOfMs;
    if j > 0 {
      EpochsFromAt(start, until, i + 1, n, j - 1);
    }
  }

  /** A period covers a month for each of its own that has begun when it ends, one or twelve at most:
      the one which that month ends in, or the period itself if it ends sooner. */
  lemma {:induction false} EpochsExactly(start: nat, until: nat, yearly: bool, j: nat)
    ensures var n := if yearly then 12 else 1;
            && |EpochsCovered(start, until, yearly)| <= n
            && (j < |EpochsCovered(start, until, yearly)| <==> j < n && AddMonths(start, j) < until)
            && (j < |EpochsCovered(start, until, yearly)| ==>
                  EpochsCovered(start, until, yearly)[j] == EpochOfMs(Monus(Min(AddMonths(start, j + 1), until), 1)))
  {
    hide AddMonths, EpochOfMs;
    var n := if yearly then 12 else 1;
    EpochsAsLongAsBegun(start, until, 0, n, j);
    if j < |EpochsCovered(start, until, yearly)| { EpochsFromAt(start, until, 0, n, j); }
  }

  lemma {:induction false} EpochsAsLongAsBegun(start: nat, until: nat, i: nat, n: nat, j: nat)
    requires i <= n
    ensures j < |EpochsFrom(start, until, i, n)| <==> i + j < n && AddMonths(start, i + j) < until
    decreases n - i
  {
    hide AddMonths, EpochOfMs;
    if i < n {
      AddMonthsIncreases(start, i, i + 1);
      if j > 0 {
        if AddMonths(start, i) >= until { AddMonthsIncreases(start, i, i + j); }
        EpochsAsLongAsBegun(start, until, i + 1, n, j - 1);
      }
    }
  }

  /** However a period is shortened, the months it covers never go back. */
  lemma EpochsNeverDecrease(start: nat, until: nat, yearly: bool, i: nat, j: nat)
    requires i < j < |EpochsCovered(start, until, yearly)|
    ensures EpochsCovered(start, until, yearly)[i] <= EpochsCovered(start, until, yearly)[j]
  {
    hide AddMonths, EpochOfMs;
    var n := if yearly then 12 else 1;
    EpochsFromAt(start, until, 0, n, i);
    EpochsFromAt(start, until, 0, n, j);
    AddMonthsIncreases(start, i + 1, j + 1);
    EpochsKeepOrder(MonthEnd(start, until, i) - 1, MonthEnd(start, until, j) - 1);
  }

  /** The very first millisecond of a month. */
  predicate MonthBegins(ms: nat) {
    CivilFromMs(ms).d == 1 && ms % DAY_MS == 0
  }

  lemma MonthJustBefore(ms: nat)
    requires ms > 0
    ensures MonthIndex(CivilFromMs(ms - 1)) == MonthIndex(CivilFromMs(ms)) - (if MonthBegins(ms) then 1 else 0)
  {
    hide CivilFromDays, DaysFromCivil, FirstDay;
    var z := ms / DAY_MS;
    var c := CivilFromDays(z);
    var k := MonthIndex(c);
    DateOfDay(z);
    assert c == MonthOf(k, c.d);
    DayInMonth(k, c.d);
    MonthBounds(z, k);
    if MonthBegins(ms) {
      NextMonth(k - 1);
      assert (ms - 1) / DAY_MS == z - 1;
      MonthBounds(z - 1, k - 1);
    } else {
      MonthBounds((ms - 1) / DAY_MS, k);
    }
  }

  /** Which epoch the month ending at `AddMonths(start, j)` belongs to, before clamping. */
  lemma EpochOfMonthEnd(start: nat, j: nat)
    requires j > 0
    ensures AddMonths(start, j) > 0
    ensures RawEpoch(AddMonths(start, j) - 1) == RawEpoch(start) + j - (if MonthBegins(start) then 1 else 0)
  {
    hide CivilFromMs, AddMonths, DaysInMonth;
    NoMonths(start);
    AddMonthsIncreases(start, 0, j);
    AddMonthsLands(start, j);
    MonthJustBefore(AddMonths(start, j));
    BeginsAsItDid(start, j);
  }

  lemma BeginsAsItDid(start: nat, j: nat)
    ensures MonthBegins(AddMonths(start, j)) <==> MonthBegins(start)
  {
    hide CivilFromMs, AddMonths;
    AddMonthsLands(start, j);
    CivilIsCounting(start);
  }

  lemma {:induction false} FullMonths(start: nat, until: nat, i: nat)
    requires i <= 12 && until == AddMonths(start, 12)
    ensures |EpochsFrom(start, until, i, 12)| == 12 - i
    decreases 12 - i
  {
    hide AddMonths, EpochOfMs;
    if i < 12 {
      AddMonthsIncreases(start, i, i + 1);
      if i + 1 < 12 { AddMonthsIncreases(start, i + 1, 12); }
      FullMonths(start, until, i + 1);
    }
  }

  /** Month `i` of a full paid year: its slice, and the epoch that slice ends in. */
  lemma FullSlice(start: nat, i: nat)
    requires start > 0 && i < 12
    ensures var until := AddMonths(start, 12);
            && MonthEnd(start, until, i) == AddMonths(start, i + 1) > 0
            && SliceAt(start, until, true, AddMonths(start, i)) == Some((AddMonths(start, i), AddMonths(start, i + 1)))
  {
    hide AddMonths, SliceMonth;
    NoMonths(start);
    AddMonthsIncreases(start, i, i + 1);
    if i > 0 { AddMonthsIncreases(start, 0, i); }
    AddMonthsIncreases(start, i, 12);
    if i + 1 < 12 { AddMonthsIncreases(start, i + 1, 12); }
    SliceMonthIsRight(start, AddMonths(start, i), i);
  }

  /** A full paid year from 2026 on mints twelve months in a row, each the month its slice ends in. */
  lemma FullYearMintsTwelve(start: nat, i: nat)
    requires start > 0 && RawEpoch(start) >= 0 && RawEpoch(start) + 12 <= U16_MAX
    requires i < 12
    ensures var until := AddMonths(start, 12);
            var months := EpochsCovered(start, until, true);
            && |months| == 12
            && months[i] == months[0] + i
            && var slice := SliceAt(start, until, true, AddMonths(start, i));
               slice.Some? && slice.value.1 > 0 && months[i] == EpochOfMs(slice.value.1 - 1)
  {
    hide AddMonths, EpochsFrom, SliceAt, RawEpoch, MonthEnd;
    var until := AddMonths(start, 12);
    FullMonths(start, until, 0);
    EpochsFromAt(start, until, 0, 12, 0);
    EpochsFromAt(start, until, 0, 12, i);
    FullSlice(start, 0);
    FullSlice(start, i);
    EpochOfMonthEnd(start, 1);
    EpochOfMonthEnd(start, i + 1);
  }
}
