/** The RTC's time encoding and the arithmetic of its clock compensation. */
module Rtc {
  import opened Basics

  type Byte = x: int | 0 <= x < 256

  /** The kernel's `bin2bcd`: any function to a byte that is right on two digits. */
  type Bcd = int -> Byte

  ghost predicate IsBcd(bcd: Bcd) { forall v | 0 <= v < 100 :: bcd(v) == 16 * (v / 10) + v % 10 }

  function Bcd2Bin(b: nat): nat { b % 16 + b / 16 * 10 }

  lemma TwoDigits(bcd: Bcd, v: int)
    requires IsBcd(bcd) && 0 <= v < 100
    ensures Bcd2Bin(bcd(v)) == v && bcd(v) < 0xA0
    ensures bcd(v) < 0x80 <==> v < 80
  {}

  // ----- set_time and read_time

  const RTC_WRITE_MASK: U32 := 0xc452_2900
  const NUM_TIME_REGS := 8

  datatype Time = Time(sec: int, min: int, hour: int, mday: int, mon: int, year: int, wday: int)

  /** A byte with the write key; the key's low byte is zero, so the two never meet. */
  function Keyed(b: Byte): U32 { b + RTC_WRITE_MASK }

  function YearHigh(year: int): int { if year > 199 then (year - 100) / 100 else 0 }

  function TimeRegs(bcd: Bcd, tm: Time): seq<U32> {
    var yearh := YearHigh(tm.year);
    [Keyed(bcd(tm.sec)), Keyed(bcd(tm.min)), Keyed(bcd(tm.hour)), Keyed(bcd(tm.mday)), Keyed(bcd(tm.mon + 1)),
     Keyed(bcd(tm.year - 100 - yearh * 100)), Keyed(bcd(yearh)), Keyed(bcd(tm.wday))]
  }

  /** The registers read back through the driver's field masks. */
  function TimeOf(regs: seq<U32>): Time
    requires |regs| == NUM_TIME_REGS
  {
    Time(Bcd2Bin(regs[0] % 0x80), Bcd2Bin(regs[1] % 0x80), Bcd2Bin(regs[2] % 0x40), Bcd2Bin(regs[3] % 0x40),
         Bcd2Bin(regs[4] % 0x20) - 1, Bcd2Bin(regs[6] % 0x100) * 100 + Bcd2Bin(regs[5] % 0x100) + 100,
         Bcd2Bin(regs[7] % 8))
  }

  /** The register file filled in the driver's order. */
  method SetTime(bcd: Bcd, tm: Time, rtcData: array<U32>)
    requires rtcData.Length == NUM_TIME_REGS
    modifies rtcData
    ensures rtcData[..] == TimeRegs(bcd, tm)
    ensures
      var century := if tm.year >= 100 then (tm.year - 100) / 100 else 0;
      rtcData[..] == [0xc452_2900 + bcd(tm.sec), 0xc452_2900 + bcd(tm.min), 0xc452_2900 + bcd(tm.hour),
                      0xc452_2900 + bcd(tm.mday), 0xc452_2900 + bcd(tm.mon + 1),
                      0xc452_2900 + bcd(tm.year - 100 - 100 * century), 0xc452_2900 + bcd(century),
                      0xc452_2900 + bcd(tm.wday)]
  {
    rtcData[0] := Keyed(bcd(tm.sec));
    rtcData[1] := Keyed(bcd(tm.min));
    rtcData[2] := Keyed(bcd(tm.hour));
    rtcData[3] := Keyed(bcd(tm.mday));
    rtcData[4] := Keyed(bcd(tm.mon + 1));
    var yearl, yearh: int;
    if tm.year > 199 {
      yearh := (tm.year - 100) / 100;
      yearl := tm.year - 100 - yearh * 100;
    } else {
      yearh := 0;
      yearl := tm.year - 100 - yearh * 100;
    }
    rtcData[5] := Keyed(bcd(yearl));
    rtcData[6] := Keyed(bcd(yearh));
    rtcData[7] := Keyed(bcd(tm.wday));
  }

  /** A valid calendar time, of any year the kernel calls valid. */
  predicate Valid(tm: Time) {
    && 0 <= tm.sec < 60 && 0 <= tm.min < 60 && 0 <= tm.hour < 24
    && 1 <= tm.mday <= 31 && 0 <= tm.mon < 12 && 0 <= tm.wday < 7
  }

  lemma Field(bcd: Bcd, v: int, m: int)
    requires IsBcd(bcd) && 0 <= v < 100
    requires m == 8 || m == 0x20 || m == 0x40 || m == 0x80 || m == 0x100
    requires (m == 8 ==> v < 8) && (m == 0x20 ==> v < 20) && (m == 0x40 ==> v < 40) && (m == 0x80 ==> v < 80)
    ensures Bcd2Bin(Keyed(bcd(v)) % m) == v
  {
    hide Bcd2Bin;
    TwoDigits(bcd, v);
    assert bcd(v) < m;
    KeyFallsAway(bcd(v), m);
  }

  lemma KeyFallsAway(b: Byte, m: int)
    requires m == 8 || m == 0x20 || m == 0x40 || m == 0x80 || m == 0x100
    requires b < m
    ensures Keyed(b) % m == b
  {
    if m == 8 {
      assert (b + RTC_WRITE_MASK) % 8 == b;
    } else if m == 0x20 {
      assert (b + RTC_WRITE_MASK) % 0x20 == b;
    } else if m == 0x40 {
      assert (b + RTC_WRITE_MASK) % 0x40 == b;
    } else if m == 0x80 {
      assert (b + RTC_WRITE_MASK) % 0x80 == b;
    } else {
      assert (b + RTC_WRITE_MASK) % 0x100 == b;
    }
  }

  /** What is set is what is read, for every valid time up to the year 11999 exactly
      when the year is 2000 or later (`tm_year` counts from 1900). */
  lemma TimeRoundTrip(bcd: Bcd, tm: Time)
    requires IsBcd(bcd) && Valid(tm) && tm.year <= 10099
    ensures TimeOf(TimeRegs(bcd, tm)) == tm <==> tm.year >= 100
  {
    hide Bcd2Bin, Keyed, IsBcd;
    var yearh := YearHigh(tm.year);
    if tm.year >= 100 {
      Field(bcd, tm.sec, 0x80);
      Field(bcd, tm.min, 0x80);
      Field(bcd, tm.hour, 0x40);
      Field(bcd, tm.mday, 0x40);
      Field(bcd, tm.mon + 1, 0x20);
      Field(bcd, tm.year - 100 - yearh * 100, 0x100);
      Field(bcd, yearh, 0x100);
      Field(bcd, tm.wday, 8);
    } else {
      assert TimeOf(TimeRegs(bcd, tm)).year >= 100;
    }
  }

  // ----- compensation

  const G_REF: U32 := 48_000_000
  const COMP_DIR_ADD := 0x80
  const NO_COMP := 1

  /** A 32-bit product. */
  function Mul32(a: U32, b: U32): U32 { (a * b) % WRAP }

  function RoundClosest(x: U32): int { (x + 16384) % WRAP / 32768 }

  function Deviation(counts: U32): U32 { if counts > G_REF then counts - G_REF else G_REF - counts }

  /** Ticks of error per hour, times 32768, as the driver's `tcamp`. */
  function Tcamp(counts: U32): U32 { 36 * Mul32(32768, Deviation(counts)) / 480_000 % WRAP }

  /** A compensation register: none, or a BCD amount and a direction bit. */
  datatype Comp = NoComp | Amount(n: int, add: bool)

  function CompReg(bcd: Bcd, c: Comp): int {
    match c
    case NoComp => NO_COMP
    case Amount(n, add) => bcd(n) + if add then COMP_DIR_ADD else 0
  }

  /** Drift in whole seconds per hour, day and thirty-day month. */
  datatype Drift = Drift(hour: int, day: int, mon: int)

  /** `n` is `x / 32768` rounded to the nearest integer. */
  predicate NearestTo(n: int, x: int) { -16384 <= x - 32768 * n <= 16384 }

  /** From the measured count to the three rounded drifts. */
  method MeasureDrift(counts: U32) returns (d: Drift)
    ensures Deviation(counts) <= 131071 ==>
              && NearestTo(d.hour, Tcamp(counts)) && NearestTo(d.day, 24 * Tcamp(counts))
              && NearestTo(d.mon, 720 * Tcamp(counts)) && SmallDrift(d)
  {
    hide Mul32, RoundClosest;
    var camp: int;
    if counts > G_REF {
      camp := 36 * Mul32(32768, counts - G_REF);
      camp := camp / (G_REF / 100);
    } else {
      camp := 36 * Mul32(32768, G_REF - counts);
      camp := camp / (G_REF / 100);
    }
    var tcamp: U32 := camp % WRAP;
    assert tcamp == Tcamp(counts);
    hide Tcamp;
    d := Drift(RoundClosest(tcamp), RoundClosest(Mul32(24, tcamp)), RoundClosest(Mul32(30 * 24, tcamp)));
    if Deviation(counts) <= 131071 {
      NoProductWraps(counts);
      RoundedBounds(tcamp, d);
    }
  }

  /** The body of `rockchip_rtc_compensation_delay_work` between reading the count and
      writing the three registers. Up to 131071 off nominal the drifts are the exact
      ones rounded to the nearest integer. The three registers between them carry the
      three drifts: the hourly one as it is, the daily one relative to 23 or 24 hourly
      ones, the monthly one relative to 29 daily and 23 hourly ones. */
  method Compensate(counts: U32) returns (drift: Drift, hour: Comp, day: Comp, mon: Comp)
    ensures
      var off := if counts > 48_000_000 then counts - 48_000_000 else 48_000_000 - counts;
      var exact := 36 * 32768 * off / 480_000;
      off <= 131071 ==>
        && -16384 <= exact - 32768 * drift.hour <= 16384
        && -16384 <= 24 * exact - 32768 * drift.day <= 16384
        && -16384 <= 720 * exact - 32768 * drift.mon <= 16384
        && (hour.Amount? ==> 1 <= hour.n <= 9)
        && (day.Amount? ==> 1 <= day.n <= 20)
        && (mon.Amount? ==> 0 <= mon.n <= 35)
    ensures hour.NoComp? ==> drift.hour <= 1
    ensures hour.Amount? ==> drift.hour == hour.n + 1 && hour.add == (counts <= 48_000_000)
    ensures day.NoComp? && drift.day > 23 * drift.hour ==> drift.day <= 23 * drift.hour + 1
    ensures day.NoComp? && drift.day <= 23 * drift.hour ==> 24 * drift.hour - drift.day <= 1
    ensures day.Amount? ==>
              && day.add == (drift.day > 23 * drift.hour)
              && drift.day == if day.add then 23 * drift.hour + day.n + 1 else 24 * drift.hour - day.n - 1
    ensures mon.NoComp? <==> drift.mon == 29 * drift.day + 23 * drift.hour
    ensures mon.Amount? ==>
              && mon.add == (drift.mon > 29 * drift.day + 23 * drift.hour)
              && drift.mon == 29 * drift.day + 23 * drift.hour + if mon.add then mon.n + 1 else -mon.n - 1
  {
    DeviationIs(counts);
    if Deviation(counts) <= 131071 {
      NoProductWraps(counts);
    }
    drift := MeasureDrift(counts);
    var cHour, cDay, cMon := drift.hour, drift.day, drift.mon;
    var trimDir := counts <= G_REF;
    if cHour > 1 {
      hour := Amount(cHour - 1, trimDir);
    } else {
      hour := NoComp;
    }
    var cDetDay: int;
    if cDay > cHour * 23 {
      cDetDay := cDay - cHour * 23;
      trimDir := true;
    } else {
      cDetDay := cHour * 24 - cDay;
      trimDir := false;
    }
    day := if cDetDay > 1 then Amount(cDetDay - 1, trimDir) else NoComp;
    var cDetMon: int;
    if cMon > 29 * cDay + 23 * cHour {
      cDetMon := cMon - 29 * cDay - 23 * cHour;
      trimDir := true;
    } else {
      cDetMon := 29 * cDay + 23 * cHour - cMon;
      trimDir := false;
    }
    mon := if cDetMon != 0 then Amount(cDetMon - 1, trimDir) else NoComp;
  }

  /** The first product is exact exactly up to a deviation of 131071; then so are the
      others, and the hourly error is below ten seconds. */
  lemma NoProductWraps(counts: U32)
    ensures Mul32(32768, Deviation(counts)) == 32768 * Deviation(counts) <==> Deviation(counts) <= 131071
    ensures Deviation(counts) <= 131071 ==>
              && Tcamp(counts) == 36 * 32768 * Deviation(counts) / 480_000 <= 322_120
              && Mul32(24, Tcamp(counts)) == 24 * Tcamp(counts)
              && Mul32(30 * 24, Tcamp(counts)) == 720 * Tcamp(counts)
  {
    var d := Deviation(counts);
    FirstProduct(d);
    hide Deviation;
    if d <= 131071 {
      var camp: int := CampOf(d);
      CampBound(d);
      Unwrapped(camp);
      assert Tcamp(counts) == camp;
      Unwrapped(24 * camp);
      Unwrapped(720 * camp);
    }
  }

  lemma DeviationIs(counts: U32)
    ensures Deviation(counts) == if counts > 48_000_000 then counts - 48_000_000 else 48_000_000 - counts
  {}

  function CampOf(d: int): int { 36 * 32768 * d / 480_000 }

  lemma FirstProduct(d: U32)
    ensures Mul32(32768, d) == 32768 * d <==> d <= 131071
  {}

  lemma CampBound(d: int)
    requires 0 <= d <= 131071
    ensures 0 <= CampOf(d) <= 322_120
  {}

  lemma Unwrapped(x: int)
    requires 0 <= x < WRAP
    ensures x % WRAP == x
  {}

  predicate SmallDrift(d: Drift) {
    && 0 <= d.hour <= 10
    && d.day - 23 * d.hour <= 21 && 24 * d.hour - d.day <= 12
    && d.mon - 29 * d.day - 23 * d.hour <= 36 && 29 * d.day + 23 * d.hour - d.mon <= 36
  }

  lemma RoundedBounds(x: U32, d: Drift)
    requires x <= 322_120 && d == Drift(RoundClosest(x), RoundClosest(24 * x), RoundClosest(720 * x))
    ensures NearestTo(d.hour, x) && NearestTo(d.day, 24 * x) && NearestTo(d.mon, 720 * x) && SmallDrift(d)
  {
    var hh, dd, mm := 32768 * d.hour, 32768 * d.day, 32768 * d.mon;
    assert hh <= x + 16384 < hh + 32768;
    assert dd <= 24 * x + 16384 < dd + 32768;
    assert mm <= 720 * x + 16384 < mm + 32768;
  }

  /** Amounts below 80 leave the direction bit free: the register says both. */
  lemma DirectionBitIsFree(bcd: Bcd, c: Comp)
    requires IsBcd(bcd) && c.Amount? && 0 <= c.n < 80
    ensures
      var r := CompReg(bcd, c);
      && 0 <= r < 0x100
      && (r >= 0x80 <==> c.add)
      && r % 0x80 == 16 * (c.n / 10) + c.n % 10
      && Bcd2Bin(r % 0x80) == c.n && CompReg(bcd, NoComp) == 1
  {
    assert bcd(c.n) == 16 * (c.n / 10) + c.n % 10;
    hide IsBcd, Bcd2Bin;
    TwoDigits(bcd, c.n);
    TopBitOff(bcd(c.n));
  }

  lemma TopBitOff(b: Byte)
    requires b < 0x80
    ensures b % 0x80 == b && (b + 0x80) % 0x80 == b
  {}
}
