// DateStamps: the host clock split into days, minutes and ticks, and their comparison.

module DateStamp {
  import opened Guest
  import opened GuestMemory

  const TICKS_PER_SECOND := 50
  const UNIX_TO_AMIGA_EPOCH_DAYS := 2922
  const NANOS_PER_TICK := 20_000_000
  const SECONDS_PER_DAY := 86_400
  const TICKS_PER_MINUTE := 3_000
  const TICKS_PER_DAY := 4_320_000

  /** The low 32 bits as a signed number. */
  function Wrap32(v: int): (r: i32)
    ensures (v - r) % 0x1_0000_0000 == 0
  {
    (v + 0x8000_0000) % 0x1_0000_0000 - 0x8000_0000
  }

  datatype Stamp = Stamp(days: i32, minute: i32, tick: i32)

  /** Time since the Unix epoch. */
  datatype Clock = Clock(secs: nat, nanos: nat)

  ghost predicate ProperClock(c: Clock) { c.secs < 0x8000_0000_0000_0000 && c.nanos < 1_000_000_000 }

  /** The current time as a DateStamp; zero before 1978. */
  function Now(c: Clock): Stamp
    requires ProperClock(c)
  {
    var amigaSecs := c.secs - UNIX_TO_AMIGA_EPOCH_DAYS * SECONDS_PER_DAY;
    if amigaSecs < 0 then Stamp(0, 0, 0)
    else
      var secsOfDay := amigaSecs % SECONDS_PER_DAY;
      Stamp(Wrap32(amigaSecs / SECONDS_PER_DAY), secsOfDay / 60,
            secsOfDay % 60 * TICKS_PER_SECOND + c.nanos / NANOS_PER_TICK)
  }

  function Order(a: int, b: int): int { if a < b then -1 else if a > b then 1 else 0 }

  /** Negative, zero or positive: earlier, equal or later, field by field; ticks subtract. */
  function Compare(a: Stamp, b: Stamp): i32 {
    if a.days != b.days then Order(a.days, b.days)
    else if a.minute != b.minute then Order(a.minute, b.minute)
    else Wrap32(a.tick - b.tick)
  }

  function Ticks(s: Stamp): int {
    s.days * TICKS_PER_DAY + s.minute * TICKS_PER_MINUTE + s.tick
  }

  predicate Normal(s: Stamp) {
    0 <= s.minute < 1440 && 0 <= s.tick < TICKS_PER_MINUTE
  }

  // --- The clock ---

  /** Whole fiftieths of a second since the start of 1978. */
  function Elapsed(c: Clock): int {
    ((c.secs - UNIX_TO_AMIGA_EPOCH_DAYS * SECONDS_PER_DAY) * 1_000_000_000 + c.nanos) / NANOS_PER_TICK
  }

  predicate Since1978(c: Clock) { c.secs >= UNIX_TO_AMIGA_EPOCH_DAYS * SECONDS_PER_DAY }

  lemma ElapsedSplits(c: Clock)
    ensures Elapsed(c) == (c.secs - UNIX_TO_AMIGA_EPOCH_DAYS * SECONDS_PER_DAY) * TICKS_PER_SECOND
            + c.nanos / NANOS_PER_TICK
  {
    var s := c.secs - UNIX_TO_AMIGA_EPOCH_DAYS * SECONDS_PER_DAY;
    assert s * 1_000_000_000 == s * TICKS_PER_SECOND * NANOS_PER_TICK;
  }

  /** The split is always normal; from 1978 on it stands for exactly the elapsed ticks, as
      long as (and only as long as) the days fit their field. */
  lemma ClockSplit(c: Clock)
    requires ProperClock(c)
    ensures Normal(Now(c))
    ensures Since1978(c) ==>
              (Ticks(Now(c)) == Elapsed(c) <==> c.secs / SECONDS_PER_DAY - UNIX_TO_AMIGA_EPOCH_DAYS < 0x8000_0000)
  {
    ElapsedSplits(c);
    var s := c.secs - UNIX_TO_AMIGA_EPOCH_DAYS * SECONDS_PER_DAY;
    if s >= 0 {
      var day, rest := s / SECONDS_PER_DAY, s % SECONDS_PER_DAY;
      assert rest == rest / 60 * 60 + rest % 60;
      assert c.secs == (day + UNIX_TO_AMIGA_EPOCH_DAYS) * SECONDS_PER_DAY + rest;
      DayOf(day + UNIX_TO_AMIGA_EPOCH_DAYS, rest);
    }
  }

  lemma DayOf(day: int, rest: int)
    requires 0 <= rest < SECONDS_PER_DAY
    ensures (day * SECONDS_PER_DAY + rest) / SECONDS_PER_DAY == day
  {
  }

  predicate DaysFit(c: Clock) {
    c.secs / SECONDS_PER_DAY - UNIX_TO_AMIGA_EPOCH_DAYS < 0x8000_0000
  }

  // --- The calendar ---

  predicate Leap(year: nat) { year % 4 == 0 && (year % 100 != 0 || year % 400 == 0) }

  /** The days from the start of one year to the start of another. */
  function DaysFrom(year: nat, until: nat): (days: nat)
    requires year <= until
    decreases until - year
  {
    if year == until then 0 else (if Leap(year) then 366 else 365) + DaysFrom(year + 1, until)
  }

  lemma {:induction false} DaysAdd(a: nat, b: nat, c: nat)
    requires a <= b <= c
    ensures DaysFrom(a, c) == DaysFrom(a, b) + DaysFrom(b, c)
    decreases b - a
  {
    if a < b { DaysAdd(a + 1, b, c); }
  }

  lemma {:induction false} EightYears()
    ensures DaysFrom(1970, 1978) == UNIX_TO_AMIGA_EPOCH_DAYS
  {
    assert DaysFrom(1976, 1978) == 366 + 365;
    assert DaysFrom(1973, 1976) == 3 * 365;
    assert DaysFrom(1970, 1973) == 365 + 365 + 366;
    DaysAdd(1970, 1973, 1978);
    DaysAdd(1973, 1976, 1978);
  }

  /** At the first moment of a year, counted in days of the calendar from 1970, the stamp
      has the days from 1978 to that year and nothing else. */
  lemma {:induction false} NewYear(year: nat)
    requires 1978 <= year && DaysFrom(1978, year) < 0x8000_0000
    ensures ProperClock(Clock(DaysFrom(1970, year) * 86_400, 0))
    ensures Now(Clock(DaysFrom(1970, year) * 86_400, 0)) == Stamp(DaysFrom(1978, year), 0, 0)
  {
    EightYears();
    DaysAdd(1970, 1978, year);
    var days := DaysFrom(1978, year);
    DayOf(days, 0);
    assert DaysFrom(1970, year) * 86_400 - UNIX_TO_AMIGA_EPOCH_DAYS * SECONDS_PER_DAY == days * SECONDS_PER_DAY + 0;
  }

  /** Before 1978 there is no earlier stamp than the first. */
  lemma {:induction false} BeforeEpoch(c: Clock)
    requires ProperClock(c) && c.secs < DaysFrom(1970, 1978) * 86_400
    ensures Now(c) == Stamp(0, 0, 0)
  {
    EightYears();
  }

  // --- The comparison ---

  /** On normal stamps the comparison is the order of the tick counts. */
  lemma ComparesTicks(a: Stamp, b: Stamp)
    requires Normal(a) && Normal(b)
    ensures Order(Compare(a, b), 0) == Order(Ticks(a), Ticks(b))
  {
  }

  function Normalised(ticks: int): (s: Stamp)
    requires -0x8000_0000 <= ticks / TICKS_PER_DAY < 0x8000_0000
    ensures Normal(s) && Ticks(s) == ticks
  {
    var rest := ticks % TICKS_PER_DAY;
    Stamp(ticks / TICKS_PER_DAY, rest / TICKS_PER_MINUTE, rest % TICKS_PER_MINUTE)
  }

  ghost predicate ComparesRightly(a: Stamp) {
    forall b: Stamp | Normal(b) :: Order(Compare(a, b), 0) == Order(Ticks(a), Ticks(b))
  }

  /** A stamp whose tick count is in range compares rightly with every normal stamp exactly
      when it is normal itself. */
  lemma OnlyNormalCompares(a: Stamp)
    requires -0x8000_0000 <= Ticks(a) / TICKS_PER_DAY < 0x8000_0000
    ensures ComparesRightly(a) <==> Normal(a)
  {
    if Normal(a) {
      forall b: Stamp | Normal(b) ensures Order(Compare(a, b), 0) == Order(Ticks(a), Ticks(b)) {
        ComparesTicks(a, b);
      }
    } else {
      var b := Normalised(Ticks(a));
      DifferentFields(a, b);
    }
  }

  lemma DifferentFields(a: Stamp, b: Stamp)
    requires a != b
    ensures Compare(a, b) != 0
  {
  }

  /** A later clock never gives an earlier stamp, and gives a later one exactly when it
      is in a later tick. */
  lemma ClockOrdersStamps(c: Clock, d: Clock)
    requires ProperClock(c) && ProperClock(d) && Since1978(c) && DaysFit(c) && DaysFit(d)
    requires c.secs < d.secs || (c.secs == d.secs && c.nanos <= d.nanos)
    ensures Compare(Now(c), Now(d)) <= 0
    ensures Compare(Now(c), Now(d)) < 0 <==> Elapsed(c) < Elapsed(d)
  {
    hide Now, Elapsed, Ticks, Compare, Normal;
    ClockSplit(c);
    ClockSplit(d);
    ComparesTicks(Now(c), Now(d));
    ElapsedGrows(c, d);
  }

  lemma ElapsedGrows(c: Clock, d: Clock)
    requires ProperClock(c) && ProperClock(d)
    requires c.secs < d.secs || (c.secs == d.secs && c.nanos <= d.nanos)
    ensures Elapsed(c) <= Elapsed(d)
  {
    ElapsedSplits(c);
    ElapsedSplits(d);
  }

  // --- In guest memory ---

  function ReadStamp(mem: Mem, at: nat): Stamp {
    Stamp(Wrap32(Read32(mem, at)), Wrap32(Read32(mem, at + 4)), Wrap32(Read32(mem, at + 8)))
  }

  lemma Mod32Back(v: i32)
    ensures Wrap32(Mod32(v)) == v
  {
  }

  /** DateStamp: writes the stamp; reading it back gives it, and no other byte changes. */
  method WriteNow(memory: Memory, at: nat, c: Clock) returns (result: nat)
    requires ProperClock(c)
    modifies memory`mem
    ensures result == at && ReadStamp(memory.mem, at) == Now(c) && OnlyChanges(old(memory.mem), memory.mem, at, at + 12)
  {
    hide Now, Read32, Write32, Wrap32, Mod32;
    var now := Now(c);
    ghost var m0 := memory.mem;
    memory.Write(at, Mod32(now.days));
    ghost var m1 := memory.mem;
    memory.Write(at + 4, Mod32(now.minute));
    ghost var m2 := memory.mem;
    memory.Write(at + 8, Mod32(now.tick));
    Write32Reads(m0, at, Mod32(now.days));
    Write32Reads(m1, at + 4, Mod32(now.minute));
    Write32Reads(m2, at + 8, Mod32(now.tick));
    SameRead32(m1, m2, at);
    SameRead32(m2, memory.mem, at);
    SameRead32(m2, memory.mem, at + 4);
    Mod32Back(now.days);
    Mod32Back(now.minute);
    Mod32Back(now.tick);
    result := at;
  }

  /** CompareDates, on two stamps in guest memory. */
  method CompareDates(memory: Memory, a: nat, b: nat) returns (diff: i32)
    ensures diff == Compare(ReadStamp(memory.mem, a), ReadStamp(memory.mem, b))
    ensures Normal(ReadStamp(memory.mem, a)) && Normal(ReadStamp(memory.mem, b)) ==>
              Order(diff, 0) == Order(Ticks(ReadStamp(memory.mem, a)), Ticks(ReadStamp(memory.mem, b)))
  {
    hide Ticks, Read32, Normal;
    var x, y := ReadStamp(memory.mem, a), ReadStamp(memory.mem, b);
    if Normal(x) && Normal(y) { ComparesTicks(x, y); }
    if x.days == y.days {
      if x.minute == y.minute {
        diff := Wrap32(x.tick - y.tick);
      } else {
        diff := Order(x.minute, y.minute);
      }
    } else {
      diff := Order(x.days, y.days);
    }
  }
}
