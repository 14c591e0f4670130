/** When the self-destruct trigger fires (cd/program/ttl.go, cd/program/selfdestruct_azure.go). */
module Cron {
  import opened Strings
  import opened Decimal
  import opened Calendar

  /** Instants are nanoseconds since 0001-01-01T00:00:00Z, which is Go's zero time. */
  const MINUTE := 60_000_000_000
  const DAY := 1440 * MINUTE

  /** now.Add(ttl).Truncate(time.Minute).Add(time.Minute), in whole minutes. */
  function FireMinute(now: int, ttl: int): int {
    (now + ttl) / MINUTE + 1
  }

  /** Never early, and at most a minute late. */
  lemma FireWindow(now: int, ttl: int)
    ensures now + ttl < FireMinute(now, ttl) * MINUTE <= now + ttl + MINUTE
  {
  }

  datatype Fields = Fields(minute: int, hour: int, day: int, month: int, weekday: int)

  /** The date on which a minute falls. */
  predicate IsDayOf(t: int, d: Date) {
    IsDate(d) && DayNumber(d) == t / MINUTES_PER_DAY
  }

  /** Hour and minute are the time of day, month and day the date. */
  ghost predicate IsReading(f: Fields, t: int) {
    && 60 * f.hour + f.minute == t % MINUTES_PER_DAY && 0 <= f.minute < 60
    && exists y :: IsDayOf(t, Date(y, f.month, f.day))
  }

  /** The calendar reading of a minute; day 0 was a Monday, and cron counts from Sunday. */
  function FieldsOf(t: int): (f: Fields)
    ensures 0 <= f.minute < 60 && 0 <= f.hour < 24 && 0 < f.day && 0 < f.month
    ensures IsReading(f, t)
  {
    var d := DateOf(t / MINUTES_PER_DAY);
    assert IsDayOf(t, Date(d.year, d.month, d.day));
    FieldsIn(t / MINUTES_PER_DAY, t % MINUTES_PER_DAY)
  }

  function FieldsIn(day: int, inDay: int): Fields {
    var d := DateOf(day);
    Fields(inDay % 60, inDay / 60, d.day, d.month, (day + 1) % 7)
  }

  function SelfDestructCron(t: int): string {
    var f := FieldsOf(t);
    Expression(f.minute, f.hour, f.day, f.month)
  }

  function Expression(minute: nat, hour: nat, day: nat, month: nat): string {
    Itoa(minute) + " " + (Itoa(hour) + " " + (Itoa(day) + " " + (Itoa(month) + " " + "*")))
  }

  // ----- what a scheduler makes of the expression

  predicate FieldMatches(field: string, v: int) {
    field == "*" || (field != "" && AllDigits(field) && Value(field) == v)
  }

  predicate CronMatches(expr: string, t: int) {
    var parts, f := Split(expr, ' '), FieldsOf(t);
    && |parts| == 5
    && FieldMatches(parts[0], f.minute) && FieldMatches(parts[1], f.hour) && FieldMatches(parts[2], f.day)
    && FieldMatches(parts[3], f.month) && FieldMatches(parts[4], f.weekday)
  }

  predicate SameMinuteOfYear(s: int, t: int) {
    var f, g := FieldsOf(s), FieldsOf(t);
    f.minute == g.minute && f.hour == g.hour && f.day == g.day && f.month == g.month
  }

  lemma NumberField(n: nat, v: int)
    ensures FieldMatches(Itoa(n), v) <==> n == v
    ensures ' ' !in Itoa(n)
  {
    ValueOfItoa(n);
    assert !IsDigit('*') && !IsDigit(' ');
  }

  predicate AreNumbers(parts: seq<string>) {
    |parts| == 5 && parts[4] == "*" && forall i :: 0 <= i < 4 ==> parts[i] != "" && AllDigits(parts[i])
  }

  /** Minute, hour, day and month, in the order in which cron has them. */
  function NumbersIn(parts: seq<string>): Fields
    requires AreNumbers(parts)
  {
    Fields(Value(parts[0]), Value(parts[1]), Value(parts[2]), Value(parts[3]), 0)
  }

  /** What is printed are the numbers of the fire time's own clock and calendar. */
  lemma PrintedFields(t: int)
    ensures var parts := Split(SelfDestructCron(t), ' '); AreNumbers(parts) && IsReading(NumbersIn(parts), t)
  {
    var f := FieldsOf(t);
    PrintedParts(t);
    ValueOfItoa(f.minute);
    ValueOfItoa(f.hour);
    ValueOfItoa(f.day);
    ValueOfItoa(f.month);
    AnyWeekday(f, t);
  }

  lemma AnyWeekday(f: Fields, t: int)
    requires IsReading(f, t)
    ensures IsReading(f.(weekday := 0), t)
  {
    var y :| IsDayOf(t, Date(y, f.month, f.day));
  }

  lemma PrintedParts(t: int)
    ensures var f := FieldsOf(t);
      Split(SelfDestructCron(t), ' ') == [Itoa(f.minute), Itoa(f.hour), Itoa(f.day), Itoa(f.month), "*"]
  {
    var f := FieldsOf(t);
    NumberField(f.minute, 0);
    NumberField(f.hour, 0);
    NumberField(f.day, 0);
    NumberField(f.month, 0);
    FiveFields(Itoa(f.minute), Itoa(f.hour), Itoa(f.day), Itoa(f.month));
  }

  /** The time h:m on a date is printed as that. */
  lemma PrintedOn(day: int, d: Date, h: nat, m: nat)
    requires h < 24 && m < 60 && DateOf(day) == d && 0 < d.day && 0 < d.month
    ensures SelfDestructCron(day * MINUTES_PER_DAY + (60 * h + m))
         == Itoa(m) + " " + (Itoa(h) + " " + (Itoa(d.day) + " " + (Itoa(d.month) + " " + "*")))
  {
    FieldsFrom(day, h, m);
  }

  /** Half past two in the afternoon of a 17th of August. */
  lemma PrintedExample(day: int, d: Date, h: nat, m: nat)
    requires DateOf(day) == d && d.month == 8 && d.day == 17 && h == 14 && m == 30
    ensures SelfDestructCron(day * MINUTES_PER_DAY + (60 * h + m)) == "30 14 17 8 *"
  {
    PrintedOn(day, d, h, m);
    ExampleText(m, h, d.day, d.month);
  }

  lemma ExampleText(m: nat, h: nat, day: nat, month: nat)
    requires m == 30 && h == 14 && day == 17 && month == 8
    ensures Itoa(m) + " " + (Itoa(h) + " " + (Itoa(day) + " " + (Itoa(month) + " " + "*"))) == "30 14 17 8 *"
  {
    ExampleNumbers();
  }

  lemma FieldsFrom(day: int, h: nat, m: nat)
    requires h < 24 && m < 60
    ensures var f, d := FieldsOf(day * MINUTES_PER_DAY + (60 * h + m)), DateOf(day);
      f.minute == m && f.hour == h && f.day == d.day && f.month == d.month
  {
    var k := 60 * h + m;
    SplitOff(day, k);
    SplitHour(h, m);
    assert FieldsOf(day * MINUTES_PER_DAY + k) == FieldsIn(day, k);
  }

  lemma SplitHour(h: nat, m: nat)
    requires m < 60
    ensures (60 * h + m) % 60 == m && (60 * h + m) / 60 == h
  {
  }

  lemma SplitOff(day: int, k: nat)
    requires k < MINUTES_PER_DAY
    ensures (day * MINUTES_PER_DAY + k) / MINUTES_PER_DAY == day && (day * MINUTES_PER_DAY + k) % MINUTES_PER_DAY == k
  {
  }

  function MinuteAt(d: Date, h: nat, m: nat): int
    requires IsDate(d)
  {
    DayNumber(d) * MINUTES_PER_DAY + (60 * h + m)
  }

  lemma ExampleNumbers()
    ensures Itoa(30) == "30" && Itoa(14) == "14" && Itoa(17) == "17" && Itoa(8) == "8"
  {
  }

  /** The printed expression matches exactly the minutes with the same month, day, hour and minute. */
  lemma ExpressionMeaning(fire: int, t: int)
    ensures CronMatches(SelfDestructCron(fire), t) <==> SameMinuteOfYear(fire, t)
  {
    var f := FieldsOf(fire);
    var g := FieldsOf(t);
    NumberField(f.minute, g.minute);
    NumberField(f.hour, g.hour);
    NumberField(f.day, g.day);
    NumberField(f.month, g.month);
    var a, b, c, d := Itoa(f.minute), Itoa(f.hour), Itoa(f.day), Itoa(f.month);
    FiveFields(a, b, c, d);
  }

  lemma FiveFields(a: string, b: string, c: string, d: string)
    requires ' ' !in a && ' ' !in b && ' ' !in c && ' ' !in d
    ensures Split(a + " " + (b + " " + (c + " " + (d + " " + "*"))), ' ') == [a, b, c, d, "*"]
  {
    SplitWhole("*", ' ');
    SplitHead(d, ' ', "*");
    SplitHead(c, ' ', d + " " + "*");
    SplitHead(b, ' ', c + " " + (d + " " + "*"));
    SplitHead(a, ' ', b + " " + (c + " " + (d + " " + "*")));
  }

  // ----- the first match

  /** fire is the first minute after now at which its own expression matches. */
  ghost predicate FirstMatchAfter(now: int, fire: int) {
    && now < fire * MINUTE
    && CronMatches(SelfDestructCron(fire), fire)
    && forall t :: now < t * MINUTE && CronMatches(SelfDestructCron(fire), t) ==> fire <= t
  }

  /** The last earlier minute with the same month, day, hour and minute. */
  function PreviousMatch(fire: int): int {
    DayNumber(PreviousAnniversary(DateOf(fire / MINUTES_PER_DAY))) * MINUTES_PER_DAY + fire % MINUTES_PER_DAY
  }

  lemma PreviousMatchMatches(fire: int)
    ensures SameMinuteOfYear(fire, PreviousMatch(fire))
    ensures fire - PreviousMatch(fire) >= 365 * MINUTES_PER_DAY
  {
    var d := DateOf(fire / MINUTES_PER_DAY);
    var p := PreviousAnniversary(d);
    PreviousExists(d);
    AnniversaryGap(p, d);
    var t := PreviousMatch(fire);
    assert t / MINUTES_PER_DAY == DayNumber(p) && t % MINUTES_PER_DAY == fire % MINUTES_PER_DAY;
    DateUnique(DateOf(DayNumber(p)), p);
  }

  lemma SameMinuteOfDay(s: int, t: int)
    requires SameMinuteOfYear(s, t)
    ensures s % MINUTES_PER_DAY == t % MINUTES_PER_DAY
  {
    var a, b := s % MINUTES_PER_DAY, t % MINUTES_PER_DAY;
    assert a == 60 * (a / 60) + a % 60 && b == 60 * (b / 60) + b % 60;
  }

  lemma NothingBetween(fire: int, t: int)
    requires SameMinuteOfYear(fire, t) && t < fire
    ensures t <= PreviousMatch(fire)
  {
    SameMinuteOfDay(fire, t);
    var d, e := DateOf(fire / MINUTES_PER_DAY), DateOf(t / MINUTES_PER_DAY);
    assert t / MINUTES_PER_DAY < fire / MINUTES_PER_DAY;
    if e.year >= d.year {
      AnniversariesInOrder(d, e);
    } else {
      PreviousIsLatest(d, e);
      AnniversariesInOrder(e, PreviousAnniversary(d));
    }
  }

  /** The trigger first fires at its own minute iff that minute did not also come round since now. */
  lemma FirstMatchIff(now: int, fire: int)
    requires now < fire * MINUTE
    ensures FirstMatchAfter(now, fire) <==> PreviousMatch(fire) * MINUTE <= now
  {
    ExpressionMeaning(fire, fire);
    PreviousMatchMatches(fire);
    ExpressionMeaning(fire, PreviousMatch(fire));
    if PreviousMatch(fire) * MINUTE <= now {
      forall t | now < t * MINUTE && CronMatches(SelfDestructCron(fire), t) ensures fire <= t {
        ExpressionMeaning(fire, t);
        if t < fire {
          NothingBetween(fire, t);
        }
      }
    }
  }

  /** For every deploy time and every ttl up to 364 days the trigger first fires just after now + ttl. */
  lemma FiresOnceItIsDue(now: int, ttl: int)
    requires 0 < ttl <= 364 * DAY
    ensures FirstMatchAfter(now, FireMinute(now, ttl))
    ensures now + ttl < FireMinute(now, ttl) * MINUTE <= now + ttl + MINUTE
  {
    var fire := FireMinute(now, ttl);
    FireWindow(now, ttl);
    PreviousMatchMatches(fire);
    FirstMatchIff(now, fire);
  }

  /** From 366 days on it fires too early, unless it is due on a 29th of February. */
  lemma FiresTooEarly(now: int, ttl: int)
    requires ttl >= 366 * DAY
    requires var d := DateOf(FireMinute(now, ttl) / MINUTES_PER_DAY); d.month != 2 || d.day != 29
    ensures !FirstMatchAfter(now, FireMinute(now, ttl))
  {
    var fire := FireMinute(now, ttl);
    FireWindow(now, ttl);
    FirstMatchIff(now, fire);
    LastYear(fire);
  }

  lemma LastYear(fire: int)
    requires var d := DateOf(fire / MINUTES_PER_DAY); d.month != 2 || d.day != 29
    ensures fire - PreviousMatch(fire) <= 366 * MINUTES_PER_DAY
  {
    LastYearGap(DateOf(fire / MINUTES_PER_DAY));
  }
}
