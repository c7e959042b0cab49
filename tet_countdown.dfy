/**
 * The Tet countdown banner: once a second it compares the clock with Tet (local
 * midnight starting the lunar new year) and with fifteen days after it, and shows the
 * time left, a greeting, or nothing.
 */
module TetCountdown {
  import opened Decimal

  const SecondMs: nat := 1000
  const MinuteMs: nat := 60 * SecondMs
  const HourMs: nat := 60 * MinuteMs
  const DayMs: nat := 24 * HourMs

  /** `endDate.setDate(endDate.getDate() + 15)`: fifteen days after Tet. */
  function EndOf(tet: int): int {
    tet + 15 * DayMs
  }

  datatype TimeLeft = TimeLeft(days: nat, hours: nat, minutes: nat, seconds: nat)

  /** The days, hours, minutes and seconds the banner shows for `distance` ms to go. */
  function Decompose(distance: nat): (t: TimeLeft)
    ensures t.hours < 24 && t.minutes < 60 && t.seconds < 60
  {
    TimeLeft(distance / DayMs, (distance % DayMs) / HourMs,
             (distance % HourMs) / MinuteMs, (distance % MinuteMs) / SecondMs)
  }

  /** The milliseconds a time left stands for. */
  function Milliseconds(t: TimeLeft): nat {
    t.days * DayMs + t.hours * HourMs + t.minutes * MinuteMs + t.seconds * SecondMs
  }

  lemma MulAtLeast(a: nat, b: nat, m: nat)
    requires a >= b
    ensures a * m >= b * m
  {
    assert a * m == (a - b) * m + b * m;
  }
  /** `d = q * m + r` with `0 <= r < m` fixes the quotient and the remainder. */
  lemma DivModUnique(d: nat, m: nat, q: nat, r: nat)
    requires m > 0 && d == q * m + r && r < m
    ensures d / m == q && d % m == r
  {
    var q', r' := d / m, d % m;
    assert d == q' * m + r';
    if q' > q {
      assert q' * m == (q' - q) * m + q * m;
      MulAtLeast(q' - q, 1, m);
      assert false;
    } else if q' < q {
      assert q * m == (q - q') * m + q' * m;
      MulAtLeast(q - q', 1, m);
      assert false;
    }
  }
  lemma MulRegroup(q: nat, k: nat, m: nat, s: nat)
    ensures q * (k * m) + s * m == (q * k + s) * m
  {
    assert q * (k * m) == (q * k) * m;
  }

  /** `(d % (k * m)) % m == d % m` for a modulus `k * m`. */
  lemma NestedRemainder(d: nat, m: nat, k: nat)
    requires m > 0 && k > 0
    ensures (d % (k * m)) % m == d % m
  {
    var km := k * m;
    MulAtLeast(k, 1, m);
    var q, r := d / km, d % km;
    var s, t := r / m, r % m;
    assert d == q * km + r;
    assert r == s * m + t;
    MulRegroup(q, k, m, s);
    assert d == (q * k + s) * m + t;
    DivModUnique(d, m, q * k + s, t);
  }

  /** The time shown is the distance rounded down to the second. */
  lemma DecomposeSandwich(distance: nat)
    ensures Milliseconds(Decompose(distance)) <= distance < Milliseconds(Decompose(distance)) + SecondMs
    ensures distance - Milliseconds(Decompose(distance)) == distance % SecondMs
  {
    var t := Decompose(distance);
    NestedRemainder(distance, HourMs, 24);
    NestedRemainder(distance, MinuteMs, 60);
    NestedRemainder(distance, SecondMs, 60);
    var r1 := distance % DayMs;
    var r2 := distance % HourMs;
    var r3 := distance % MinuteMs;
    assert distance == t.days * DayMs + r1;
    assert r1 == t.hours * HourMs + r2;
    assert r2 == t.minutes * MinuteMs + r3;
    assert r3 == t.seconds * SecondMs + distance % SecondMs;
  }

  /** A time left within its bounds, plus less than a second, is decomposed back into itself. */
  lemma DecomposeMilliseconds(t: TimeLeft, ms: nat)
    requires t.hours < 24 && t.minutes < 60 && t.seconds < 60 && ms < SecondMs
    ensures Decompose(Milliseconds(t) + ms) == t
  {
    var d := Milliseconds(t) + ms;
    var r3 := t.seconds * SecondMs + ms;
    var r2 := t.minutes * MinuteMs + r3;
    var r1 := t.hours * HourMs + r2;
    DivModUnique(d, DayMs, t.days, r1);
    DivModUnique(d, HourMs, t.days * 24 + t.hours, r2);
    DivModUnique(d, MinuteMs, (t.days * 24 + t.hours) * 60 + t.minutes, r3);
    DivModUnique(r1, HourMs, t.hours, r2);
    DivModUnique(r2, MinuteMs, t.minutes, r3);
    DivModUnique(r3, SecondMs, t.seconds, ms);
  }

  /** `formatNumber`: numbers below ten get a leading zero. */
  function FormatNumber(n: nat): (r: string)
    ensures |r| >= 2 || n >= 10
    ensures AllDigits(r)
  {
    if n < 10 then "0" + Format(n) else Format(n)
  }

  /**
   * The padded rendering reads back as the number and is never shorter than two
   * digits; it starts with a zero exactly when it was padded, which happens exactly
   * below ten, and the number is otherwise rendered as it is.
   */
  lemma FormatNumberRoundTrip(n: nat)
    ensures Parse(FormatNumber(n)) == n
    ensures |FormatNumber(n)| >= 2
    ensures FormatNumber(n)[0] == '0' <==> n < 10
    ensures n < 10 ==> |FormatNumber(n)| == 2
    ensures n >= 10 ==> FormatNumber(n) == Format(n)
  {
    ParseFormat(n);
    if n >= 10 {
      FormatLeadingDigit(n);
    }
    if n < 10 {
      var r := FormatNumber(n);
      assert r == ['0', DigitChar(n)];
      assert KeepDigits(r) == r;
      assert r[..1] == ['0'];
      assert Value(r) == 10 * Value(['0']) + n;
      assert Value(['0']) == 10 * Value([]) + 0 by { assert ['0'][..0] == []; }
    } else {
      assert Format(n) == Format(n / 10) + [DigitChar(n % 10)];
    }
  }

  /** What one tick decides, in its order of precedence. */
  datatype Phase = Hide | Expired | Counting(left: TimeLeft)

  function PhaseAt(tet: int, now: int): Phase {
    if EndOf(tet) - now < 0 then Hide
    else if tet - now < 0 then Expired
    else Counting(Decompose(tet - now))
  }

  /**
   * The banner is hidden from fifteen days after Tet on, shows the greeting from Tet
   * until then, and before Tet counts down the time left to within a second.
   */
  lemma PhaseSchedule(tet: int, now: int)
    ensures PhaseAt(tet, now).Hide? <==> now > tet + 15 * DayMs
    ensures PhaseAt(tet, now).Expired? <==> tet < now <= tet + 15 * DayMs
    ensures PhaseAt(tet, now).Counting? <==> now <= tet
    ensures PhaseAt(tet, now).Counting? ==>
              Milliseconds(PhaseAt(tet, now).left) <= tet - now < Milliseconds(PhaseAt(tet, now).left) + SecondMs
  {
    if now <= tet {
      DecomposeSandwich(tet - now);
    }
  }

  /** What the component renders. */
  datatype View = Nothing | Greeting | Clock(days: string, hours: string, minutes: string, seconds: string)

  /** The component's state and its one-second interval. */
  class Countdown {
    const tet: int
    var timeLeft: TimeLeft
    var isExpired: bool
    var shouldHide: bool
    /** The interval is still set. */
    var running: bool

    constructor (tet: int)
      ensures this.tet == tet && timeLeft == TimeLeft(0, 0, 0, 0)
      ensures !isExpired && !shouldHide && running
    {
      this.tet := tet;
      timeLeft := TimeLeft(0, 0, 0, 0);
      isExpired, shouldHide, running := false, false, true;
    }

    /** One interval callback at clock reading `now`; nothing happens once the interval is cleared. */
    method Tick(now: int)
      modifies this
      ensures !old(running) ==> timeLeft == old(timeLeft) && isExpired == old(isExpired)
                                && shouldHide == old(shouldHide) && !running
      ensures old(running) ==> match PhaseAt(tet, now)
        case Hide => shouldHide && !running && timeLeft == old(timeLeft) && isExpired == old(isExpired)
        case Expired => isExpired && running && timeLeft == old(timeLeft) && shouldHide == old(shouldHide)
        case Counting(left) => timeLeft == left && running && isExpired == old(isExpired) && shouldHide == old(shouldHide)
      ensures old(shouldHide) ==> shouldHide
      ensures old(isExpired) ==> isExpired
    {
      if !running {
        return;
      }
      var distanceFromEnd := EndOf(tet) - now;
      if distanceFromEnd < 0 {
        running := false;
        shouldHide := true;
        return;
      }
      var distance := tet - now;
      if distance < 0 {
        isExpired := true;
        return;
      }
      timeLeft := Decompose(distance);
    }

    /** The render: nothing when hidden, else the greeting once expired, else the padded clock. */
    function Render(): (v: View)
      reads this
      ensures shouldHide <==> v == Nothing
      ensures v == Greeting <==> !shouldHide && isExpired
      ensures !shouldHide && !isExpired ==>
                v == Clock(FormatNumber(timeLeft.days), FormatNumber(timeLeft.hours),
                           FormatNumber(timeLeft.minutes), FormatNumber(timeLeft.seconds))
    {
      if shouldHide then Nothing
      else if isExpired then Greeting
      else Clock(FormatNumber(timeLeft.days), FormatNumber(timeLeft.hours),
                 FormatNumber(timeLeft.minutes), FormatNumber(timeLeft.seconds))
    }
  }

  /** The clock a counting countdown shows reads back as its time left, each field at least two digits. */
  lemma ClockShowsTimeLeft(c: Countdown)
    requires !c.shouldHide && !c.isExpired
    ensures var v := c.Render();
      && v.Clock?
      && Parse(v.days) == c.timeLeft.days && Parse(v.hours) == c.timeLeft.hours
      && Parse(v.minutes) == c.timeLeft.minutes && Parse(v.seconds) == c.timeLeft.seconds
      && |v.days| >= 2 && |v.hours| >= 2 && |v.minutes| >= 2 && |v.seconds| >= 2
  {
    FormatNumberRoundTrip(c.timeLeft.days);
    FormatNumberRoundTrip(c.timeLeft.hours);
    FormatNumberRoundTrip(c.timeLeft.minutes);
    FormatNumberRoundTrip(c.timeLeft.seconds);
  }
}
