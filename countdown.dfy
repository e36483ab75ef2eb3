/** The countdown to a package's expiry: a millisecond difference split into
    days, hours, minutes and seconds, or "Expired". */
module Countdown {
  import opened Text

  const MsPerSecond: int := 1000
  const MsPerMinute: int := 60 * MsPerSecond
  const MsPerHour: int := 60 * MsPerMinute
  const MsPerDay: int := 24 * MsPerHour

  const ExpiredText: string := "Expired"
  const RemainingLabel: string := " remaining"

  datatype Parts = Parts(days: int, hours: int, minutes: int, seconds: int)

  /** Whole days, and the hours, minutes and seconds left over, of a positive
      millisecond difference. */
  function Decompose(diff: int): (p: Parts)
    requires diff > 0
    ensures 0 <= p.days
    ensures 0 <= p.hours < 24 && 0 <= p.minutes < 60 && 0 <= p.seconds < 60
  {
    Parts(diff / MsPerDay, (diff / MsPerHour) % 24, (diff / MsPerMinute) % 60, (diff / MsPerSecond) % 60)
  }

  /** The components recombine to the whole seconds of the difference. */
  lemma {:induction false} DecomposeRecombines(diff: int)
    requires diff > 0
    ensures var p := Decompose(diff);
      p.days * 86400 + p.hours * 3600 + p.minutes * 60 + p.seconds == diff / MsPerSecond
  {
    var t := diff / MsPerSecond;
    assert diff / MsPerMinute == t / 60;
    assert diff / MsPerHour == t / 3600;
    assert diff / MsPerDay == t / 86400;
    var m, h, d := t / 60, t / 3600, t / 86400;
    assert h == m / 60;
    assert d == h / 24;
    assert t == 60 * m + t % 60;
    assert m == 60 * h + m % 60;
    assert h == 24 * d + h % 24;
  }

  /** "{d}d {h}h {m}m {s}s", followed by " remaining" when the label is wanted
      (the server adds it, the page's own once-a-second recompute does not). */
  function Format(p: Parts, withLabel: bool): (s: string)
    requires 0 <= p.days && 0 <= p.hours && 0 <= p.minutes && 0 <= p.seconds
    ensures |s| > 0 && IsDigit(s[0])
    ensures withLabel ==> |s| >= |RemainingLabel| && s[|s| - |RemainingLabel|..] == RemainingLabel
    ensures !withLabel ==> s[|s| - 1] == 's'
  {
    var core := NatToString(p.days) + "d " + NatToString(p.hours) + "h "
                + NatToString(p.minutes) + "m " + NatToString(p.seconds) + "s";
    assert core[0] == NatToString(p.days)[0];
    if withLabel then core + RemainingLabel else core
  }

  /** The countdown from `now` to `expiresAt`, both in milliseconds. */
  function CountdownString(expiresAt: int, now: int, withLabel: bool): (s: string)
    ensures s == ExpiredText <==> expiresAt - now <= 0
    ensures expiresAt - now > 0 && withLabel ==>
      |s| >= |RemainingLabel| && s[|s| - |RemainingLabel|..] == RemainingLabel
  {
    var diff := expiresAt - now;
    if diff <= 0 then ExpiredText
    else
      var s := Format(Decompose(diff), withLabel);
      assert s[0] != ExpiredText[0];
      s
  }

  /** The server's text is the page's text followed by " remaining". */
  lemma LabelIsOnlySuffix(expiresAt: int, now: int)
    requires expiresAt - now > 0
    ensures CountdownString(expiresAt, now, true) == CountdownString(expiresAt, now, false) + RemainingLabel
  {
  }

  lemma DaysExample()
    ensures NatToString(27394) == "27394"
  {
    assert NatToString(2) == "2";
    assert NatToString(27) == "27";
    assert NatToString(273) == "273";
    assert NatToString(2739) == "2739";
  }

  /** 2366841600000 ms is exactly 27394 days. */
  lemma CountdownExample()
    ensures CountdownString(4070908800000, 1704067200000, true) == "27394d 0h 0m 0s remaining"
    ensures CountdownString(1704067200000, 1704067200000, true) == ExpiredText
  {
    assert Decompose(2366841600000) == Parts(27394, 0, 0, 0);
    FormatExample();
  }

  lemma FormatExample()
    ensures Format(Parts(27394, 0, 0, 0), true) == "27394d 0h 0m 0s remaining"
  {
    DaysExample();
    assert NatToString(0) == "0";
    var core := NatToString(27394) + "d " + NatToString(0) + "h " + NatToString(0) + "m " + NatToString(0) + "s";
    assert core == "27394d 0h 0m 0s";
    assert core + RemainingLabel == "27394d 0h 0m 0s remaining";
  }

  // The source computes the components with floating-point division,
  // `Math.floor` and the truncating remainder `%`. Over exact reals this is
  // the integer decomposition above.

  /** ECMAScript's `%` on non-negative operands (remainder of a truncating division). */
  function JsRemainder(x: real, y: real): real
    requires x >= 0.0 && y > 0.0
  {
    x - y * ((x / y).Floor as real)
  }

  /** The components exactly as the source writes them, on exact reals. */
  function JsParts(diff: int): Parts
    requires diff > 0
  {
    var d := diff as real;
    Parts((d / MsPerDay as real).Floor,
          JsRemainder(d / MsPerHour as real, 24 as real).Floor,
          JsRemainder(d / MsPerMinute as real, 60 as real).Floor,
          JsRemainder(d / MsPerSecond as real, 60 as real).Floor)
  }

  lemma FloorIs(z: real, k: int)
    requires k as real <= z < k as real + 1.0
    ensures z.Floor == k
  {
  }

  /** Floor of an exact quotient by a whole number of milliseconds. */
  lemma FloorOfQuotient(diff: int, unit: int)
    requires diff > 0 && unit in {MsPerSecond, MsPerMinute, MsPerHour, MsPerDay}
    ensures (diff as real / unit as real).Floor == diff / unit
  {
    var q := diff / unit;
    assert q as real <= diff as real / unit as real < q as real + 1.0;
    FloorIs(diff as real / unit as real, q);
  }

  lemma FloorOfRemainderOf(x: real, m: int, q: int)
    requires x >= 0.0 && m > 0 && (x / m as real).Floor == q
    ensures JsRemainder(x, m as real).Floor == x.Floor - m * q
  {
    var rem := JsRemainder(x, m as real);
    assert rem == x - (m * q) as real;
    FloorIs(rem, x.Floor - m * q);
  }

  /** Floor of the truncating remainder of diff/unit by m is floor(diff/unit) mod m. */
  lemma FloorOfRemainder(diff: int, unit: int, m: int)
    requires diff > 0
    requires (unit, m) in {(MsPerSecond, 60), (MsPerMinute, 60), (MsPerHour, 24)}
    ensures JsRemainder(diff as real / unit as real, m as real).Floor == (diff / unit) % m
  {
    var x := diff as real / unit as real;
    assert x / m as real == diff as real / (unit * m) as real;
    FloorOfQuotient(diff, unit * m);
    FloorOfQuotient(diff, unit);
    assert diff / (unit * m) == diff / unit / m;
    FloorOfRemainderOf(x, m, diff / unit / m);
  }

  /** The integer decomposition is what the source's floating-point formula
      denotes over exact reals. */
  lemma JsPartsAgree(diff: int)
    requires diff > 0
    ensures JsParts(diff) == Decompose(diff)
  {
    var js, p := JsParts(diff), Decompose(diff);
    assert js.days == p.days by { FloorOfQuotient(diff, MsPerDay); }
    assert js.hours == p.hours by { FloorOfRemainder(diff, MsPerHour, 24); }
    assert js.minutes == p.minutes by { FloorOfRemainder(diff, MsPerMinute, 60); }
    assert js.seconds == p.seconds by { FloorOfRemainder(diff, MsPerSecond, 60); }
  }
}
