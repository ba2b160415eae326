/** The player page's play-time clock (`formatTime` in src/pages/PlayerPage.jsx),
    and a reader that shows the clock loses nothing. */
module PlayTime {
  import opened Wrappers
  import opened Text

  /** `String(n).padStart(2, '0')`: at least two characters, exactly two below 100. */
  function Field(n: nat): (r: string)
    ensures |r| >= 2
    ensures n < 100 ==> |r| == 2
  {
    PadStart(DecimalString(n), 2, '0')
  }

  /** A clock field is all digits and reads back as its number. */
  lemma FieldDigits(n: nat)
    ensures AllDigits(Field(n)) && DecimalValue(Field(n)) == n
  {
    var d := DecimalString(n);
    DecimalDigits(n);
    if |d| == 1 {
      assert Field(n) == ['0'] + d;
      LeadingZero(d);
    }
  }

  /** `formatTime(s)`: hours, minutes and seconds, each at least two digits,
      joined by ':'. */
  function FormatTime(s: nat): (r: string)
    ensures |r| >= 8 && r[|r| - 3] == ':' && r[|r| - 6] == ':'
    ensures s < 360000 ==> |r| == 8
  {
    var f := ClockFields(s);
    var hh, mm, cc := Field(f.h), Field(f.m), Field(f.s);
    JoinShape(hh, mm, cc);
    hh + ":" + mm + ":" + cc
  }

  /** Where the separators of three joined fields sit. */
  lemma JoinShape(a: string, b: string, c: string)
    requires |a| >= 2 && |b| == 2 && |c| == 2
    ensures var r := a + ":" + b + ":" + c;
      |r| == |a| + 6 && r[|r| - 3] == ':' && r[|r| - 6] == ':'
  {
    var r := a + ":" + b + ":" + c;
    assert r[|r| - 3] == ':' && r[|r| - 6] == ':';
  }

  /** A clock reading: hours, minutes and seconds. */
  datatype Hms = Hms(h: nat, m: nat, s: nat)

  /** The hours, minutes and seconds `formatTime` computes: they recombine to
      `s`, minutes and seconds stay below 60, hours are unbounded. */
  function ClockFields(s: nat): (f: Hms)
    ensures 3600 * f.h + 60 * f.m + f.s == s
    ensures f.m < 60 && f.s < 60
    ensures s < 360000 ==> f.h < 100
  {
    Hms(s / 3600, (s % 3600) / 60, s % 60)
  }

  /** Reads an "H…H:MM:SS" clock back into seconds. */
  function ReadClock(t: string): Option<nat> {
    if |t| < 8 || t[|t| - 3] != ':' || t[|t| - 6] != ':' then None
    else
      var hs, ms, cs := t[..|t| - 6], t[|t| - 5..|t| - 3], t[|t| - 2..];
      if AllDigits(hs) && AllDigits(ms) && AllDigits(cs)
      then Some(ClockSeconds(DecimalValue(hs), DecimalValue(ms), DecimalValue(cs)))
      else None
  }

  function ClockSeconds(h: nat, m: nat, s: nat): nat {
    3600 * h + 60 * m + s
  }

  /** Reading a joined clock gives back its three fields. */
  lemma ReadJoined(h: string, m: string, c: string)
    requires AllDigits(h) && AllDigits(m) && AllDigits(c)
    requires |h| >= 2 && |m| == 2 && |c| == 2
    ensures ReadClock(h + ":" + m + ":" + c)
         == Some(ClockSeconds(DecimalValue(h), DecimalValue(m), DecimalValue(c)))
  {
    var t := h + ":" + m + ":" + c;
    var n := |t|;
    assert n == |h| + 6;
    assert t[..n - 6] == h;
    assert t[n - 5..n - 3] == m;
    assert t[n - 2..] == c;
    assert t[n - 3] == ':' && t[n - 6] == ':';
    assert AllDigits(t[..n - 6]) && AllDigits(t[n - 5..n - 3]) && AllDigits(t[n - 2..]);
    var hv, mv, cv := DecimalValue(h), DecimalValue(m), DecimalValue(c);
    assert DecimalValue(t[..n - 6]) == hv;
    assert DecimalValue(t[n - 5..n - 3]) == mv;
    assert DecimalValue(t[n - 2..]) == cv;
    assert ReadClock(t) == Some(ClockSeconds(hv, mv, cv));
  }

  /** The clock loses nothing: reading it back gives the number of seconds. */
  lemma FormatTimeRoundTrip(s: nat)
    ensures ReadClock(FormatTime(s)) == Some(s)
  {
    FormatTimeIsJoin(s);
    ReadClockFields(s);
    Recombine(s);
  }

  /** Reading the joined fields of `s` back gives their clock value. */
  lemma ReadClockFields(s: nat)
    ensures var f := ClockFields(s);
      ReadClock(Field(f.h) + ":" + Field(f.m) + ":" + Field(f.s)) == Some(ClockSeconds(f.h, f.m, f.s))
  {
    var f := ClockFields(s);
    ReadFields(f.h, f.m, f.s);
  }

  /** The fields of `s` recombine to `s`. */
  lemma Recombine(s: nat)
    ensures var f := ClockFields(s);
      ClockSeconds(f.h, f.m, f.s) == s
  {
  }

  /** The clock of `s` is its three fields joined. */
  lemma FormatTimeIsJoin(s: nat)
    ensures var f := ClockFields(s);
      FormatTime(s) == Field(f.h) + ":" + Field(f.m) + ":" + Field(f.s)
  {
  }

  /** Reading three joined fields back gives their clock value. */
  lemma ReadFields(h: nat, m: nat, c: nat)
    requires m < 100 && c < 100
    ensures ReadClock(Field(h) + ":" + Field(m) + ":" + Field(c)) == Some(ClockSeconds(h, m, c))
  {
    FieldDigits(h);
    FieldDigits(m);
    FieldDigits(c);
    ReadJoined(Field(h), Field(m), Field(c));
  }
}
