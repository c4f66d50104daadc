/** Wall-clock readings and the two `strftime` formats the tools print:
    `%Y-%m-%d %H:%M:%S` inside documents and `%Y%m%d_%H%M%S` inside file
    names. Reading the clock is not modelled; a reading is a parameter. */
module Clock {
  import opened Strings

  datatype DateTime = DateTime(year: nat, month: nat, day: nat, hour: nat, minute: nat, second: nat)
  {
    /** The fields a `datetime` can hold, with a four-digit year. */
    predicate Valid() {
      1000 <= year <= 9999 && 1 <= month <= 12 && 1 <= day <= 31
      && hour < 24 && minute < 60 && second < 60
    }
  }

  /** `n` in exactly `width` decimal digits, zero-padded on the left. */
  function Padded(n: nat, width: nat): (r: string)
    ensures |r| == width
    ensures forall i :: 0 <= i < |r| ==> IsDigit(r[i])
  {
    if width == 0 then ""
    else Padded(n / 10, width - 1) + [DigitChar(n % 10)]
  }

  function Power10(k: nat): (r: nat)
    ensures r >= 1
  {
    if k == 0 then 1 else 10 * Power10(k - 1)
  }

  /** Numbers below 10^width are told apart by their padded digits. */
  lemma {:induction false} PaddedInjective(a: nat, b: nat, width: nat)
    requires a < Power10(width) && b < Power10(width)
    requires Padded(a, width) == Padded(b, width)
    ensures a == b
    decreases width
  {
    if width > 0 {
      var ra := Padded(a, width);
      var rb := Padded(b, width);
      assert ra[width - 1] == DigitChar(a % 10) && rb[width - 1] == DigitChar(b % 10);
      DigitCharInjective(a % 10, b % 10);
      assert ra[..width - 1] == Padded(a / 10, width - 1);
      assert rb[..width - 1] == Padded(b / 10, width - 1);
      PaddedInjective(a / 10, b / 10, width - 1);
    }
  }

  lemma DigitCharInjective(x: nat, y: nat)
    requires x < 10 && y < 10
    requires DigitChar(x) == DigitChar(y)
    ensures x == y
  {
  }

  /** `strftime('%Y-%m-%d %H:%M:%S')`. */
  function Display(t: DateTime): string {
    Padded(t.year, 4) + "-" + Padded(t.month, 2) + "-" + Padded(t.day, 2) + " "
    + Padded(t.hour, 2) + ":" + Padded(t.minute, 2) + ":" + Padded(t.second, 2)
  }

  /** `strftime('%Y%m%d_%H%M%S')`. */
  function Stamp(t: DateTime): string {
    Padded(t.year, 4) + Padded(t.month, 2) + Padded(t.day, 2) + "_"
    + Padded(t.hour, 2) + Padded(t.minute, 2) + Padded(t.second, 2)
  }

  /** A stamp is fifteen characters: eight digits, an underscore, six digits,
      so it holds neither a path separator nor a dot. */
  lemma StampShape(t: DateTime)
    ensures |Stamp(t)| == 15
    ensures Stamp(t)[8] == '_'
    ensures forall i :: 0 <= i < 15 && i != 8 ==> IsDigit(Stamp(t)[i])
  {
    var s := Stamp(t);
    var y, mo, d, h, mi, se := Padded(t.year, 4), Padded(t.month, 2), Padded(t.day, 2),
                               Padded(t.hour, 2), Padded(t.minute, 2), Padded(t.second, 2);
    assert s == y + mo + d + "_" + h + mi + se;
    forall i | 0 <= i < 15 && i != 8
      ensures IsDigit(s[i])
    {
      if i < 4 { assert s[i] == y[i]; }
      else if i < 6 { assert s[i] == mo[i - 4]; }
      else if i < 8 { assert s[i] == d[i - 6]; }
      else if i < 11 { assert s[i] == h[i - 9]; }
      else if i < 13 { assert s[i] == mi[i - 11]; }
      else { assert s[i] == se[i - 13]; }
    }
  }

  /** Two valid readings with the same stamp are the same second: file
      names built from stamps only collide within one second. */
  lemma StampInjective(t: DateTime, u: DateTime)
    requires t.Valid() && u.Valid()
    requires Stamp(t) == Stamp(u)
    ensures t == u
  {
    var s := Stamp(t);
    assert Power10(2) == 100;
    assert Power10(4) == 10000;
    assert s[..4] == Padded(t.year, 4) && Stamp(u)[..4] == Padded(u.year, 4);
    assert s[4..6] == Padded(t.month, 2) && Stamp(u)[4..6] == Padded(u.month, 2);
    assert s[6..8] == Padded(t.day, 2) && Stamp(u)[6..8] == Padded(u.day, 2);
    assert s[9..11] == Padded(t.hour, 2) && Stamp(u)[9..11] == Padded(u.hour, 2);
    assert s[11..13] == Padded(t.minute, 2) && Stamp(u)[11..13] == Padded(u.minute, 2);
    assert s[13..15] == Padded(t.second, 2) && Stamp(u)[13..15] == Padded(u.second, 2);
    PaddedInjective(t.year, u.year, 4);
    PaddedInjective(t.month, u.month, 2);
    PaddedInjective(t.day, u.day, 2);
    PaddedInjective(t.hour, u.hour, 2);
    PaddedInjective(t.minute, u.minute, 2);
    PaddedInjective(t.second, u.second, 2);
  }

  /** The printed time is one line. */
  lemma DisplayDigits(t: DateTime)
    ensures |Display(t)| == 19
    ensures '\n' !in Display(t)
  {
    var y, mo, d, h, mi, se := Padded(t.year, 4), Padded(t.month, 2), Padded(t.day, 2),
                               Padded(t.hour, 2), Padded(t.minute, 2), Padded(t.second, 2);
    assert Display(t) == y + "-" + mo + "-" + d + " " + h + ":" + mi + ":" + se;
    assert forall c :: IsDigit(c) ==> c != '\n';
  }
}
