/**
 * The duration label of app.py:64, 128 and 155: whole minutes d shown as
 * "{d // 60}h {d % 60}m". Python's // and % by 60 round toward minus
 * infinity, which is what Dafny's / and % do for a positive divisor, so the
 * model needs no case for negative d.
 */
module Duration {
  import opened Wrappers
  import opened Strings

  /** Hours and leftover minutes of d minutes. */
  function Split(d: int): (r: (int, int))
    ensures 0 <= r.1 < 60
    ensures 60 * r.0 + r.1 == d
  {
    (d / 60, d % 60)
  }

  /** Split is the only way to write d as 60 * hours + minutes with minutes in [0, 60). */
  lemma SplitUnique(d: int, hours: int, minutes: int)
    requires 0 <= minutes < 60 && 60 * hours + minutes == d
    ensures Split(d) == (hours, minutes)
  {
  }

  /**
   * The label; the hours part is always present, "0h" included. It loses
   * nothing: reading it back gives d.
   */
  function Label(d: int): (s: string)
    ensures ParseLabel(s) == Some(d)
  {
    var hm := Split(d);
    LabelTextRoundTrip(hm.0, hm.1, d);
    LabelText(hm.0, hm.1)
  }

  /** "<h>h <m>m". */
  function LabelText(h: int, m: int): string
  {
    IntText(h) + "h " + IntText(m) + "m"
  }

  /** Reads a label back into minutes: "<hours>h <minutes>m" with minutes in [0, 60). */
  function ParseLabel(s: string): (r: Option<int>)
  {
    match SplitAt(s, 'h')
    case None => None
    case Some((hoursText, rest)) =>
      match ParseInt(hoursText)
      case None => None
      case Some(h) =>
        match MinutesPart(rest)
        case None => None
        case Some(m) => if 0 <= m < 60 then Some(60 * h + m) else None
  }

  /** The " <minutes>m" after the h of a label. */
  function MinutesPart(rest: string): Option<int>
  {
    if |rest| < 2 || rest[0] != ' ' || rest[|rest| - 1] != 'm' then None
    else ParseInt(rest[1..|rest| - 1])
  }

  lemma MinutesPartRoundTrip(m: int)
    ensures MinutesPart(" " + IntText(m) + "m") == Some(m)
  {
    var rest := " " + IntText(m) + "m";
    assert rest[1..|rest| - 1] == IntText(m);
    IntTextRoundTrip(m);
  }

  lemma NoLetterInIntText(n: int, c: char)
    requires c != '-' && !IsDigit(c)
    ensures c !in IntText(n)
  {
    if n < 0 {
      assert IntText(n) == "-" + NatText(-n);
    }
  }

  /** Hours h and minutes m in [0, 60), written as a label, read back as d = 60 * h + m. */
  lemma LabelTextRoundTrip(h: int, m: int, d: int)
    requires 0 <= m < 60 && 60 * h + m == d
    ensures ParseLabel(LabelText(h, m)) == Some(d)
  {
    var s := LabelText(h, m);
    LabelSplitsAtH(h, m);
    IntTextRoundTrip(h);
    MinutesPartRoundTrip(m);
    ParseLabelParts(s, IntText(h), " " + IntText(m) + "m", h, m, d);
  }

  /** The first h of a label ends the hours part. */
  lemma LabelSplitsAtH(h: int, m: int)
    ensures SplitAt(LabelText(h, m), 'h') == Some((IntText(h), " " + IntText(m) + "m"))
  {
    var hoursText, rest := IntText(h), " " + IntText(m) + "m";
    NoLetterInIntText(h, 'h');
    assert LabelText(h, m) == hoursText + ['h'] + rest;
    SplitAtJoin(hoursText, 'h', rest);
  }

  lemma ParseLabelParts(s: string, hoursText: string, rest: string, h: int, m: int, d: int)
    requires SplitAt(s, 'h') == Some((hoursText, rest))
    requires ParseInt(hoursText) == Some(h) && MinutesPart(rest) == Some(m)
    requires 0 <= m < 60 && 60 * h + m == d
    ensures ParseLabel(s) == Some(d)
  {
  }

  /** Label(d) is the only text that reads back as d: the label's spelling is fixed. */
  lemma LabelOnlyText(s: string, d: int)
    requires ParseLabel(s) == Some(d)
    ensures s == Label(d)
  {
    var (hoursText, rest) := SplitAt(s, 'h').value;
    var h := ParseInt(hoursText).value;
    var m := MinutesPart(rest).value;
    MinutesPartShape(rest, m);
    var minutesText := rest[1..|rest| - 1];
    ParseIntOnlyIntText(hoursText, h);
    ParseIntOnlyIntText(minutesText, m);
    SplitUnique(d, h, m);
    JoinLabel(s, hoursText, rest, h, m);
  }

  lemma MinutesPartShape(rest: string, m: int)
    requires MinutesPart(rest) == Some(m)
    ensures |rest| >= 2 && rest == " " + rest[1..|rest| - 1] + "m"
    ensures ParseInt(rest[1..|rest| - 1]) == Some(m)
  {
  }

  lemma JoinLabel(s: string, hoursText: string, rest: string, h: int, m: int)
    requires s == hoursText + ['h'] + rest && hoursText == IntText(h)
    requires |rest| >= 2 && rest == " " + IntText(m) + "m"
    ensures s == LabelText(h, m)
  {
  }

  /** Different durations get different labels. */
  lemma LabelInjective(d1: int, d2: int)
    requires Label(d1) == Label(d2)
    ensures d1 == d2
  {
  }

  /** A label is the text of its Split. */
  lemma LabelIsText(d: int)
    ensures Label(d) == LabelText(d / 60, d % 60)
  {
  }

  /** 125 minutes read as "2h 5m". */
  lemma LabelTwoHours()
    ensures Label(125) == "2h 5m"
  {
    assert 125 / 60 == 2 && 125 % 60 == 5;
    LabelIsText(125);
    assert LabelText(2, 5) == "2h 5m" by {
      assert IntText(2) == "2" && IntText(5) == "5";
    }
  }

  /** Under an hour the hours part is still shown: 45 minutes read as "0h 45m". */
  lemma LabelUnderAnHour()
    ensures Label(45) == "0h 45m"
  {
    assert 45 / 60 == 0 && 45 % 60 == 45;
    LabelIsText(45);
    assert LabelText(0, 45) == "0h 45m" by {
      assert IntText(0) == "0";
      assert IntText(45) == "45" by {
        assert 45 / 10 == 4 && 45 % 10 == 5;
        assert NatText(45) == NatText(4) + [DigitChar(5)];
        assert NatText(4) == "4" && DigitChar(5) == '5';
      }
    }
  }

  /** No time at all reads as "0h 0m". */
  lemma LabelZero()
    ensures Label(0) == "0h 0m"
  {
    assert 0 / 60 == 0 && 0 % 60 == 0;
    LabelIsText(0);
    assert LabelText(0, 0) == "0h 0m" by {
      assert IntText(0) == "0";
    }
  }
}
