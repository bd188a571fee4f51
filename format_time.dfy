/**
 * format_time from clock/utils.py: a count of seconds rendered as
 * "D day(s) H hr(s) M min(s) S s", starting at the largest unit the value
 * reaches. The model proves that the printed components are the canonical
 * mixed-radix decomposition of the input and that the text can be read
 * back to the exact number of seconds.
 */
module Utils {
  import opened Wrappers
  import Text

  const SecondsPerMinute := 60
  const SecondsPerHour := 3600
  const SecondsPerDay := 86400

  /** The plural suffix format_time appends to "min", "hr" and "day". */
  function Plural(n: int): string
  {
    if n != 1 then "s" else ""
  }

  /** format_time(seconds), where `sec` is int(seconds): the float's truncation is not modelled. */
  function FormatTime(sec: int): (text: string)
    ensures |text| >= 3 && text[|text| - 2..] == " s"
  {
    if sec < SecondsPerMinute then
      Text.IntToString(sec) + " s"
    else if sec < SecondsPerHour then
      var minutes := sec / 60;
      var s := sec % 60;
      var minutesText := Text.IntToString(minutes) + " min" + Plural(minutes);
      minutesText + " " + Text.IntToString(s) + " s"
    else if sec < SecondsPerDay then
      var hours := sec / 3600;
      var minutes := (sec % 3600) / 60;
      var s := sec % 60;
      var hoursText := Text.IntToString(hours) + " hr" + Plural(hours);
      var minutesText := Text.IntToString(minutes) + " min" + Plural(minutes);
      hoursText + " " + minutesText + " " + Text.IntToString(s) + " s"
    else
      var days := sec / 86400;
      var hours := (sec % 86400) / 3600;
      var minutes := (sec % 3600) / 60;
      var s := sec % 60;
      var daysText := Text.IntToString(days) + " day" + Plural(days);
      var hoursText := Text.IntToString(hours) + " hr" + Plural(hours);
      var minutesText := Text.IntToString(minutes) + " min" + Plural(minutes);
      daysText + " " + hoursText + " " + minutesText + " " + Text.IntToString(s) + " s"
  }

  // ---------------------------------------------------------------------
  // Reference definition: components, their words, and reading them back

  datatype Unit = Day | Hour | Minute | Second

  function Weight(u: Unit): nat
  {
    match u
    case Day => SecondsPerDay
    case Hour => SecondsPerHour
    case Minute => SecondsPerMinute
    case Second => 1
  }

  /** How many of `u` make one of the next larger unit. */
  function Radix(u: Unit): nat
  {
    match u
    case Day => 0
    case Hour => 24
    case Minute => 60
    case Second => 60
  }

  /** The singular word of a unit. */
  function Singular(u: Unit): string
  {
    match u
    case Day => "day"
    case Hour => "hr"
    case Minute => "min"
    case Second => "s"
  }

  /**
   * The word printed after a count of `u`: singular exactly when the count
   * is 1, except that seconds are always "s"; it reads back as `u`.
   */
  function UnitWord(u: Unit, count: int): (w: string)
    ensures u == Second ==> w == "s"
    ensures u != Second ==> (w == Singular(u) <==> count == 1)
  {
    match u
    case Day => if count != 1 then "days" else "day"
    case Hour => if count != 1 then "hrs" else "hr"
    case Minute => if count != 1 then "mins" else "min"
    case Second => "s"
  }

  lemma UnitWordReadsBack(u: Unit, count: int)
    ensures ParseUnit(UnitWord(u, count)) == Some(u)
  {
  }

  /** Reads a unit word, in either number. */
  function ParseUnit(w: string): Option<Unit>
  {
    if w == "day" || w == "days" then Some(Day)
    else if w == "hr" || w == "hrs" then Some(Hour)
    else if w == "min" || w == "mins" then Some(Minute)
    else if w == "s" then Some(Second)
    else None
  }

  datatype Part = Part(count: int, unit: Unit)

  /** Drops leading components whose count is zero, always keeping the last one. */
  function DropLeadingZeros(ps: seq<Part>): (r: seq<Part>)
    requires |ps| >= 1
    ensures 1 <= |r| <= |ps| && r == ps[|ps| - |r|..]
    ensures |r| > 1 ==> r[0].count != 0
  {
    if |ps| > 1 && ps[0].count == 0 then DropLeadingZeros(ps[1..]) else ps
  }

  /**
   * The components format_time shows, defined without its branches: days,
   * hours, minutes and seconds of `sec` with the leading zero ones left out.
   * A negative input is shown as seconds only.
   */
  function Fields(sec: int): seq<Part>
  {
    if sec < 0 then [Part(sec, Second)]
    else DropLeadingZeros([Part(sec / 86400, Day), Part((sec % 86400) / 3600, Hour),
                           Part((sec % 3600) / 60, Minute), Part(sec % 60, Second)])
  }

  /** The number of seconds a list of components stands for. */
  function Value(ps: seq<Part>): int
  {
    if ps == [] then 0 else ps[0].count * Weight(ps[0].unit) + Value(ps[1..])
  }

  function Phrase(p: Part): string
  {
    Text.IntToString(p.count) + " " + UnitWord(p.unit, p.count)
  }

  function Render(ps: seq<Part>): string
    requires |ps| >= 1
  {
    if |ps| == 1 then Phrase(ps[0]) else Phrase(ps[0]) + " " + Render(ps[1..])
  }

  /** The space-separated words of a rendering. */
  function Words(ps: seq<Part>): (ws: seq<string>)
    ensures |ws| == 2 * |ps|
  {
    if ps == [] then [] else [Text.IntToString(ps[0].count), UnitWord(ps[0].unit, ps[0].count)] + Words(ps[1..])
  }

  /** Reads count/unit word pairs and adds up the seconds they stand for. */
  function ParseWords(ws: seq<string>): Option<int>
  {
    if |ws| == 0 then Some(0)
    else if |ws| == 1 then None
    else
      var n := Text.ParseInt(ws[0]);
      var u := ParseUnit(ws[1]);
      var rest := ParseWords(ws[2..]);
      if n.None? || u.None? || rest.None? then None
      else Some(n.value * Weight(u.value) + rest.value)
  }

  /** Reads a duration in the format format_time writes. */
  function ParseDuration(s: string): Option<int>
  {
    ParseWords(Text.Split(s, ' '))
  }

  // ---------------------------------------------------------------------
  // What format_time promises

  /** The arithmetic behind format_time's divisions: the four quotients recombine and stay below their radices. */
  lemma Decompose(sec: int)
    requires sec >= 0
    ensures var d, h, m, s := sec / 86400, (sec % 86400) / 3600, (sec % 3600) / 60, sec % 60;
      && d * 86400 + h * 3600 + m * 60 + s == sec
      && 0 <= h < 24 && 0 <= m < 60 && 0 <= s < 60
      && (sec < 86400 ==> d == 0 && h == sec / 3600)
      && (sec < 3600 ==> h == 0 && m == sec / 60)
      && (sec < 60 ==> m == 0 && s == sec)
      && (86400 <= sec ==> d > 0)
      && (3600 <= sec < 86400 ==> h > 0)
      && (60 <= sec < 3600 ==> m > 0)
  {
    var d, r1 := sec / 86400, sec % 86400;
    var h, r2 := r1 / 3600, r1 % 3600;
    assert sec == 3600 * (24 * d + h) + r2;
    assert sec % 3600 == r2;
    var m, s := r2 / 60, r2 % 60;
    assert sec == 60 * (60 * (24 * d + h) + m) + s;
    assert sec % 60 == s;
  }

  lemma DropZero(ps: seq<Part>)
    requires |ps| > 1 && ps[0].count == 0
    ensures DropLeadingZeros(ps) == DropLeadingZeros(ps[1..])
  {
  }

  lemma KeepNonZero(ps: seq<Part>)
    requires |ps| >= 1 && (|ps| == 1 || ps[0].count != 0)
    ensures DropLeadingZeros(ps) == ps
  {
  }

  /** The components shown in each of format_time's four branches. */
  lemma FieldsShape(sec: int)
    ensures sec < 60 ==> Fields(sec) == [Part(sec, Second)]
    ensures 60 <= sec < 3600 ==> Fields(sec) == [Part(sec / 60, Minute), Part(sec % 60, Second)]
    ensures 3600 <= sec < 86400 ==>
      Fields(sec) == [Part(sec / 3600, Hour), Part((sec % 3600) / 60, Minute), Part(sec % 60, Second)]
    ensures 86400 <= sec ==>
      Fields(sec) == [Part(sec / 86400, Day), Part((sec % 86400) / 3600, Hour),
                      Part((sec % 3600) / 60, Minute), Part(sec % 60, Second)]
  {
    if sec >= 0 {
      Decompose(sec);
      var d, h, m, s := sec / 86400, (sec % 86400) / 3600, (sec % 3600) / 60, sec % 60;
      var p0, p1, p2, p3 := Part(d, Day), Part(h, Hour), Part(m, Minute), Part(s, Second);
      var all := [p0, p1, p2, p3];
      assert Fields(sec) == DropLeadingZeros(all);
      assert all[1..] == [p1, p2, p3];
      assert all[1..][1..] == [p2, p3];
      assert all[1..][1..][1..] == [p3];
      if sec < 86400 {
        DropZero(all);
        if sec < 3600 {
          DropZero(all[1..]);
          if sec < 60 {
            DropZero(all[1..][1..]);
            KeepNonZero(all[1..][1..][1..]);
          } else {
            KeepNonZero(all[1..][1..]);
          }
        } else {
          KeepNonZero(all[1..]);
        }
      } else {
        KeepNonZero(all);
      }
    }
  }

  lemma RenderSeconds(s: int)
    ensures Render([Part(s, Second)]) == Text.IntToString(s) + " s"
  {
  }

  /** The phrase of a minute, hour or day count is the count, a space and the unit word with its plural. */
  lemma PhraseOf(p: Part)
    requires p.unit != Second
    ensures Phrase(p) == Text.IntToString(p.count) + (" " + Singular(p.unit)) + Plural(p.count)
  {
    var n, w := Text.IntToString(p.count), UnitWord(p.unit, p.count);
    assert w == Singular(p.unit) + Plural(p.count);
    Regroup3(n, " ", Singular(p.unit), Plural(p.count));
  }

  lemma Regroup3(a: string, b: string, c: string, e: string)
    ensures a + b + (c + e) == a + (b + c) + e
  {
  }

  lemma RenderMinutes(m: int, s: int)
    ensures Render([Part(m, Minute), Part(s, Second)])
      == (Text.IntToString(m) + " min" + Plural(m)) + " " + Text.IntToString(s) + " s"
  {
    var f := [Part(m, Minute), Part(s, Second)];
    assert f[1..] == [Part(s, Second)];
    PhraseOf(f[0]);
    var a, c := Text.IntToString(m) + " min" + Plural(m), Text.IntToString(s) + " s";
    assert Phrase(f[0]) == a;
    assert Render(f[1..]) == c;
    assert Render(f) == a + " " + c;
  }

  lemma RenderHours(h: int, m: int, s: int)
    ensures Render([Part(h, Hour), Part(m, Minute), Part(s, Second)])
      == (Text.IntToString(h) + " hr" + Plural(h)) + " "
        + (Text.IntToString(m) + " min" + Plural(m)) + " " + Text.IntToString(s) + " s"
  {
    var f := [Part(h, Hour), Part(m, Minute), Part(s, Second)];
    assert f[1..] == [Part(m, Minute), Part(s, Second)];
    RenderMinutes(m, s);
    PhraseOf(f[0]);
    var a, b := Text.IntToString(h) + " hr" + Plural(h), Text.IntToString(m) + " min" + Plural(m);
    var c := Text.IntToString(s) + " s";
    assert Phrase(f[0]) == a;
    assert Render(f[1..]) == b + " " + c;
    assert Render(f) == a + " " + Render(f[1..]);
    Regroup2(a, b, c);
  }

  lemma Regroup2(a: string, b: string, c: string)
    ensures a + " " + (b + " " + c) == a + " " + b + " " + c
  {
  }

  lemma RenderDays(d: int, h: int, m: int, s: int)
    ensures Render([Part(d, Day), Part(h, Hour), Part(m, Minute), Part(s, Second)])
      == (Text.IntToString(d) + " day" + Plural(d)) + " " + (Text.IntToString(h) + " hr" + Plural(h)) + " "
        + (Text.IntToString(m) + " min" + Plural(m)) + " " + Text.IntToString(s) + " s"
  {
    var f := [Part(d, Day), Part(h, Hour), Part(m, Minute), Part(s, Second)];
    assert f[1..] == [Part(h, Hour), Part(m, Minute), Part(s, Second)];
    RenderHours(h, m, s);
    PhraseOf(f[0]);
    var a := Text.IntToString(d) + " day" + Plural(d);
    var b, c := Text.IntToString(h) + " hr" + Plural(h), Text.IntToString(m) + " min" + Plural(m);
    var e := Text.IntToString(s) + " s";
    assert Phrase(f[0]) == a;
    assert Render(f[1..]) == b + " " + c + " " + e;
    assert Render(f) == a + " " + Render(f[1..]);
    Regroup(a, b, c, e);
  }

  lemma Regroup(a: string, b: string, c: string, e: string)
    ensures a + " " + (b + " " + c + " " + e) == a + " " + b + " " + c + " " + e
  {
  }

  /** format_time prints exactly the components of the reference decomposition. */
  lemma FormatTimeRendersFields(sec: int)
    ensures |Fields(sec)| >= 1
    ensures FormatTime(sec) == Render(Fields(sec))
  {
    FieldsShape(sec);
    if sec < 60 {
      RenderSeconds(sec);
    } else if sec < 3600 {
      RenderMinutes(sec / 60, sec % 60);
    } else if sec < 86400 {
      RenderHours(sec / 3600, (sec % 3600) / 60, sec % 60);
    } else {
      RenderDays(sec / 86400, (sec % 86400) / 3600, (sec % 3600) / 60, sec % 60);
    }
  }

  /** The branch format_time takes: how many components it shows. */
  lemma FieldsCount(sec: int)
    ensures sec < 60 ==> |Fields(sec)| == 1
    ensures 60 <= sec < 3600 ==> |Fields(sec)| == 2
    ensures 3600 <= sec < 86400 ==> |Fields(sec)| == 3
    ensures 86400 <= sec ==> |Fields(sec)| == 4
  {
    FieldsShape(sec);
  }

  /** The shown components add back up to the input. */
  lemma FieldsRecombine(sec: int)
    ensures Value(Fields(sec)) == sec
  {
    FieldsShape(sec);
    if sec >= 0 {
      Decompose(sec);
      var d, h, m, s := sec / 86400, (sec % 86400) / 3600, (sec % 3600) / 60, sec % 60;
      assert Value([Part(s, Second)]) == s;
      assert Value([Part(m, Minute), Part(s, Second)]) == m * 60 + s;
      assert Value([Part(h, Hour), Part(m, Minute), Part(s, Second)]) == h * 3600 + m * 60 + s;
      assert Value([Part(d, Day), Part(h, Hour), Part(m, Minute), Part(s, Second)]) == sec;
    }
  }

  /**
   * The shown components are a canonical decomposition: they end in seconds,
   * run over consecutive units, every component after the first is below
   * its radix (hours < 24, minutes < 60, seconds < 60), and the first is
   * non-zero unless it is the only one.
   */
  lemma FieldsCanonical(sec: int)
    ensures var f := Fields(sec);
      && 1 <= |f| <= 4
      && f[|f| - 1].unit == Second
      && (forall i :: 0 <= i < |f| ==> f[i].unit == [Day, Hour, Minute, Second][4 - |f| + i])
      && (forall i :: 0 < i < |f| ==> 0 <= f[i].count < Radix(f[i].unit))
      && (|f| > 1 ==> f[0].count > 0)
  {
    FieldsShape(sec);
    if sec >= 0 { Decompose(sec); }
  }

  lemma {:induction false} RenderIsJoinOfWords(ps: seq<Part>)
    requires |ps| >= 1
    ensures Render(ps) == Text.Join(Words(ps), ' ')
  {
    var ws := Words(ps);
    assert ws[2..] == Words(ps[1..]);
    if |ps| == 1 {
      assert Text.Join(ws[1..], ' ') == ws[1];
    } else {
      RenderIsJoinOfWords(ps[1..]);
      assert Text.Join(ws[1..], ' ') == ws[1] + [' '] + Text.Join(ws[2..], ' ');
    }
  }

  lemma {:induction false} WordsHaveNoSpace(ps: seq<Part>)
    ensures forall i :: 0 <= i < |Words(ps)| ==> ' ' !in Words(ps)[i]
  {
    if ps != [] {
      Text.IntToStringChars(ps[0].count);
      WordsHaveNoSpace(ps[1..]);
      var ws := Words(ps);
      assert ws[2..] == Words(ps[1..]);
      forall i | 0 <= i < |ws| ensures ' ' !in ws[i] {
        if i >= 2 { assert ws[i] == Words(ps[1..])[i - 2]; }
      }
    }
  }

  lemma {:induction false} ParseWordsReadsValue(ps: seq<Part>)
    ensures ParseWords(Words(ps)) == Some(Value(ps))
  {
    if ps != [] {
      var p := ps[0];
      var ws := Words(ps);
      assert ws[0] == Text.IntToString(p.count);
      assert ws[1] == UnitWord(p.unit, p.count);
      assert ws[2..] == Words(ps[1..]);
      Text.IntRoundTrip(p.count);
      UnitWordReadsBack(p.unit, p.count);
      ParseWordsReadsValue(ps[1..]);
      assert ParseWords(ws) == Some(p.count * Weight(p.unit) + Value(ps[1..]));
    }
  }

  /** Reading back what format_time prints gives exactly the input. */
  lemma FormatTimeRoundTrip(sec: int)
    ensures ParseDuration(FormatTime(sec)) == Some(sec)
  {
    FormatTimeRendersFields(sec);
    var f := Fields(sec);
    RenderIsJoinOfWords(f);
    WordsHaveNoSpace(f);
    Text.SplitJoin(Words(f), ' ');
    ParseWordsReadsValue(f);
    FieldsRecombine(sec);
  }

  /** Examples: below a minute, the singular forms, and a zero count shown in the plural. */
  lemma FormatTimeExamples()
    ensures FormatTime(59) == "59 s"
    ensures FormatTime(-5) == "-5 s"
    ensures FormatTime(61) == "1 min 1 s"
    ensures FormatTime(3600) == "1 hr 0 mins 0 s"
  {
    assert Text.NatToString(59) == Text.NatToString(5) + ['9'];
    assert Text.IntToString(-5) == "-" + Text.NatToString(5);
    MinuteExample();
    HourExample();
  }

  lemma MinuteExample()
    ensures FormatTime(61) == "1 min 1 s"
  {
    var one := Text.IntToString(1);
    assert one == "1";
    assert FormatTime(61) == one + " min" + Plural(1) + " " + one + " s";
  }

  lemma HourExample()
    ensures FormatTime(3600) == "1 hr 0 mins 0 s"
  {
    var one, zero := Text.IntToString(1), Text.IntToString(0);
    assert one == "1" && zero == "0";
    assert FormatTime(3600) == one + " hr" + Plural(1) + " " + zero + " min" + Plural(0) + " " + zero + " s";
  }
}
