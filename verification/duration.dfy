/** `segundos_legiveis` (index.py:165-175): a number of seconds written as
    "Ns", "Mmin", "Mmin Ss", "Hh", "Hh Mmin" or "Hh Mmin Ss", and a reader for
    such strings that shows the rendering loses nothing. */
module Duration {
  import opened Wrappers
  import opened Decimal

  const SecondsPerMinute: nat := 60
  const SecondsPerHour: nat := 3600

  /** The human-readable form of a whole number of seconds. The caller has
      already truncated a fractional mean to an integer (the `int()` of
      index.py:166). */
  function Legible(seconds: nat): string {
    if seconds < 60 then Show(seconds) + "s"
    else
      var minutes := seconds / 60;
      var s := seconds % 60;
      if minutes < 60 then
        if s != 0 then Show(minutes) + "min " + Show(s) + "s" else Show(minutes) + "min"
      else
        var hours := minutes / 60;
        var m := minutes % 60;
        if s != 0 then Show(hours) + "h " + Show(m) + "min " + Show(s) + "s"
        else if m != 0 then Show(hours) + "h " + Show(m) + "min"
        else Show(hours) + "h"
  }

  // ---------------------------------------------------------------------
  // Reading a duration string back

  /** The space-separated words of `t` (an empty word between two adjacent
      spaces is kept, so that the split is exact). */
  function Words(t: string): (ws: seq<string>)
    ensures |ws| > 0
    decreases |t|
  {
    if |t| == 0 then [""]
    else
      var rest := Words(t[1..]);
      if t[0] == ' ' then [""] + rest else [[t[0]] + rest[0]] + rest[1..]
  }

  /** How many seconds one unit suffix stands for. */
  function UnitSeconds(u: string): Option<nat> {
    if u == "h" then Some(SecondsPerHour)
    else if u == "min" then Some(SecondsPerMinute)
    else if u == "s" then Some(1)
    else None
  }

  /** The length of the run of digits that starts `w`. */
  function DigitRun(w: string): (k: nat)
    ensures k <= |w|
    ensures AllDigits(w[..k])
    ensures k < |w| ==> !IsDigit(w[k])
    decreases |w|
  {
    if |w| == 0 || !IsDigit(w[0]) then 0
    else
      var k := 1 + DigitRun(w[1..]);
      assert w[..k] == [w[0]] + w[1..][..k - 1];
      k
  }

  /** The number that starts a word such as "12min", if it starts with one. */
  function WordAmount(w: string): Option<nat> {
    var k := DigitRun(w);
    if k == 0 then None else Some(Read(w[..k]))
  }

  /** The seconds per unit of the suffix after a word's number, if it is a
      unit. */
  function WordUnit(w: string): Option<nat> {
    UnitSeconds(w[DigitRun(w)..])
  }

  /** The number of seconds one word stands for. */
  function WordSeconds(w: string): Option<nat> {
    if WordAmount(w).Some? && WordUnit(w).Some? then Some(WordAmount(w).value * WordUnit(w).value)
    else None
  }

  /** The total number of seconds the words stand for, or None when one of
      them is not a number followed by a unit. */
  function SumWords(ws: seq<string>): Option<nat>
    decreases |ws|
  {
    if |ws| == 0 then Some(0)
    else
      var first := WordSeconds(ws[0]);
      var rest := SumWords(ws[1..]);
      if first.Some? && rest.Some? then Some(first.value + rest.value) else None
  }

  function ReadDuration(t: string): Option<nat> {
    SumWords(Words(t))
  }

  /** A word whose numeral has no leading zero: it starts with '0' only when
      the numeral is "0" itself. */
  predicate Plain(w: string) {
    0 < |w| && (w[0] == '0' ==> DigitRun(w) == 1)
  }

  /** Words in the rendering's shape: each a number written without leading
      zeros followed by a unit, the units strictly decreasing from left to
      right, and every word after the first worth fewer than 60 of its unit. */
  predicate Canonical(ws: seq<string>) {
    && (forall i :: 0 <= i < |ws| ==> WordAmount(ws[i]).Some? && WordUnit(ws[i]).Some?)
    && (forall i :: 0 <= i < |ws| ==> Plain(ws[i]))
    && (forall i :: 0 < i < |ws| ==> WordAmount(ws[i]).Some? && WordAmount(ws[i]).value < 60)
    && (forall i, j :: 0 <= i < j < |ws| ==>
          WordUnit(ws[i]).Some? && WordUnit(ws[j]).Some? && WordUnit(ws[j]).value < WordUnit(ws[i]).value)
  }

  // ---------------------------------------------------------------------
  // Lemmas

  lemma {:induction false} WordsOfWord(a: string)
    requires ' ' !in a
    ensures Words(a) == [a]
    decreases |a|
  {
    if |a| > 0 {
      assert ' ' !in a[1..] by {
        forall i | 0 <= i < |a[1..]| ensures a[1..][i] != ' ' {
          assert a[1..][i] == a[i + 1];
        }
      }
      WordsOfWord(a[1..]);
      assert [a[0]] + a[1..] == a;
    }
  }

  lemma {:induction false} WordsCons(a: string, b: string)
    requires ' ' !in a
    ensures Words(a + " " + b) == [a] + Words(b)
    decreases |a|
  {
    var t := a + " " + b;
    if |a| == 0 {
      assert t == " " + b;
      assert t[1..] == b;
    } else {
      assert ' ' !in a[1..] by {
        forall i | 0 <= i < |a[1..]| ensures a[1..][i] != ' ' {
          assert a[1..][i] == a[i + 1];
        }
      }
      assert t[1..] == a[1..] + " " + b;
      WordsCons(a[1..], b);
      assert [a[0]] + a[1..] == a;
    }
  }

  lemma {:induction false} NoSpaceInNumeral(n: nat, u: string)
    requires u in {"h", "min", "s"}
    ensures ' ' !in Show(n) + u
  {
    var w := Show(n) + u;
    forall i | 0 <= i < |w| ensures w[i] != ' ' {
      if i < |Show(n)| {
        assert w[i] == Show(n)[i];
        assert IsDigit(Show(n)[i]);
      }
    }
  }

  lemma {:induction false} DigitRunOfNumeral(a: string, u: string)
    requires AllDigits(a)
    requires |u| > 0 && !IsDigit(u[0])
    ensures DigitRun(a + u) == |a|
    decreases |a|
  {
    if |a| > 0 {
      assert (a + u)[1..] == a[1..] + u;
      DigitRunOfNumeral(a[1..], u);
    } else {
      assert a + u == u;
    }
  }

  /** A numeral followed by a unit starts with '0' only for zero, which is
      then the whole numeral. */
  lemma NumeralNoLeadingZero(n: nat, u: string)
    requires u in {"h", "min", "s"}
    ensures Plain(Show(n) + u)
  {
    DigitRunOfNumeral(Show(n), u);
    if n == 0 {
      assert Show(0) == "0";
    }
  }

  /** A word written as `Show(n) + u` reads back as `n` units. */
  lemma {:induction false} WordOfNumeral(n: nat, u: string)
    requires u in {"h", "min", "s"}
    ensures WordAmount(Show(n) + u) == Some(n)
    ensures WordUnit(Show(n) + u) == UnitSeconds(u)
    ensures WordSeconds(Show(n) + u) == Some(n * UnitSeconds(u).value)
  {
    var w := Show(n) + u;
    DigitRunOfNumeral(Show(n), u);
    assert w[..|Show(n)|] == Show(n);
    assert w[|Show(n)|..] == u;
    ReadShow(n);
  }

  lemma SumOneWord(w: string)
    requires WordSeconds(w).Some?
    ensures SumWords([w]) == WordSeconds(w)
  {
    assert [w][1..] == [];
    assert [w][0] == w;
  }

  lemma SumTwoWords(w1: string, w2: string)
    requires WordSeconds(w1).Some? && WordSeconds(w2).Some?
    ensures SumWords([w1, w2]) == Some(WordSeconds(w1).value + WordSeconds(w2).value)
  {
    SumOneWord(w2);
    assert [w1, w2][1..] == [w2];
    assert [w1, w2][0] == w1;
  }

  lemma SumThreeWords(w1: string, w2: string, w3: string)
    requires WordSeconds(w1).Some? && WordSeconds(w2).Some? && WordSeconds(w3).Some?
    ensures SumWords([w1, w2, w3])
         == Some(WordSeconds(w1).value + WordSeconds(w2).value + WordSeconds(w3).value)
  {
    SumTwoWords(w2, w3);
    assert [w1, w2, w3][1..] == [w2, w3];
    assert [w1, w2, w3][0] == w1;
  }

  // The words of each rendered shape.

  lemma {:induction false} WordsOne(n: nat, u: string)
    requires u in {"h", "min", "s"}
    ensures Words(Show(n) + u) == [Show(n) + u]
  {
    NoSpaceInNumeral(n, u);
    WordsOfWord(Show(n) + u);
  }

  /** Two words joined by one space. */
  lemma {:induction false} WordsPair(a: nat, u1: string, b: nat, u2: string)
    requires u1 in {"h", "min", "s"} && u2 in {"h", "min", "s"}
    ensures Words(Show(a) + (u1 + " ") + Show(b) + u2) == [Show(a) + u1, Show(b) + u2]
  {
    var x, y := Show(a), Show(b);
    assert x + (u1 + " ") + y + u2 == (x + u1) + " " + (y + u2);
    NoSpaceInNumeral(a, u1);
    WordsOne(b, u2);
    WordsCons(x + u1, y + u2);
  }

  lemma {:induction false} WordsHourMinSec(h: nat, m: nat, s: nat)
    ensures Words(Show(h) + "h " + Show(m) + "min " + Show(s) + "s")
         == [Show(h) + "h", Show(m) + "min", Show(s) + "s"]
  {
    var a, b, c := Show(h), Show(m), Show(s);
    assert a + "h " + b + "min " + c + "s" == (a + "h") + " " + (b + "min " + c + "s") by {
      assert "h " == "h" + " ";
    }
    NoSpaceInNumeral(h, "h");
    assert "min " == "min" + " ";
    WordsPair(m, "min", s, "s");
    WordsCons(a + "h", b + "min " + c + "s");
  }

  // Reading each rendered shape back.

  lemma {:induction false} ReadOne(n: nat, u: string)
    requires u in {"h", "min", "s"}
    ensures ReadDuration(Show(n) + u) == Some(n * UnitSeconds(u).value)
  {
    WordsOne(n, u);
    WordOfNumeral(n, u);
    SumOneWord(Show(n) + u);
  }

  lemma {:induction false} ReadMinSec(m: nat, s: nat)
    ensures ReadDuration(Show(m) + "min " + Show(s) + "s") == Some(m * 60 + s)
  {
    assert "min " == "min" + " ";
    WordsPair(m, "min", s, "s");
    WordOfNumeral(m, "min");
    WordOfNumeral(s, "s");
    SumTwoWords(Show(m) + "min", Show(s) + "s");
  }

  lemma {:induction false} ReadHourMin(h: nat, m: nat)
    ensures ReadDuration(Show(h) + "h " + Show(m) + "min") == Some(h * 3600 + m * 60)
  {
    assert "h " == "h" + " ";
    WordsPair(h, "h", m, "min");
    WordOfNumeral(h, "h");
    WordOfNumeral(m, "min");
    SumTwoWords(Show(h) + "h", Show(m) + "min");
  }

  lemma {:induction false} ReadHourMinSec(h: nat, m: nat, s: nat)
    ensures ReadDuration(Show(h) + "h " + Show(m) + "min " + Show(s) + "s")
         == Some(h * 3600 + m * 60 + s)
  {
    WordsHourMinSec(h, m, s);
    WordOfNumeral(h, "h");
    WordOfNumeral(m, "min");
    WordOfNumeral(s, "s");
    SumThreeWords(Show(h) + "h", Show(m) + "min", Show(s) + "s");
  }

  /** Seconds split into whole hours, the remaining minutes and the remaining
      seconds, as the rendering computes them. */
  lemma Decompose(seconds: nat)
    ensures seconds == seconds / 60 / 60 * 3600 + seconds / 60 % 60 * 60 + seconds % 60
    ensures seconds / 60 / 60 == seconds / 3600
  {
    var minutes := seconds / 60;
    var s := seconds % 60;
    var hours := minutes / 60;
    var m := minutes % 60;
    assert seconds == minutes * 60 + s;
    assert minutes == hours * 60 + m;
    assert seconds == hours * 3600 + (m * 60 + s);
    assert 0 <= m * 60 + s < 3600;
  }

  // ---------------------------------------------------------------------
  // Properties of the rendering

  /** Reading back the words of a rendering gives exactly the seconds
      rendered: only zero components are left out. */
  lemma {:induction false} ReadLegible(seconds: nat)
    ensures ReadDuration(Legible(seconds)) == Some(seconds)
  {
    if seconds < 3600 {
      ReadLegibleUnderHour(seconds);
    } else {
      ReadLegibleFromHour(seconds);
    }
  }

  lemma {:induction false} ReadLegibleUnderHour(seconds: nat)
    requires seconds < 3600
    ensures ReadDuration(Legible(seconds)) == Some(seconds)
  {
    var minutes, s := seconds / 60, seconds % 60;
    assert seconds == minutes * 60 + s;
    if seconds < 60 {
      ReadOne(seconds, "s");
    } else if s != 0 {
      ReadMinSec(minutes, s);
    } else {
      ReadOne(minutes, "min");
    }
  }

  lemma {:induction false} ReadLegibleFromHour(seconds: nat)
    requires seconds >= 3600
    ensures ReadDuration(Legible(seconds)) == Some(seconds)
  {
    var hours, m, s := seconds / 60 / 60, seconds / 60 % 60, seconds % 60;
    Decompose(seconds);
    var total := hours * 3600 + m * 60 + s;
    assert total == seconds;
    assert seconds / 60 >= 60;
    if s != 0 {
      assert Legible(seconds) == Show(hours) + "h " + Show(m) + "min " + Show(s) + "s";
      ReadHourMinSec(hours, m, s);
    } else if m != 0 {
      assert Legible(seconds) == Show(hours) + "h " + Show(m) + "min";
      ReadHourMin(hours, m);
      assert hours * 3600 + m * 60 == total;
    } else {
      assert Legible(seconds) == Show(hours) + "h";
      ReadOne(hours, "h");
      assert hours * 3600 == total;
    }
  }

  /** Different durations are rendered differently. */
  lemma {:induction false} LegibleInjective(a: nat, b: nat)
    requires Legible(a) == Legible(b)
    ensures a == b
  {
    ReadLegible(a);
    ReadLegible(b);
  }

  /** The words of a rendering, case by case. */
  lemma {:induction false} LegibleWords(seconds: nat)
    ensures var minutes, s := seconds / 60, seconds % 60;
      var hours, m := minutes / 60, minutes % 60;
      Words(Legible(seconds)) ==
        if seconds < 60 then [Show(seconds) + "s"]
        else if minutes < 60 then
          (if s != 0 then [Show(minutes) + "min", Show(s) + "s"] else [Show(minutes) + "min"])
        else if s != 0 then [Show(hours) + "h", Show(m) + "min", Show(s) + "s"]
        else if m != 0 then [Show(hours) + "h", Show(m) + "min"]
        else [Show(hours) + "h"]
  {
    var minutes, s := seconds / 60, seconds % 60;
    var hours, m := minutes / 60, minutes % 60;
    if seconds < 60 {
      WordsOne(seconds, "s");
    } else if minutes < 60 {
      if s != 0 {
        assert "min " == "min" + " ";
        WordsPair(minutes, "min", s, "s");
      } else {
        WordsOne(minutes, "min");
      }
    } else if s != 0 {
      WordsHourMinSec(hours, m, s);
    } else if m != 0 {
      assert "h " == "h" + " ";
      WordsPair(hours, "h", m, "min");
    } else {
      WordsOne(hours, "h");
    }
  }

  /** Which components appear: one word under a minute; under an hour the
      seconds word only when the seconds are non-zero; from an hour on, all
      three words whenever the seconds are non-zero (even with zero minutes),
      otherwise the minutes word only when the minutes are non-zero. */
  lemma {:induction false} LegibleWordCount(seconds: nat)
    ensures |Words(Legible(seconds))| ==
      if seconds < 60 then 1
      else if seconds < 3600 then (if seconds % 60 != 0 then 2 else 1)
      else if seconds % 60 != 0 then 3
      else if seconds / 60 % 60 != 0 then 2
      else 1
  {
    LegibleWords(seconds);
  }

  /** The rendering is in canonical form: numerals without leading zeros,
      units in the order h, min, s, every word after the first below 60, and
      the first word the whole number of the largest unit that fits (seconds
      under a minute, minutes under an hour, hours otherwise). So "0min 90s",
      "90s" or "1min 05s" is never produced. */
  lemma {:induction false} LegibleCanonical(seconds: nat)
    ensures Canonical(Words(Legible(seconds)))
    ensures WordUnit(Words(Legible(seconds))[0])
         == Some(if seconds < 60 then 1 else if seconds < 3600 then 60 else 3600)
    ensures WordAmount(Words(Legible(seconds))[0])
         == Some(if seconds < 60 then seconds else if seconds < 3600 then seconds / 60 else seconds / 3600)
  {
    LegibleWords(seconds);
    var minutes, s := seconds / 60, seconds % 60;
    var hours, m := minutes / 60, minutes % 60;
    if seconds < 60 {
      CanonicalOne(seconds, "s");
    } else if minutes < 60 {
      if s != 0 { CanonicalTwo(minutes, "min", s, "s"); } else { CanonicalOne(minutes, "min"); }
    } else {
      Decompose(seconds);
      if s != 0 {
        CanonicalThree(hours, m, s);
      } else if m != 0 {
        CanonicalTwo(hours, "h", m, "min");
      } else {
        CanonicalOne(hours, "h");
      }
    }
  }

  /** `Show(n) + u` is a plainly written word of `n` units. */
  lemma UnitOfNumeral(n: nat, u: string)
    requires u in {"h", "min", "s"}
    ensures Unit(Show(n) + u)
    ensures WordAmount(Show(n) + u) == Some(n) && WordUnit(Show(n) + u) == UnitSeconds(u)
  {
    WordOfNumeral(n, u);
    NumeralNoLeadingZero(n, u);
  }

  /** The words of a zero-padded rendering of 65 s. */
  lemma PaddedWords()
    ensures Words("1min 05s") == ["1min", "05s"]
  {
    assert "1min 05s" == "1min" + " " + "05s";
    WordsCons("1min", "05s");
    WordsOfWord("05s");
  }

  /** A zero-padded numeral is not canonical. */
  lemma PaddedIsNotCanonical()
    ensures !Canonical(Words("1min 05s"))
  {
    PaddedWords();
    var w := "05s";
    assert w[1..][0] == '5';
    assert DigitRun(w) != 1;
    assert !Plain(["1min", w][1]);
  }

  /** The zero-padded rendering of 65 s still reads back as 65 s, so the
      reader alone does not tell it apart from "1min 5s". */
  lemma PaddedReadsBack()
    ensures ReadDuration("1min 05s") == Some(65)
  {
    PaddedWords();
    PaddedMinuteWord();
    PaddedSecondsWord();
    SumTwoWords("1min", "05s");
    assert ReadDuration("1min 05s") == SumWords(["1min", "05s"]);
  }

  lemma PaddedMinuteWord()
    ensures WordSeconds("1min") == Some(60)
  {
    WordOfNumeral(1, "min");
    assert Show(1) == "1";
  }

  lemma PaddedSecondsWord()
    ensures WordSeconds("05s") == Some(5)
  {
    var w := "05s";
    DigitRunOfNumeral("05", "s");
    assert "05" + "s" == w;
    assert w[..2] == "05";
    assert Read("05") == 5 by {
      assert "05"[..1] == "0";
      assert "0"[..0] == [];
    }
  }

  lemma CanonicalOne(n: nat, u: string)
    requires u in {"h", "min", "s"}
    ensures Canonical([Show(n) + u])
    ensures WordAmount([Show(n) + u][0]) == Some(n) && WordUnit([Show(n) + u][0]) == UnitSeconds(u)
  {
    UnitOfNumeral(n, u);
  }

  lemma CanonicalTwo(n1: nat, u1: string, n2: nat, u2: string)
    requires u1 in {"h", "min", "s"} && u2 in {"h", "min", "s"}
    requires UnitSeconds(u2).value < UnitSeconds(u1).value && n2 < 60
    ensures Canonical([Show(n1) + u1, Show(n2) + u2])
    ensures WordAmount([Show(n1) + u1, Show(n2) + u2][0]) == Some(n1)
    ensures WordUnit([Show(n1) + u1, Show(n2) + u2][0]) == UnitSeconds(u1)
  {
    UnitOfNumeral(n1, u1);
    UnitOfNumeral(n2, u2);
    CanonicalPair(Show(n1) + u1, Show(n2) + u2);
  }

  lemma CanonicalThree(h: nat, m: nat, s: nat)
    requires m < 60 && s < 60
    ensures Canonical([Show(h) + "h", Show(m) + "min", Show(s) + "s"])
    ensures WordAmount([Show(h) + "h", Show(m) + "min", Show(s) + "s"][0]) == Some(h)
    ensures WordUnit([Show(h) + "h", Show(m) + "min", Show(s) + "s"][0]) == Some(3600)
  {
    UnitOfNumeral(h, "h");
    UnitOfNumeral(m, "min");
    UnitOfNumeral(s, "s");
    assert Follows(Show(h) + "h", Show(m) + "min");
    assert Follows(Show(m) + "min", Show(s) + "s");
    CanonicalTriple(Show(h) + "h", Show(m) + "min", Show(s) + "s");
  }

  /** A word that is a plainly written number and a unit. */
  predicate Unit(w: string) {
    WordAmount(w).Some? && WordUnit(w).Some? && Plain(w)
  }

  /** Two words in canonical order: the second below 60 of a smaller unit. */
  predicate Follows(w1: string, w2: string) {
    Unit(w1) && Unit(w2) && WordAmount(w2).value < 60 && WordUnit(w2).value < WordUnit(w1).value
  }

  lemma CanonicalPair(w1: string, w2: string)
    requires Follows(w1, w2)
    ensures Canonical([w1, w2])
  {
    var ws := [w1, w2];
    assert ws[0] == w1 && ws[1] == w2;
  }

  lemma CanonicalTriple(w1: string, w2: string, w3: string)
    requires Follows(w1, w2) && Follows(w2, w3)
    ensures Canonical([w1, w2, w3])
  {
    var ws := [w1, w2, w3];
    assert ws[0] == w1 && ws[1] == w2 && ws[2] == w3;
  }

  /** Worked values of the rendering under a minute and under an hour. */
  lemma LegibleSecondsExamples()
    ensures Legible(0) == "0s"
    ensures Legible(59) == "59s"
  {
    LegibleZero();
    assert Show(59) == "59";
  }

  /** No time at all is written "0s". */
  lemma LegibleZero()
    ensures Legible(0) == "0s"
  {
    assert Show(0) == "0";
  }

  lemma LegibleMinuteExamples()
    ensures Legible(60) == "1min"
    ensures Legible(90) == "1min 30s"
    ensures Legible(3599) == "59min 59s"
  {
    assert Show(59) == "59";
    assert Show(30) == "30";
  }

  /** From an hour on, zero minutes are written out only before non-zero
      seconds. */
  lemma LegibleHourExamples()
    ensures Legible(3600) == "1h"
    ensures Legible(3660) == "1h 1min"
  {
    assert 3600 / 60 == 60 && 3600 % 60 == 0 && 60 / 60 == 1 && 60 % 60 == 0;
    assert 3660 / 60 == 61 && 3660 % 60 == 0 && 61 / 60 == 1 && 61 % 60 == 1;
    assert Show(1) == "1";
  }

  lemma LegibleHourSecondExamples()
    ensures Legible(3601) == "1h 0min 1s"
    ensures Legible(3661) == "1h 1min 1s"
  {
    assert 3601 / 60 == 60 && 3601 % 60 == 1 && 60 / 60 == 1 && 60 % 60 == 0;
    assert 3661 / 60 == 61 && 3661 % 60 == 1 && 61 / 60 == 1 && 61 % 60 == 1;
    assert Show(0) == "0" && Show(1) == "1";
  }

  /** The two durations of the worked call-log scenario: a mean of 200 s and
      a daily total of 400 s. */
  lemma LegibleScenarioExamples()
    ensures Legible(200) == "3min 20s"
    ensures Legible(400) == "6min 40s"
  {
    assert Show(20) == "20";
    assert Show(40) == "40";
  }
}
