/**
 format_date of opus.py: a date written out in Brazilian Portuguese,
 "<weekday>, <dd> de <month> de <yyyy>", through two lookup tables keyed by
 the texts `strftime` produces for "%w" and "%m".
 */
module Dates {
  import opened Wrappers
  import opened Runtime
  import opened Strings

  /**
   The fields format_date reads from a date: year, month, day, and the
   weekday as "%w" numbers it (0 = Sunday ... 6 = Saturday).
   */
  datatype Date = Date(year: int, month: int, day: int, weekday: int)

  /** The ranges Python's date objects keep their fields in. */
  predicate ValidDate(d: Date) {
    1 <= d.year <= 9999 && 1 <= d.month <= 12 && 1 <= d.day <= 31 && 0 <= d.weekday <= 6
  }

  /** WEEK_DAYS, keyed by the "%w" text. */
  const WeekDays: map<string, string> := map[
    "0" := "Domingo",
    "1" := "Segunda-feira",
    "2" := "Terça-feira",
    "3" := "Quarta-feira",
    "4" := "Quinta-feira",
    "5" := "Sexta-feira",
    "6" := "Sábado"]

  /** MONTHS, keyed by the "%m" text. */
  const Months: map<string, string> := map[
    "01" := "Janeiro",
    "02" := "Fevereiro",
    "03" := "Março",
    "04" := "Abril",
    "05" := "Maio",
    "06" := "Junho",
    "07" := "Julho",
    "08" := "Agosto",
    "09" := "Setembro",
    "10" := "Outubro",
    "11" := "Novembro",
    "12" := "Dezembro"]

  /** The weekday names in "%w" order, Sunday first. */
  const WeekDayNames: seq<string> :=
    ["Domingo", "Segunda-feira", "Terça-feira", "Quarta-feira", "Quinta-feira", "Sexta-feira", "Sábado"]

  /** The month names, January first. */
  const MonthNames: seq<string> :=
    ["Janeiro", "Fevereiro", "Março", "Abril", "Maio", "Junho",
     "Julho", "Agosto", "Setembro", "Outubro", "Novembro", "Dezembro"]

  /** "%d" and "%m": two digits, zero-padded, that read back as the number. */
  function Pad2(n: int): (s: string)
    requires 0 <= n < 100
    ensures |s| == 2 && AllDigits(s)
    ensures DigitsValue(s) == n
  {
    var s := [DigitChar(n / 10), DigitChar(n % 10)];
    assert DigitsValue(s[..1]) == n / 10 by {
      assert s[..1][..0] == [];
    }
    s
  }

  /** The dictionaries agree with the name lists: "%w" text w names WeekDayNames[w], "%m" text m names MonthNames[m - 1]. */
  lemma TablesAgree()
    ensures forall w :: 0 <= w <= 6 ==> IntToString(w) in WeekDays && WeekDays[IntToString(w)] == WeekDayNames[w]
    ensures forall m :: 1 <= m <= 12 ==> Pad2(m) in Months && Months[Pad2(m)] == MonthNames[m - 1]
  {
    forall w | 0 <= w <= 6
      ensures IntToString(w) in WeekDays && WeekDays[IntToString(w)] == WeekDayNames[w]
    {
      WeekDayKey(w);
    }
    forall m | 1 <= m <= 12
      ensures Pad2(m) in Months && Months[Pad2(m)] == MonthNames[m - 1]
    {
      MonthKey(m);
    }
  }

  lemma WeekDayKey(w: int)
    requires 0 <= w <= 6
    ensures IntToString(w) in WeekDays && WeekDays[IntToString(w)] == WeekDayNames[w]
  {
    assert IntToString(w) == [DigitChar(w)];
    if w == 0 { assert [DigitChar(w)] == "0"; }
    else if w == 1 { assert [DigitChar(w)] == "1"; }
    else if w == 2 { assert [DigitChar(w)] == "2"; }
    else if w == 3 { assert [DigitChar(w)] == "3"; }
    else if w == 4 { assert [DigitChar(w)] == "4"; }
    else if w == 5 { assert [DigitChar(w)] == "5"; }
    else { assert [DigitChar(w)] == "6"; }
  }

  lemma MonthKey(m: int)
    requires 1 <= m <= 12
    ensures Pad2(m) in Months && Months[Pad2(m)] == MonthNames[m - 1]
  {
    assert Pad2(m) == [DigitChar(m / 10), DigitChar(m % 10)];
    if m == 1 { assert Pad2(m) == "01"; }
    else if m == 2 { assert Pad2(m) == "02"; }
    else if m == 3 { assert Pad2(m) == "03"; }
    else if m == 4 { assert Pad2(m) == "04"; }
    else if m == 5 { assert Pad2(m) == "05"; }
    else if m == 6 { assert Pad2(m) == "06"; }
    else if m == 7 { assert Pad2(m) == "07"; }
    else if m == 8 { assert Pad2(m) == "08"; }
    else if m == 9 { assert Pad2(m) == "09"; }
    else if m == 10 { assert Pad2(m) == "10"; }
    else if m == 11 { assert Pad2(m) == "11"; }
    else { assert Pad2(m) == "12"; }
  }

  /** format_date; a missing table key would raise KeyError. */
  function FormatDate(d: Date): (r: Result<string, Exception>)
    requires 0 <= d.day < 100 && 0 <= d.month < 100
    ensures ValidDate(d) ==> r.Ok?
    ensures r.Ok? ==> IntToString(d.weekday) in WeekDays && Pad2(d.month) in Months
    ensures r.Ok? ==> WeekDays[IntToString(d.weekday)] + ", " <= r.value
    ensures ValidDate(d) ==> r == Ok(WeekDayNames[d.weekday] + ", " + Pad2(d.day) + " de "
                                    + MonthNames[d.month - 1] + " de " + IntToString(d.year))
  {
    assert ValidDate(d) ==>
      && IntToString(d.weekday) in WeekDays && WeekDays[IntToString(d.weekday)] == WeekDayNames[d.weekday]
      && Pad2(d.month) in Months && Months[Pad2(d.month)] == MonthNames[d.month - 1]
    by {
      if ValidDate(d) {
        WeekDayKey(d.weekday);
        MonthKey(d.month);
      }
    }
    var w := IntToString(d.weekday);
    var m := Pad2(d.month);
    if w !in WeekDays then Err(KeyError)
    else if m !in Months then Err(KeyError)
    else Ok(WeekDays[w] + ", " + Pad2(d.day) + " de " + Months[m] + " de " + IntToString(d.year))
  }

  /** WEEK_DAYS has an entry for exactly the seven "%w" texts. */
  lemma WeekDaysCoverExactly(w: int)
    ensures 0 <= w <= 6 <==> IntToString(w) in WeekDays
  {
    if w < 0 {
      assert IntToString(w)[0] == '-';
    } else if w < 10 {
      assert IntToString(w) == [DigitChar(w)];
    } else {
      assert |IntToString(w)| >= 2;
    }
  }

  /** MONTHS has an entry for exactly the twelve "%m" texts. */
  lemma MonthsCoverExactly(m: int)
    requires 0 <= m < 100
    ensures 1 <= m <= 12 <==> Pad2(m) in Months
  {
    var s := Pad2(m);
    assert s[0] == DigitChar(m / 10) && s[1] == DigitChar(m % 10);
  }

  /** Sunday is "%w" 0 and Saturday is 6. */
  lemma WeekStartsOnSunday()
    ensures WeekDays[IntToString(0)] == "Domingo"
    ensures WeekDays[IntToString(6)] == "Sábado"
  {
    assert IntToString(0) == "0";
    assert IntToString(6) == "6";
  }

  /** The day the project's history starts from, written out. */
  lemma FormatDateExample()
    ensures FormatDate(Date(2023, 2, 23, 4)) == Ok("Quinta-feira, 23 de Fevereiro de 2023")
  {
    var d := Date(2023, 2, 23, 4);
    ExampleFields();
    calc {
      FormatDate(d);
    ==
      Ok(WeekDays["4"] + ", " + "23" + " de " + Months["02"] + " de " + "2023");
    ==
      Ok("Quinta-feira" + ", " + "23" + " de " + "Fevereiro" + " de " + "2023");
    == { assert "Quinta-feira" + ", " == "Quinta-feira, ";
         assert "Quinta-feira, " + "23" == "Quinta-feira, 23";
         assert "Quinta-feira, 23" + " de " == "Quinta-feira, 23 de ";
         assert "Quinta-feira, 23 de " + "Fevereiro" == "Quinta-feira, 23 de Fevereiro";
         assert "Quinta-feira, 23 de Fevereiro" + " de " == "Quinta-feira, 23 de Fevereiro de ";
         assert "Quinta-feira, 23 de Fevereiro de " + "2023" == "Quinta-feira, 23 de Fevereiro de 2023"; }
      Ok("Quinta-feira, 23 de Fevereiro de 2023");
    }
  }

  /** The texts strftime gives the example date's fields. */
  lemma ExampleFields()
    ensures IntToString(4) == "4" && Pad2(2) == "02" && Pad2(23) == "23" && IntToString(2023) == "2023"
  {
    assert NatToString(2) == "2";
    assert NatToString(20) == "20";
    assert NatToString(202) == "202";
    assert NatToString(2023) == "2023";
  }
}
