/**
 * One billing entry of the collections sheet, as read (`RawRecord`) and after
 * the load-time normalisation (`Record`): the due date is coerced to a
 * calendar date or to missing, `Ano` and `Mes` are derived from it, and the
 * salesperson is upper-cased.
 */
module Records {
  import opened Wrappers

  datatype Date = Date(year: int, month: int, day: int)

  /** The `Data_Venc` cell as the parser sees it: empty, text it cannot read,
      or year/month/day fields (which may still name no real day). */
  datatype DateCell = Blank | Garbled | Ymd(year: int, month: int, day: int)

  /** Balances are exact amounts in cents. */
  datatype RawRecord = RawRecord(
    debtor: Option<string>,       // Razão
    salesperson: Option<string>,  // Vendedor
    state: Option<string>,        // Estado
    city: Option<string>,         // Cidade
    due: DateCell,                // Data_Venc
    balance: int)                 // Saldo

  datatype Record = Record(
    debtor: Option<string>,
    salesperson: Option<string>,
    state: Option<string>,
    city: Option<string>,
    due: Option<Date>,
    year: Option<int>,            // Ano
    month: Option<int>,           // Mes
    balance: int)

  // ---------------------------------------------------------------------
  // Dates

  predicate IsLeapYear(y: int) {
    y % 4 == 0 && (y % 100 != 0 || y % 400 == 0)
  }

  function DaysInMonth(y: int, m: int): int
    requires 1 <= m <= 12
  {
    if m == 2 then (if IsLeapYear(y) then 29 else 28)
    else if m == 4 || m == 6 || m == 9 || m == 11 then 30
    else 31
  }

  predicate IsCalendarDate(d: Date) {
    1 <= d.month <= 12 && 1 <= d.day <= DaysInMonth(d.year, d.month)
  }

  /** A nanosecond pandas Timestamp reaches from 1677-09-21 00:12:43 to
      2262-04-11 23:47:16, so a date at midnight fits from 1677-09-22 to
      2262-04-11; outside that range the coercing parser yields NaT. */
  predicate InTimestampRange(d: Date) {
    && (d.year > 1677 || (d.year == 1677 && (d.month > 9 || (d.month == 9 && d.day >= 22))))
    && (d.year < 2262 || (d.year == 2262 && (d.month < 4 || (d.month == 4 && d.day <= 11))))
  }

  /** `pd.to_datetime(..., errors='coerce')`: anything that is not a real,
      representable date becomes missing. */
  function CoerceDate(c: DateCell): (d: Option<Date>)
    ensures d.Some? <==> c.Ymd? && IsCalendarDate(Date(c.year, c.month, c.day))
                                && InTimestampRange(Date(c.year, c.month, c.day))
    ensures d.Some? ==> d.value == Date(c.year, c.month, c.day) && 1 <= d.value.month <= 12
  {
    match c
    case Ymd(y, m, day) =>
      var date := Date(y, m, day);
      if IsCalendarDate(date) && InTimestampRange(date) then Some(date) else None
    case _ => None
  }

  // ---------------------------------------------------------------------
  // Upper-casing (Python's str.upper on the Latin-1 range)

  /** Python's upper-casing of one character: ASCII and Latin-1 lower-case
      letters map to their capitals, ß to the two letters "SS", and every
      other character to itself. */
  function UpperChar(c: char): (u: string)
    ensures 1 <= |u| <= 2
    ensures |u| == 2 <==> c == '\U{DF}'
    ensures 'a' <= c <= 'z' ==> u == [(c as int - 32) as char] && 'A' <= u[0] <= 'Z'
    ensures c < '\U{80}' && !('a' <= c <= 'z') ==> u == [c]
  {
    if 'a' <= c <= 'z' || ('\U{E0}' <= c <= '\U{FE}' && c != '\U{F7}') then [(c as int - 32) as char]
    else if c == '\U{B5}' then ['\U{39C}']   // micro sign -> Greek capital mu
    else if c == '\U{DF}' then "SS"          // sharp s
    else if c == '\U{FF}' then ['\U{178}']   // y with diaeresis
    else [c]
  }

  /** `str.upper`: each character upper-cased in turn, so the result is at
      least as long as the input and at most twice as long. */
  function Upper(s: string): (u: string)
    ensures |s| <= |u| <= 2 * |s|
  {
    if s == [] then [] else UpperChar(s[0]) + Upper(s[1..])
  }

  lemma {:induction false} UpperAppend(a: string, b: string)
    ensures Upper(a + b) == Upper(a) + Upper(b)
  {
    if a != [] {
      assert (a + b)[1..] == a[1..] + b;
      UpperAppend(a[1..], b);
    } else {
      assert a + b == b;
    }
  }

  lemma UpperCharIsUpper(c: char)
    ensures Upper(UpperChar(c)) == UpperChar(c)
  {
    var u := UpperChar(c);
    assert u[1..] == [] || u == "SS";
    if u == "SS" {
      assert u[1..] == "S";
      assert Upper("S") == "S";
    } else {
      assert Upper(u[1..]) == [];
    }
  }

  /** Upper-casing twice changes nothing more. */
  lemma {:induction false} UpperIdempotent(s: string)
    ensures Upper(Upper(s)) == Upper(s)
  {
    if s != [] {
      UpperAppend(UpperChar(s[0]), Upper(s[1..]));
      UpperCharIsUpper(s[0]);
      UpperIdempotent(s[1..]);
    }
  }

  /** No ASCII lower-case letter survives upper-casing. */
  lemma {:induction false} UpperHasNoAsciiLowercase(s: string)
    ensures forall i :: 0 <= i < |Upper(s)| ==> !('a' <= Upper(s)[i] <= 'z')
  {
    if s != [] {
      UpperHasNoAsciiLowercase(s[1..]);
      var head := UpperChar(s[0]);
      forall i | 0 <= i < |Upper(s)| ensures !('a' <= Upper(s)[i] <= 'z') {
        if i >= |head| {
          assert Upper(s)[i] == Upper(s[1..])[i - |head|];
        }
      }
    }
  }

  // ---------------------------------------------------------------------
  // Load-time normalisation

  predicate IsUpperCased(s: Option<string>) {
    s.Some? ==> Upper(s.value) == s.value
  }

  /** What every normalised record satisfies. */
  predicate WellFormed(r: Record) {
    && (r.due.None? <==> r.year.None?)
    && (r.due.None? <==> r.month.None?)
    && (r.due.Some? ==> r.year == Some(r.due.value.year) && r.month == Some(r.due.value.month))
    && (r.month.Some? ==> 1 <= r.month.value <= 12)
    && IsUpperCased(r.salesperson)
  }

  function UpperCell(s: Option<string>): (u: Option<string>)
    ensures u.Some? <==> s.Some?
    ensures s.Some? ==> u == Some(Upper(s.value))
    ensures IsUpperCased(u)
  {
    match s
    case Some(v) => UpperIdempotent(v); Some(Upper(v))
    case None => None
  }

  function Normalize(raw: RawRecord): (r: Record)
    ensures WellFormed(r)
    ensures r.due == CoerceDate(raw.due)
    ensures r.salesperson == (if raw.salesperson.Some? then Some(Upper(raw.salesperson.value)) else None)
    ensures r.debtor == raw.debtor && r.state == raw.state && r.city == raw.city && r.balance == raw.balance
  {
    var due := CoerceDate(raw.due);
    Record(raw.debtor, UpperCell(raw.salesperson), raw.state, raw.city, due,
           if due.Some? then Some(due.value.year) else None,
           if due.Some? then Some(due.value.month) else None,
           raw.balance)
  }

  function NormalizeAll(raws: seq<RawRecord>): (rows: seq<Record>)
    ensures |rows| == |raws|
    ensures forall i :: 0 <= i < |raws| ==> rows[i] == Normalize(raws[i])
  {
    seq(|raws|, i requires 0 <= i < |raws| => Normalize(raws[i]))
  }

  // ---------------------------------------------------------------------
  // The columns the dashboard filters and groups by

  function DebtorKey(r: Record): Option<string> { r.debtor }
  function SalespersonKey(r: Record): Option<string> { r.salesperson }
  function StateKey(r: Record): Option<string> { r.state }
  function CityKey(r: Record): Option<string> { r.city }
  function YearKey(r: Record): Option<int> { r.year }
  function MonthKey(r: Record): Option<int> { r.month }

  /** The two-column key `['Ano', 'Mes']`: missing when either part is. */
  function YearMonthKey(r: Record): Option<(int, int)> {
    if r.year.Some? && r.month.Some? then Some((r.year.value, r.month.value)) else None
  }

}
