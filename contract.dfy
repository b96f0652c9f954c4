/**
 * The amortization table of the loan contract (`make_contract_pdf_bytes`).
 *
 * The table is a header row followed by one row per month: the month number
 * and the four amounts written with two decimals (`f"{x:.2f}"`).  Page
 * layout, fonts, the other paragraphs and the signing date are not modelled.
 */
module Contract {
  import opened Wrappers
  import opened Amortization

  /** A table cell: reportlab is given the month as a number and the amounts
      as text. */
  datatype TableCell = Number(n: int) | Text(s: string)

  const TableHeader: seq<TableCell> :=
    [Text("Mes"), Text("Pago"), Text("Interés"), Text("Principal"), Text("Saldo")]

  function Digit(d: nat): char
    requires d < 10
  {
    ('0' as int + d) as char
  }

  predicate IsDigit(c: char)
  {
    '0' <= c <= '9'
  }

  function DigitValue(c: char): nat
    requires IsDigit(c)
  {
    (c as int - '0' as int) as nat
  }

  /** The decimal digits of `n`, without leading zeros. */
  function NatDigits(n: nat): string
  {
    if n < 10 then [Digit(n)] else NatDigits(n / 10) + [Digit(n % 10)]
  }

  /** Two-decimal text of a non-negative amount of `m` cents. */
  function Unsigned2(m: nat): string
  {
    NatDigits(m / 100) + "." + [Digit(m / 10 % 10), Digit(m % 10)]
  }

  /** `f"{x:.2f}"` of an amount of `c` cents. */
  function Fixed2(c: int): string
  {
    if c < 0 then "-" + Unsigned2(-c) else Unsigned2(c)
  }

  /** Every character of `s` is a decimal digit. */
  predicate AllDigits(s: string)
  {
    s == [] || (AllDigits(s[..|s| - 1]) && IsDigit(s[|s| - 1]))
  }

  /** The value of a string of decimal digits. */
  function DigitsValue(s: string): nat
    requires AllDigits(s)
  {
    if s == [] then 0 else DigitsValue(s[..|s| - 1]) * 10 + DigitValue(s[|s| - 1])
  }

  /** Reads back a non-negative amount in cents: digits, a dot, two digits. */
  function ParseUnsigned2(u: string): Option<nat>
  {
    if |u| >= 4 && u[|u| - 3] == '.' && AllDigits(u[..|u| - 3])
       && IsDigit(u[|u| - 2]) && IsDigit(u[|u| - 1])
    then Some(DigitsValue(u[..|u| - 3]) * 100 + DigitValue(u[|u| - 2]) * 10 + DigitValue(u[|u| - 1]))
    else None
  }

  /** Reads back an amount in cents from its two-decimal text. */
  function ParseFixed2(s: string): Option<int>
  {
    if |s| > 0 && s[0] == '-' then
      match ParseUnsigned2(s[1..])
      case Some(v) => Some(-(v as int))
      case None => None
    else
      match ParseUnsigned2(s)
      case Some(v) => Some(v as int)
      case None => None
  }

  lemma DigitRoundTrip(d: nat)
    requires d < 10
    ensures IsDigit(Digit(d)) && DigitValue(Digit(d)) == d
  {
  }

  /** `NatDigits` writes only digits, and reading them back gives the number. */
  lemma {:induction false} NatDigitsRoundTrip(n: nat)
    ensures |NatDigits(n)| >= 1
    ensures AllDigits(NatDigits(n)) && NatDigits(n)[0] != '-'
    ensures DigitsValue(NatDigits(n)) == n
  {
    DigitRoundTrip(n % 10);
    if n < 10 {
      assert NatDigits(n)[..0] == [];
    } else {
      NatDigitsRoundTrip(n / 10);
      var s := NatDigits(n);
      assert s[..|s| - 1] == NatDigits(n / 10);
      assert s[0] == NatDigits(n / 10)[0];
    }
  }

  lemma Unsigned2RoundTrip(m: nat)
    ensures |Unsigned2(m)| >= 4 && Unsigned2(m)[0] != '-'
    ensures ParseUnsigned2(Unsigned2(m)) == Some(m)
  {
    var ds := NatDigits(m / 100);
    NatDigitsRoundTrip(m / 100);
    DigitRoundTrip(m / 10 % 10);
    DigitRoundTrip(m % 10);
    var u := Unsigned2(m);
    assert u[..|u| - 3] == ds;
    assert u[|u| - 3] == '.';
    assert u[0] == ds[0];
    assert u[|u| - 2] == Digit(m / 10 % 10) && u[|u| - 1] == Digit(m % 10);
    CentsDigits(m);
  }

  /** An amount of cents is its whole units, its tenths and its hundredths. */
  lemma CentsDigits(m: nat)
    ensures m == m / 100 * 100 + (m / 10 % 10) * 10 + m % 10
  {
  }

  /** Two-decimal text loses nothing for whole-cent amounts. */
  lemma Fixed2RoundTrip(c: int)
    ensures ParseFixed2(Fixed2(c)) == Some(c)
  {
    if c < 0 {
      Unsigned2RoundTrip(-c);
      assert Fixed2(c)[1..] == Unsigned2(-c);
    } else {
      Unsigned2RoundTrip(c);
    }
  }

  /** The table row of one schedule row. */
  function TableRow(r: Row): seq<TableCell>
  {
    [Number(r.month), Text(Fixed2(r.payment)), Text(Fixed2(r.interest)), Text(Fixed2(r.principalPart)), Text(Fixed2(r.remaining))]
  }

  /** The `data` list built for the amortization table, one append at a time. */
  method AmortizationTable(rows: seq<Row>) returns (data: seq<seq<TableCell>>)
    ensures |data| == 1 + |rows|
    ensures data[0] == TableHeader
    ensures forall i :: 0 <= i < |rows| ==> data[i + 1] == TableRow(rows[i])
  {
    data := [TableHeader];
    for i := 0 to |rows|
      invariant |data| == 1 + i
      invariant data[0] == TableHeader
      invariant forall j :: 0 <= j < i ==> data[j + 1] == TableRow(rows[j])
    {
      var r := rows[i];
      data := data + [[Number(r.month), Text(Fixed2(r.payment)), Text(Fixed2(r.interest)),
                       Text(Fixed2(r.principalPart)), Text(Fixed2(r.remaining))]];
    }
  }

  /** Every amount of a table row reads back to the schedule row's value. */
  lemma TableRowFaithful(r: Row)
    ensures TableRow(r)[0] == Number(r.month)
    ensures ParseFixed2(TableRow(r)[1].s) == Some(r.payment)
    ensures ParseFixed2(TableRow(r)[2].s) == Some(r.interest)
    ensures ParseFixed2(TableRow(r)[3].s) == Some(r.principalPart)
    ensures ParseFixed2(TableRow(r)[4].s) == Some(r.remaining)
  {
    var t := TableRow(r);
    assert t[1].s == Fixed2(r.payment) && t[2].s == Fixed2(r.interest);
    assert t[3].s == Fixed2(r.principalPart) && t[4].s == Fixed2(r.remaining);
    Fixed2RoundTrip(r.payment);
    Fixed2RoundTrip(r.interest);
    Fixed2RoundTrip(r.principalPart);
    Fixed2RoundTrip(r.remaining);
  }
}
