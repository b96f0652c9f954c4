/**
 * `schedule_csv_bytes`: the rows of the semicolon-separated export.
 *
 * The export is six labelled summary rows, an empty row, the column header
 * and then one row per month, in schedule order.  The model is the list of
 * rows the CSV writer receives, with each cell still a typed value; quoting,
 * the text form of numbers and the byte encoding are not modelled.
 */
module Export {
  import opened Wrappers
  import opened Amortization

  /** One CSV field before it is written out. */
  datatype Cell =
    | Label(text: string)   // a fixed caption
    | Cents(amount: int)    // a money amount, in cents
    | Percent(rate: real)   // the annual rate as the user typed it
    | Count(n: int)         // a month number or the term

  const PrincipalLabel: string := "Сумма кредита"
  const RateLabel: string := "Ставка, % годовых"
  const TermLabel: string := "Срок, мес"
  const PaymentLabel: string := "Ежемесячный платеж"
  const InterestLabel: string := "Итого процентов"
  const PaidLabel: string := "Итого выплат"

  /** The column header row. */
  const Header: seq<Cell> := [Label("Месяц"), Label("Платеж"), Label("Проценты"), Label("Тело"), Label("Остаток")]

  /** The six summary rows, in the order the export writes them. */
  function SummaryRows(s: Summary): seq<seq<Cell>>
  {
    [ [Label(PrincipalLabel), Cents(s.principal)],
      [Label(RateLabel), Percent(s.ratePercent)],
      [Label(TermLabel), Count(s.months)],
      [Label(PaymentLabel), Cents(s.monthlyPayment)],
      [Label(InterestLabel), Cents(s.totalInterest)],
      [Label(PaidLabel), Cents(s.totalPaid)] ]
  }

  /** The export row of one schedule row. */
  function RowCells(r: Row): seq<Cell>
  {
    [Count(r.month), Cents(r.payment), Cents(r.interest), Cents(r.principalPart), Cents(r.remaining)]
  }

  /** The export rows of the schedule rows, in order. */
  function DataRows(rows: seq<Row>): seq<seq<Cell>>
  {
    if rows == [] then [] else DataRows(rows[..|rows| - 1]) + [RowCells(rows[|rows| - 1])]
  }

  /** Everything the CSV writer receives. */
  function ExportTable(rows: seq<Row>, s: Summary): seq<seq<Cell>>
  {
    SummaryRows(s) + [[], Header] + DataRows(rows)
  }

  /** `schedule_csv_bytes(rows, summary)` up to the encoding: the rows handed
      to `writer.writerow`, one call at a time. */
  method ScheduleCsvRows(rows: seq<Row>, summary: Summary) returns (out: seq<seq<Cell>>)
    ensures out == ExportTable(rows, summary)
  {
    out := [];
    out := out + [[Label(PrincipalLabel), Cents(summary.principal)]];
    out := out + [[Label(RateLabel), Percent(summary.ratePercent)]];
    out := out + [[Label(TermLabel), Count(summary.months)]];
    out := out + [[Label(PaymentLabel), Cents(summary.monthlyPayment)]];
    out := out + [[Label(InterestLabel), Cents(summary.totalInterest)]];
    out := out + [[Label(PaidLabel), Cents(summary.totalPaid)]];
    out := out + [[]];
    out := out + [Header];
    for i := 0 to |rows|
      invariant out == SummaryRows(summary) + [[], Header] + DataRows(rows[..i])
    {
      var row := rows[i];
      out := out + [[Count(row.month), Cents(row.payment), Cents(row.interest), Cents(row.principalPart), Cents(row.remaining)]];
      assert rows[..i + 1][..i] == rows[..i];
    }
    assert rows[..|rows|] == rows;
  }

  /** Row `i` of the data part is the export row of schedule row `i`. */
  lemma {:induction false} DataRowsAt(rows: seq<Row>)
    ensures |DataRows(rows)| == |rows|
    ensures forall i :: 0 <= i < |rows| ==> DataRows(rows)[i] == RowCells(rows[i])
  {
    if rows != [] {
      DataRowsAt(rows[..|rows| - 1]);
    }
  }

  /** The layout of the export: the six summary rows, an empty row, the header,
      then one row per schedule row in schedule order. */
  lemma ExportLayout(rows: seq<Row>, s: Summary)
    ensures |ExportTable(rows, s)| == 8 + |rows|
    ensures ExportTable(rows, s)[..6] == SummaryRows(s)
    ensures ExportTable(rows, s)[6] == [] && ExportTable(rows, s)[7] == Header
    ensures forall i :: 0 <= i < |rows| ==> ExportTable(rows, s)[8 + i] == RowCells(rows[i])
  {
    DataRowsAt(rows);
    var t := ExportTable(rows, s);
    assert t[..6] == SummaryRows(s);
    forall i | 0 <= i < |rows| ensures t[8 + i] == RowCells(rows[i]) {
      assert t[8 + i] == DataRows(rows)[i];
    }
  }

  // ---------------------------------------------------------------------
  // Reading an export back
  // ---------------------------------------------------------------------

  /** The schedule row an export row holds, if it has the row layout. */
  function ParseRow(cells: seq<Cell>): Option<Row>
  {
    if |cells| == 5 && cells[0].Count? && cells[1].Cents? && cells[2].Cents? && cells[3].Cents? && cells[4].Cents?
    then Some(Row(cells[0].n, cells[1].amount, cells[2].amount, cells[3].amount, cells[4].amount))
    else None
  }

  /** The schedule rows a list of export rows holds. */
  function ParseRows(t: seq<seq<Cell>>): Option<seq<Row>>
  {
    if t == [] then Some([])
    else match (ParseRows(t[..|t| - 1]), ParseRow(t[|t| - 1]))
      case (Some(rows), Some(row)) => Some(rows + [row])
      case _ => None
  }

  /** The value a labelled summary row carries, if it has that label. */
  function LabelledValue(cells: seq<Cell>, caption: string): Option<Cell>
  {
    if |cells| == 2 && cells[0] == Label(caption) then Some(cells[1]) else None
  }

  /** The summary the first six rows of an export hold. */
  function ParseSummary(t: seq<seq<Cell>>): Option<Summary>
    requires |t| >= 6
  {
    match (LabelledValue(t[0], PrincipalLabel), LabelledValue(t[1], RateLabel), LabelledValue(t[2], TermLabel),
           LabelledValue(t[3], PaymentLabel), LabelledValue(t[4], InterestLabel), LabelledValue(t[5], PaidLabel))
    case (Some(Cents(p)), Some(Percent(rate)), Some(Count(n)), Some(Cents(pay)), Some(Cents(ti)), Some(Cents(tp))) =>
      Some(Summary(p, rate, n, pay, ti, tp))
    case _ => None
  }

  /** The schedule and summary an export holds. */
  function ParseExport(t: seq<seq<Cell>>): Option<(seq<Row>, Summary)>
  {
    if |t| < 8 || t[6] != [] || t[7] != Header then None
    else match (ParseSummary(t), ParseRows(t[8..]))
      case (Some(s), Some(rows)) => Some((rows, s))
      case _ => None
  }

  lemma {:induction false} ParseDataRows(rows: seq<Row>)
    ensures ParseRows(DataRows(rows)) == Some(rows)
  {
    if rows != [] {
      var init := rows[..|rows| - 1];
      ParseDataRows(init);
      assert DataRows(rows)[..|DataRows(rows)| - 1] == DataRows(init);
      assert rows == init + [rows[|rows| - 1]];
    }
  }

  /** The export loses nothing: reading it back gives the schedule rows and
      the summary that were written. */
  lemma ExportRoundTrip(rows: seq<Row>, s: Summary)
    ensures ParseExport(ExportTable(rows, s)) == Some((rows, s))
  {
    var t := ExportTable(rows, s);
    assert t[8..] == DataRows(rows);
    ParseDataRows(rows);
  }
}
