/** BudgetService: prices the consolidated bill of materials of a project against the
    catalogue table and totals it. */
module BudgetService {
  import opened Common
  import Numbers
  import opened Catalog
  import R = ReportingService

  /** One priced line. */
  datatype BudgetItem = BudgetItem(codigo: string, item: string, quantidade: real,
                                   precoUnitario: real, moeda: string, subtotal: real)

  datatype Budget = Budget(projeto: R.Project, moeda: string, items: seq<BudgetItem>, totalGeral: real, totalItems: nat)

  /** The currency of a line without one, and of the budget as a whole. */
  const DefaultCurrency: string := "EUR"

  /** The unit price of the looked-up row: its price when the row exists and the price is
      neither null nor zero, and 0 otherwise. */
  function UnitPrice(row: Option<MaterialRow>): real
  {
    if row.Some? && PriceOf(row.value).Some? && PriceOf(row.value).value != 0.0 then PriceOf(row.value).value else 0.0
  }

  /** The currency of the looked-up row when it has a non-empty one, and "EUR" otherwise. */
  function Currency(row: Option<MaterialRow>): string
  {
    if row.Some? && CurrencyOf(row.value).Some? && CurrencyOf(row.value).value != "" then CurrencyOf(row.value).value
    else DefaultCurrency
  }

  /** A line whose subtotal is its exact cost rounded to two decimals. */
  predicate RoundedLine(it: BudgetItem)
  {
    it.subtotal == Numbers.Round2(Numbers.Cost(it.quantidade, it.precoUnitario))
  }

  /** The priced line of one consolidated line, given the first catalogue row with its code. */
  function PricedLine(mat: R.Consolidated, row: Option<MaterialRow>): BudgetItem
  {
    var p := UnitPrice(row);
    BudgetItem(mat.codigo, mat.item, mat.quantidade, p, Currency(row), Numbers.Round2(Numbers.Cost(mat.quantidade, p)))
  }

  /** The priced lines, each looked up in the table by code. */
  function PricedLines(lines: seq<R.Consolidated>, table: seq<MaterialRow>): seq<BudgetItem>
  {
    if lines == [] then []
    else PricedLines(lines[..|lines| - 1], table) + [PricedLine(lines[|lines| - 1], FirstWithCode(table, lines[|lines| - 1].codigo))]
  }

  /** The running total of the subtotals. */
  function SubtotalSum(items: seq<BudgetItem>): real
  {
    if items == [] then 0.0 else SubtotalSum(items[..|items| - 1]) + items[|items| - 1].subtotal
  }

  /** Reference: the unrounded cost of the lines, quantity times unit price. */
  function ExactCost(items: seq<BudgetItem>): real
  {
    if items == [] then 0.0
    else ExactCost(items[..|items| - 1]) + Numbers.Cost(items[|items| - 1].quantidade, items[|items| - 1].precoUnitario)
  }

  /** `calculateProjectBudget` given the inputs of the material report and the catalogue
      table; a failing report fails the budget with the same message. */
  function ProjectBudget(le: (string, string) -> bool, project: Option<R.Project>, calcs: seq<R.TractionCalc>,
                         table: seq<MaterialRow>): Result<Budget, string>
  {
    match R.MaterialReport(le, project, calcs)
    case Err(e) => Err(e)
    case Ok(report) => Ok(BudgetOf(report, table))
  }

  /** The budget of a material report. */
  function BudgetOf(report: R.Report, table: seq<MaterialRow>): Budget
  {
    var items := PricedLines(report.materiaisConsolidados, table);
    Budget(report.projeto, DefaultCurrency, items, Numbers.Round2(SubtotalSum(items)), |items|)
  }

  /** One line per consolidated line, in the same order, each priced from the first table
      row with its code: it carries the line's code, description and quantity, that row's
      price and currency (or the defaults), and the cost rounded to two decimals. */
  lemma {:induction false} PricedLinesSpec(lines: seq<R.Consolidated>, table: seq<MaterialRow>)
    ensures |PricedLines(lines, table)| == |lines|
    ensures forall i :: 0 <= i < |lines| ==>
              PricedLines(lines, table)[i] == PricedLine(lines[i], FirstWithCode(table, lines[i].codigo))
  {
    if lines != [] {
      var init := lines[..|lines| - 1];
      PricedLinesSpec(init, table);
      assert forall i :: 0 <= i < |init| ==> init[i] == lines[i];
    }
  }

  /** A line whose code has no priced row costs nothing. */
  lemma UnpricedLine(mat: R.Consolidated, row: Option<MaterialRow>)
    requires row.None? || PriceOf(row.value).None? || PriceOf(row.value).value == 0.0
    ensures PricedLine(mat, row).precoUnitario == 0.0 && PricedLine(mat, row).subtotal == 0.0
  {
    Numbers.CostIsProduct(mat.quantidade, 0.0);
    assert Numbers.Cost(mat.quantidade, 0.0) == (0 as real) / 100.0;
    Numbers.Round2OfCents(0);
  }

  /** Each subtotal is within half a cent of the exact product, so the sum of the subtotals
      is within half a cent per line of the exact cost. */
  lemma {:induction false} SubtotalSumError(items: seq<BudgetItem>)
    requires forall i :: 0 <= i < |items| ==> RoundedLine(items[i])
    ensures Numbers.Abs(SubtotalSum(items) - ExactCost(items)) <= 0.005 * (|items| as real)
  {
    if items != [] {
      var init := items[..|items| - 1];
      var x := items[|items| - 1];
      assert forall i :: 0 <= i < |init| ==> init[i] == items[i];
      SubtotalSumError(init);
      assert RoundedLine(x);
      var d := x.subtotal - Numbers.Cost(x.quantidade, x.precoUnitario);
      assert Numbers.Abs(d) <= 0.005;
    }
  }

  /** A failing material report, such as one for an unknown project, fails the budget with
      the same message. */
  lemma ProjectBudgetError(le: (string, string) -> bool, project: Option<R.Project>, calcs: seq<R.TractionCalc>,
                           table: seq<MaterialRow>)
    requires R.MaterialReport(le, project, calcs).Err?
    ensures ProjectBudget(le, project, calcs, table) == Err(R.MaterialReport(le, project, calcs).error)
  {
  }

  /** What the budget of a report promises: the budget currency is "EUR", `totalItems`
      counts the lines, there is one line per consolidated line, the rounded total is the
      sum of the line subtotals, already a whole number of cents, and it is within half a cent per line, plus half a cent, of the exact cost. */
  lemma ProjectBudgetSpec(le: (string, string) -> bool, project: Option<R.Project>, calcs: seq<R.TractionCalc>,
                          table: seq<MaterialRow>)
    requires R.MaterialReport(le, project, calcs).Ok?
    ensures ProjectBudget(le, project, calcs, table).Ok?
    ensures var report := R.MaterialReport(le, project, calcs).value;
            var b := ProjectBudget(le, project, calcs, table).value;
            && b.projeto == report.projeto
            && b.moeda == DefaultCurrency
            && b.totalItems == |b.items| == |report.materiaisConsolidados|
            && b.items == PricedLines(report.materiaisConsolidados, table)
            && b.totalGeral == SubtotalSum(b.items)
            && Numbers.Abs(b.totalGeral - ExactCost(b.items)) <= 0.005 * (|b.items| as real + 1.0)
  {
    BudgetOfSpec(R.MaterialReport(le, project, calcs).value, table);
  }

  lemma BudgetOfSpec(report: R.Report, table: seq<MaterialRow>)
    ensures var b := BudgetOf(report, table);
            && b.projeto == report.projeto
            && b.moeda == DefaultCurrency
            && b.totalItems == |b.items| == |report.materiaisConsolidados|
            && b.items == PricedLines(report.materiaisConsolidados, table)
            && b.totalGeral == SubtotalSum(b.items)
            && Numbers.Abs(b.totalGeral - ExactCost(b.items)) <= 0.005 * (|b.items| as real + 1.0)
  {
    var items := PricedLines(report.materiaisConsolidados, table);
    PricedLinesSpec(report.materiaisConsolidados, table);
    TotalError(items);
    var n := SumIsCents(items);
    Numbers.Round2OfCents(n);
  }

  /** A value rounded to two decimals is a whole number of hundredths. */
  lemma Round2IsCents(x: real) returns (n: int)
    ensures Numbers.Round2(x) == (n as real) / 100.0
  {
    var c := Numbers.Cents(x) as int;
    n := if x < 0.0 then -c else c;
  }

  /** A sum of rounded subtotals is a whole number of hundredths, so rounding it again
      changes nothing. */
  lemma {:induction false} SumIsCents(items: seq<BudgetItem>) returns (n: int)
    requires forall i :: 0 <= i < |items| ==> RoundedLine(items[i])
    ensures SubtotalSum(items) == (n as real) / 100.0
  {
    if items == [] {
      n := 0;
    } else {
      var init := items[..|items| - 1];
      var x := items[|items| - 1];
      assert forall i :: 0 <= i < |init| ==> init[i] == items[i];
      var m := SumIsCents(init);
      assert RoundedLine(x);
      var k := Round2IsCents(Numbers.Cost(x.quantidade, x.precoUnitario));
      n := m + k;
    }
  }

  /** The rounded total of priced lines is within half a cent per line, plus half a cent,
      of their exact cost. */
  lemma TotalError(items: seq<BudgetItem>)
    requires forall i :: 0 <= i < |items| ==> RoundedLine(items[i])
    ensures Numbers.Abs(Numbers.Round2(SubtotalSum(items)) - ExactCost(items)) <= 0.005 * (|items| as real + 1.0)
  {
    SubtotalSumError(items);
    var s := SubtotalSum(items);
    assert Numbers.Abs(Numbers.Round2(s) - s) <= 0.005;
  }

  /** `calculateProjectBudget` on the catalogue database. */
  method CalculateProjectBudget(db: Database, le: (string, string) -> bool, project: Option<R.Project>,
                                calcs: seq<R.TractionCalc>) returns (r: Result<Budget, string>)
    ensures r == ProjectBudget(le, project, calcs, db.materiais)
  {
    var report := R.GenerateMaterialReport(le, project, calcs);
    if report.Err? {
      return Err(report.error);
    }
    var lines := report.value.materiaisConsolidados;
    var budgetItems: seq<BudgetItem> := [];
    var totalGeral := 0.0;
    var i := 0;
    while i < |lines|
      invariant 0 <= i <= |lines|
      invariant budgetItems == PricedLines(lines[..i], db.materiais)
      invariant totalGeral == SubtotalSum(budgetItems)
    {
      assert lines[..i + 1][..i] == lines[..i];
      var mat := lines[i];
      var materialData := db.FindByCode(mat.codigo);
      var precoUnit := UnitPrice(materialData);
      var moeda := Currency(materialData);
      var subtotal := Numbers.Round2(Numbers.Cost(mat.quantidade, precoUnit));
      assert BudgetItem(mat.codigo, mat.item, mat.quantidade, precoUnit, moeda, subtotal) == PricedLine(mat, FirstWithCode(db.materiais, mat.codigo));
      budgetItems := budgetItems + [BudgetItem(mat.codigo, mat.item, mat.quantidade, precoUnit, moeda, subtotal)];
      totalGeral := totalGeral + subtotal;
      i := i + 1;
    }
    assert lines[..|lines|] == lines;
    totalGeral := Numbers.Round2(totalGeral);
    return Ok(Budget(report.value.projeto, DefaultCurrency, budgetItems, totalGeral, |budgetItems|));
  }
}
