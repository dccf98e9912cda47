/** MaterialService: reads the kit catalogue and returns the items of one named kit.

    A flag is raised at every row whose column 1 equals the trimmed kit name, and lowered at
    a row whose column 1 names another kit; while it is raised, item rows are returned. */
module MaterialService {
  import opened Common
  import Text
  import opened CsvRows

  /** One returned item: code, description and the quantity text exactly as trimmed. */
  datatype Material = Material(codigo: string, item: string, qtd: string)

  /** The catalogue file: absent, or present with what reading it yields. */
  datatype CsvSource = Missing | Present(content: Content)

  const MissingFileMessage: string := "Banco de dados de materiais n\U{00E3}o encontrado."
  const ReadErrorPrefix: string := "Erro ao ler arquivo CSV: "

  /** A row whose column 1 is the kit name raises the flag (and is not returned). */
  predicate StartsCapture(row: Row, k: string)
  {
    Cell(row, 1) == k
  }

  /** A row whose column 1 is non-empty, is not the kit name and names a kit lowers the flag. */
  predicate StopsCapture(row: Row, k: string)
  {
    Cell(row, 1) != "" && Cell(row, 1) != k && Text.Contains(Cell(row, 1), KitMarker)
  }

  /** The flag once the first `n` rows have been read. */
  function CapturingAfter(rows: seq<Row>, k: string, n: nat): bool
    requires n <= |rows|
  {
    if n == 0 then false
    else if StartsCapture(rows[n - 1], k) then true
    else if StopsCapture(rows[n - 1], k) then false
    else CapturingAfter(rows, k, n - 1)
  }

  /** The item a row denotes. */
  function MaterialOf(row: Row): Material
  {
    Material(Cell(row, 1), Cell(row, 2), Cell(row, 3))
  }

  /** Whether row `m` is returned: an item row, not a start row, read with the flag raised. */
  predicate Returned(rows: seq<Row>, k: string, m: nat)
    requires m < |rows|
  {
    !StartsCapture(rows[m], k) && CapturingAfter(rows, k, m + 1) && IsItemRow(rows[m])
  }

  /** The items returned from the first `n` rows, in file order. */
  function CapturedUpTo(rows: seq<Row>, k: string, n: nat): seq<Material>
    requires n <= |rows|
  {
    if n == 0 then []
    else CapturedUpTo(rows, k, n - 1) + (if Returned(rows, k, n - 1) then [MaterialOf(rows[n - 1])] else [])
  }

  /** Every returned item has a code and a description; its code is neither the kit name
      nor the name of another kit. */
  lemma {:induction false} CapturedItemsShape(rows: seq<Row>, k: string, n: nat)
    requires n <= |rows|
    ensures forall i :: 0 <= i < |CapturedUpTo(rows, k, n)| ==>
              var m := CapturedUpTo(rows, k, n)[i];
              m.codigo != "" && m.item != "" && m.codigo != k && !Text.Contains(m.codigo, KitMarker)
  {
    if n > 0 {
      CapturedItemsShape(rows, k, n - 1);
    }
  }

  /** The flag is raised exactly when some earlier row started capture and no row since
      has stopped it. */
  lemma {:induction false} CapturingIff(rows: seq<Row>, k: string, n: nat)
    requires n <= |rows|
    ensures CapturingAfter(rows, k, n) <==>
              exists j :: 0 <= j < n && StartsCapture(rows[j], k) && forall l :: j < l < n ==> !StopsCapture(rows[l], k)
  {
    if n > 0 {
      CapturingIff(rows, k, n - 1);
      var row := rows[n - 1];
      if StartsCapture(row, k) {
        assert StartsCapture(rows[n - 1], k);
      } else if StopsCapture(row, k) {
        assert forall j :: 0 <= j < n ==> !(StartsCapture(rows[j], k) && forall l :: j < l < n ==> !StopsCapture(rows[l], k)) by {
          forall j | 0 <= j < n ensures !(StartsCapture(rows[j], k) && forall l :: j < l < n ==> !StopsCapture(rows[l], k)) {
            if j < n - 1 {
              assert StopsCapture(rows[n - 1], k);
            }
          }
        }
      } else {
        if CapturingAfter(rows, k, n - 1) {
          var j :| 0 <= j < n - 1 && StartsCapture(rows[j], k) && forall l :: j < l < n - 1 ==> !StopsCapture(rows[l], k);
          assert forall l :: j < l < n ==> !StopsCapture(rows[l], k);
        }
      }
    }
  }

  /** A kit name that no row carries in column 1 never raises the flag, so nothing is
      returned. */
  lemma {:induction false} UnknownKitCapturesNothing(rows: seq<Row>, k: string, n: nat)
    requires n <= |rows|
    requires forall m :: 0 <= m < n ==> !StartsCapture(rows[m], k)
    ensures !CapturingAfter(rows, k, n)
    ensures CapturedUpTo(rows, k, n) == []
  {
    if n > 0 {
      UnknownKitCapturesNothing(rows, k, n - 1);
    }
  }

  /** Reading more rows keeps the flags and items of the rows already read. */
  lemma {:induction false} CapturePrefix(a: seq<Row>, b: seq<Row>, k: string, n: nat)
    requires n <= |a|
    ensures CapturingAfter(a + b, k, n) == CapturingAfter(a, k, n)
    ensures CapturedUpTo(a + b, k, n) == CapturedUpTo(a, k, n)
  {
    if n > 0 {
      CapturePrefix(a, b, k, n - 1);
      assert (a + b)[n - 1] == a[n - 1];
    }
  }

  /** Rows read after the flag was lowered behave as if read from the start of a file. */
  lemma {:induction false} CaptureShift(a: seq<Row>, b: seq<Row>, k: string, n: nat)
    requires n <= |b|
    requires !CapturingAfter(a, k, |a|)
    ensures CapturingAfter(a + b, k, |a| + n) == CapturingAfter(b, k, n)
    ensures CapturedUpTo(a + b, k, |a| + n) == CapturedUpTo(a, k, |a|) + CapturedUpTo(b, k, n)
  {
    if n == 0 {
      CapturePrefix(a, b, k, |a|);
      assert CapturedUpTo(a, k, |a|) + [] == CapturedUpTo(a, k, |a|);
    } else {
      CaptureShift(a, b, k, n - 1);
      assert (a + b)[|a| + n - 1] == b[n - 1];
    }
  }

  /** When the flag is lowered at the end of `a`, the items of `a + b` are those of `a`
      followed by those of `b`: a kit name that reappears after another kit's header gets
      both blocks' items, concatenated. */
  lemma CapturedConcat(a: seq<Row>, b: seq<Row>, k: string)
    requires !CapturingAfter(a, k, |a|)
    ensures CapturedUpTo(a + b, k, |a + b|) == CapturedUpTo(a, k, |a|) + CapturedUpTo(b, k, |b|)
  {
    CaptureShift(a, b, k, |b|);
  }

  /** `buscarMateriaisNoCSV(kitSugerido)` on the catalogue file. */
  function Buscar(kitSugerido: string, source: CsvSource): (r: Result<seq<Material>, string>)
  {
    match source
    case Missing => Err(MissingFileMessage)
    case Present(Unreadable(msg)) => Err(ReadErrorPrefix + msg)
    case Present(Rows(rows)) => Ok(CapturedUpTo(rows, Text.Trim(kitSugerido), |rows|))
  }

  /** A kit name that no row carries in column 1 resolves with an empty list; it is not
      rejected. */
  lemma UnknownKitResolvesEmpty(kitSugerido: string, rows: seq<Row>)
    requires forall m :: 0 <= m < |rows| ==> Cell(rows[m], 1) != Text.Trim(kitSugerido)
    ensures Buscar(kitSugerido, Present(Rows(rows))) == Ok([])
  {
    UnknownKitCapturesNothing(rows, Text.Trim(kitSugerido), |rows|);
  }

  /** The row handler of `buscarMateriaisNoCSV`, run over the rows of the file. */
  method BuscarMateriaisNoCsv(kitSugerido: string, source: CsvSource) returns (r: Result<seq<Material>, string>)
    ensures r == Buscar(kitSugerido, source)
    ensures source.Missing? ==> r == Err(MissingFileMessage)
    ensures source.Present? && source.content.Unreadable? ==> r == Err(ReadErrorPrefix + source.content.message)
    ensures r.Ok? ==> source.Present? && source.content.Rows?
  {
    if source.Missing? {
      return Err(MissingFileMessage);
    }
    if source.content.Unreadable? {
      return Err(ReadErrorPrefix + source.content.message);
    }
    var rows := source.content.rows;
    var k := Text.Trim(kitSugerido);
    var resultados: seq<Material> := [];
    var capturando := false;
    var i := 0;
    while i < |rows|
      invariant 0 <= i <= |rows|
      invariant capturando == CapturingAfter(rows, k, i)
      invariant resultados == CapturedUpTo(rows, k, i)
    {
      var row := rows[i];
      if StartsCapture(row, k) {
        capturando := true;
      } else {
        if capturando && StopsCapture(row, k) {
          capturando := false;
        }
        if capturando && IsItemRow(row) {
          resultados := resultados + [MaterialOf(row)];
        }
      }
      i := i + 1;
    }
    return Ok(resultados);
  }
}
