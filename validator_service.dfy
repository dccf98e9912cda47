/** ValidatorService: the pre-export checks on a project summary (the material report plus
    the budget). Errors make the project invalid; alerts only inform. */
module ValidatorService {
  import opened Common
  import B = BudgetService

  /** The project reference of the summary; `id` is None when null or undefined. */
  datatype ProjectRef = ProjectRef(id: Option<int>)

  /** The summary being checked; a field the summary lacks is None. */
  datatype Summary = Summary(projeto: Option<ProjectRef>, items: Option<seq<B.BudgetItem>>, totalGeral: Option<real>)

  datatype ValidationError =
    | NoMaterials
    | InvalidQuantity(codigo: string, quantidade: real)
    | IncompleteProject

  datatype Alert = NoCosts

  datatype Validation = Validation(valido: bool, alertas: seq<Alert>, erros: seq<ValidationError>)

  /** The message texts; `render` is the number-to-text conversion of template literals. */
  function ErrorMessage(e: ValidationError, render: real -> string): string
  {
    match e
    case NoMaterials => "O projeto n\U{00E3}o possui materiais associados."
    case InvalidQuantity(c, q) => "Quantidade inv\U{00E1}lida para o item " + c + ": " + render(q)
    case IncompleteProject => "Dados do projeto incompletos para exporta\U{00E7}\U{00E3}o."
  }

  function AlertMessage(a: Alert): string
  {
    "O projeto n\U{00E3}o possui custos associados ou os materiais t\U{00EA}m pre\U{00E7}o zero."
  }

  /** `!projeto || !projeto.id`: the project or its id is missing, or the id is 0. */
  predicate IncompleteRef(projeto: Option<ProjectRef>)
  {
    projeto.None? || projeto.value.id.None? || projeto.value.id.value == 0
  }

  /** The per-item errors: one for each item whose quantity is not positive, in item order. */
  function QuantityErrors(items: seq<B.BudgetItem>): seq<ValidationError>
  {
    if items == [] then []
    else
      var last := items[|items| - 1];
      QuantityErrors(items[..|items| - 1]) + (if last.quantidade <= 0.0 then [InvalidQuantity(last.codigo, last.quantidade)] else [])
  }

  /** The errors in the order they are raised: missing materials, per item, then project. */
  function Errors(d: Summary): seq<ValidationError>
  {
    (if d.items.None? || d.items.value == [] then [NoMaterials] else [])
    + (if d.items.Some? then QuantityErrors(d.items.value) else [])
    + (if IncompleteRef(d.projeto) then [IncompleteProject] else [])
  }

  function Alerts(d: Summary): seq<Alert>
  {
    if d.totalGeral.Some? && d.totalGeral.value <= 0.0 then [NoCosts] else []
  }

  /** An error for exactly the items with a non-positive quantity, naming each one's code. */
  lemma {:induction false} QuantityErrorsSpec(items: seq<B.BudgetItem>)
    ensures |QuantityErrors(items)| <= |items|
    ensures forall e :: e in QuantityErrors(items) <==>
              exists i :: 0 <= i < |items| && items[i].quantidade <= 0.0 && e == InvalidQuantity(items[i].codigo, items[i].quantidade)
    ensures QuantityErrors(items) == [] <==> forall i :: 0 <= i < |items| ==> items[i].quantidade > 0.0
  {
    if items != [] {
      var init := items[..|items| - 1];
      QuantityErrorsSpec(init);
      assert forall i :: 0 <= i < |init| ==> init[i] == items[i];
      var last := items[|items| - 1];
      if last.quantidade <= 0.0 {
        assert InvalidQuantity(last.codigo, last.quantidade) in QuantityErrors(items);
      }
    }
  }

  /** The errors of two runs of items are those of the first run followed by those of the
      second: errors keep item order. */
  lemma {:induction false} QuantityErrorsConcat(a: seq<B.BudgetItem>, b: seq<B.BudgetItem>)
    ensures QuantityErrors(a + b) == QuantityErrors(a) + QuantityErrors(b)
    decreases |b|
  {
    if b == [] {
      assert a + b == a;
    } else {
      assert (a + b)[..|a + b| - 1] == a + b[..|b| - 1];
      QuantityErrorsConcat(a, b[..|b| - 1]);
    }
  }

  /** One item raises exactly one error, naming its code and quantity, when its quantity is
      not positive, and none otherwise. */
  lemma QuantityErrorsSingle(it: B.BudgetItem)
    ensures QuantityErrors([it]) == if it.quantidade <= 0.0 then [InvalidQuantity(it.codigo, it.quantidade)] else []
  {
    assert [it][..0] == [];
  }

  /** The project is valid exactly when it has items, every item has a positive quantity,
      and the project reference is complete; the cost alert is raised or not independently. */
  lemma ValidIff(d: Summary)
    ensures Errors(d) == [] <==>
              && d.items.Some? && d.items.value != []
              && (forall i :: 0 <= i < |d.items.value| ==> d.items.value[i].quantidade > 0.0)
              && !IncompleteRef(d.projeto)
    ensures Alerts(d) == [NoCosts] <==> d.totalGeral.Some? && d.totalGeral.value <= 0.0
  {
    if d.items.Some? {
      QuantityErrorsSpec(d.items.value);
    }
  }

  /** `validarProjetoParaExportacao`. */
  method ValidarProjetoParaExportacao(d: Summary) returns (v: Validation)
    ensures v.erros == Errors(d) && v.alertas == Alerts(d)
    ensures v.valido <==> v.erros == []
  {
    var alertas: seq<Alert> := [];
    var erros: seq<ValidationError> := [];
    if d.items.None? || d.items.value == [] {
      erros := erros + [NoMaterials];
    }
    if d.totalGeral.Some? && d.totalGeral.value <= 0.0 {
      alertas := alertas + [NoCosts];
    }
    var head := erros;
    if d.items.Some? {
      var items := d.items.value;
      var i := 0;
      while i < |items|
        invariant 0 <= i <= |items|
        invariant erros == head + QuantityErrors(items[..i])
      {
        assert items[..i + 1][..i] == items[..i];
        if items[i].quantidade <= 0.0 {
          erros := erros + [InvalidQuantity(items[i].codigo, items[i].quantidade)];
        }
        i := i + 1;
      }
      assert items[..|items|] == items;
    }
    if IncompleteRef(d.projeto) {
      erros := erros + [IncompleteProject];
    }
    v := Validation(|erros| == 0, alertas, erros);
  }
}
