/** AuditService: technical audit of a project. A long span whose calculation lists no
    materials and a voltage drop above 5% are reported as issues. */
module AuditService {
  import opened Common
  import R = ReportingService

  /** A traction calculation: its id, the span (None when null) and the raw `materiais` text
      (None when null). */
  datatype TractionCalc = TractionCalc(id: int, vao: Option<real>, materiais: Option<string>)

  datatype TensionCalc = TensionCalc(id: int, quedaPercentual: real)

  datatype Rule = MissingStructureLongSpan | CriticalVoltageDrop
  datatype Severity = High | Medium
  datatype EntityType = Tracao | Tensao

  datatype Issue = Issue(rule: Rule, severity: Severity, title: string, entityId: int, entityType: EntityType)

  datatype AuditReport = AuditReport(timestamp: string, totalIssues: nat, issues: seq<Issue>)

  const ProjectNotFound: string := "Projeto n\U{00E3}o encontrado."
  const SpanLimit: real := 50.0
  const DropLimit: real := 5.0

  function RuleName(r: Rule): string
  {
    match r
    case MissingStructureLongSpan => "MISSING_STRUCTURE_LONG_SPAN"
    case CriticalVoltageDrop => "CRITICAL_VOLTAGE_DROP"
  }

  function SeverityName(s: Severity): string
  {
    match s
    case High => "HIGH"
    case Medium => "MEDIUM"
  }

  function EntityTypeName(t: EntityType): string
  {
    match t
    case Tracao => "TRACAO"
    case Tensao => "TENSAO"
  }

  /** `calc.vao || 0`. */
  function SpanLength(c: TractionCalc): real
  {
    if c.vao.Some? then c.vao.value else 0.0
  }

  /** The materials text is neither null, "" nor "[]". */
  predicate HasMaterials(c: TractionCalc)
  {
    c.materiais.Some? && c.materiais.value != "[]" && c.materiais.value != ""
  }

  predicate LongSpanWithoutMaterials(c: TractionCalc)
  {
    SpanLength(c) > SpanLimit && !HasMaterials(c)
  }

  function SpanIssue(c: TractionCalc): Issue
  {
    Issue(MissingStructureLongSpan, High, "V\U{00E3}o Cr\U{00ED}tico Sem Estrutura", c.id, Tracao)
  }

  function VoltageIssue(c: TensionCalc): Issue
  {
    Issue(CriticalVoltageDrop, Medium, "Viola\U{00E7}\U{00E3}o de Norma de Tens\U{00E3}o", c.id, Tensao)
  }

  /** The span issues, in calculation order. */
  function SpanIssues(calcs: seq<TractionCalc>): seq<Issue>
  {
    if calcs == [] then []
    else
      var last := calcs[|calcs| - 1];
      SpanIssues(calcs[..|calcs| - 1]) + (if LongSpanWithoutMaterials(last) then [SpanIssue(last)] else [])
  }

  /** The voltage issues, in calculation order. */
  function VoltageIssues(calcs: seq<TensionCalc>): seq<Issue>
  {
    if calcs == [] then []
    else
      var last := calcs[|calcs| - 1];
      VoltageIssues(calcs[..|calcs| - 1]) + (if last.quedaPercentual > DropLimit then [VoltageIssue(last)] else [])
  }

  /** `auditProject`; the clock reading is a parameter. */
  function Audit(project: Option<R.Project>, tracao: seq<TractionCalc>, tensao: seq<TensionCalc>, now: string): Result<AuditReport, string>
  {
    if project.None? then Err(ProjectNotFound)
    else
      var issues := SpanIssues(tracao) + VoltageIssues(tensao);
      Ok(AuditReport(now, |issues|, issues))
  }

  /** A span issue is raised for exactly the calculations with a span above 50 and no
      materials, at most one per calculation, each with rule MISSING_STRUCTURE_LONG_SPAN,
      severity HIGH and the calculation's id. */
  lemma {:induction false} SpanIssuesSpec(calcs: seq<TractionCalc>)
    ensures |SpanIssues(calcs)| <= |calcs|
    ensures forall i :: 0 <= i < |calcs| && LongSpanWithoutMaterials(calcs[i]) ==> SpanIssue(calcs[i]) in SpanIssues(calcs)
    ensures forall x :: x in SpanIssues(calcs) ==> exists i :: 0 <= i < |calcs| && LongSpanWithoutMaterials(calcs[i]) && x == SpanIssue(calcs[i])
    ensures forall x :: x in SpanIssues(calcs) ==> x.rule == MissingStructureLongSpan && x.severity == High && x.entityType == Tracao
  {
    if calcs != [] {
      var init := calcs[..|calcs| - 1];
      SpanIssuesSpec(init);
      assert forall i :: 0 <= i < |init| ==> init[i] == calcs[i];
    }
  }

  /** A voltage issue is raised for exactly the calculations whose drop exceeds 5%, at most
      one per calculation, each with rule CRITICAL_VOLTAGE_DROP and severity MEDIUM. */
  lemma {:induction false} VoltageIssuesSpec(calcs: seq<TensionCalc>)
    ensures |VoltageIssues(calcs)| <= |calcs|
    ensures forall i :: 0 <= i < |calcs| && calcs[i].quedaPercentual > DropLimit ==> VoltageIssue(calcs[i]) in VoltageIssues(calcs)
    ensures forall x :: x in VoltageIssues(calcs) ==> exists i :: 0 <= i < |calcs| && calcs[i].quedaPercentual > DropLimit && x == VoltageIssue(calcs[i])
    ensures forall x :: x in VoltageIssues(calcs) ==> x.rule == CriticalVoltageDrop && x.severity == Medium && x.entityType == Tensao
  {
    if calcs != [] {
      var init := calcs[..|calcs| - 1];
      VoltageIssuesSpec(init);
      assert forall i :: 0 <= i < |init| ==> init[i] == calcs[i];
    }
  }

  /** The span issues of two runs of calculations are those of the first run followed by
      those of the second: issues keep calculation order. */
  lemma {:induction false} SpanIssuesConcat(a: seq<TractionCalc>, b: seq<TractionCalc>)
    ensures SpanIssues(a + b) == SpanIssues(a) + SpanIssues(b)
    decreases |b|
  {
    if b == [] {
      assert a + b == a;
    } else {
      assert (a + b)[..|a + b| - 1] == a + b[..|b| - 1];
      SpanIssuesConcat(a, b[..|b| - 1]);
    }
  }

  /** One calculation raises exactly one span issue when it is a long span without
      materials, and none otherwise. */
  lemma SpanIssuesSingle(c: TractionCalc)
    ensures SpanIssues([c]) == if LongSpanWithoutMaterials(c) then [SpanIssue(c)] else []
  {
    assert [c][..0] == [];
  }

  /** The voltage issues of two runs of calculations are those of the first run followed by
      those of the second. */
  lemma {:induction false} VoltageIssuesConcat(a: seq<TensionCalc>, b: seq<TensionCalc>)
    ensures VoltageIssues(a + b) == VoltageIssues(a) + VoltageIssues(b)
    decreases |b|
  {
    if b == [] {
      assert a + b == a;
    } else {
      assert (a + b)[..|a + b| - 1] == a + b[..|b| - 1];
      VoltageIssuesConcat(a, b[..|b| - 1]);
    }
  }

  /** One calculation raises exactly one voltage issue when its drop exceeds 5%, and none
      otherwise. */
  lemma VoltageIssuesSingle(c: TensionCalc)
    ensures VoltageIssues([c]) == if c.quedaPercentual > DropLimit then [VoltageIssue(c)] else []
  {
    assert [c][..0] == [];
  }

  /** An unknown project is an error; otherwise `totalIssues` counts the issues, span issues
      come first and voltage issues after them. */
  lemma AuditSpec(project: Option<R.Project>, tracao: seq<TractionCalc>, tensao: seq<TensionCalc>, now: string)
    ensures project.None? <==> Audit(project, tracao, tensao, now).Err?
    ensures project.None? ==> Audit(project, tracao, tensao, now).error == ProjectNotFound
    ensures project.Some? ==>
              var a := Audit(project, tracao, tensao, now).value;
              var n := |SpanIssues(tracao)|;
              && a.timestamp == now
              && a.totalIssues == |a.issues| <= |tracao| + |tensao|
              && (forall k :: 0 <= k < n ==> a.issues[k].entityType == Tracao)
              && (forall k :: n <= k < |a.issues| ==> a.issues[k].entityType == Tensao)
  {
    if project.Some? {
      SpanIssuesSpec(tracao);
      VoltageIssuesSpec(tensao);
      IssuesInOrder(SpanIssues(tracao), VoltageIssues(tensao));
    }
  }

  /** In the concatenation of traction issues and tension issues, the first block is all
      traction issues and the rest all tension issues. */
  lemma IssuesInOrder(s: seq<Issue>, v: seq<Issue>)
    requires forall x :: x in s ==> x.entityType == Tracao
    requires forall x :: x in v ==> x.entityType == Tensao
    ensures forall k :: 0 <= k < |s| ==> (s + v)[k].entityType == Tracao
    ensures forall k :: |s| <= k < |s + v| ==> (s + v)[k].entityType == Tensao
  {
    forall k | 0 <= k < |s| ensures (s + v)[k].entityType == Tracao {
      assert (s + v)[k] == s[k] && s[k] in s;
    }
    forall k | |s| <= k < |s + v| ensures (s + v)[k].entityType == Tensao {
      assert (s + v)[k] == v[k - |s|] && v[k - |s|] in v;
    }
  }

  /** `auditProject` given the project lookup, the two calculation lists and the clock. */
  method AuditProject(project: Option<R.Project>, tracao: seq<TractionCalc>, tensao: seq<TensionCalc>, now: string)
    returns (r: Result<AuditReport, string>)
    ensures r == Audit(project, tracao, tensao, now)
  {
    if project.None? {
      return Err(ProjectNotFound);
    }
    var inconsistencies: seq<Issue> := [];
    var i := 0;
    while i < |tracao|
      invariant 0 <= i <= |tracao|
      invariant inconsistencies == SpanIssues(tracao[..i])
    {
      assert tracao[..i + 1][..i] == tracao[..i];
      var c := tracao[i];
      if SpanLength(c) > SpanLimit && !HasMaterials(c) {
        inconsistencies := inconsistencies + [SpanIssue(c)];
      }
      i := i + 1;
    }
    assert tracao[..|tracao|] == tracao;
    var spans := inconsistencies;
    var j := 0;
    while j < |tensao|
      invariant 0 <= j <= |tensao|
      invariant inconsistencies == spans + VoltageIssues(tensao[..j])
    {
      assert tensao[..j + 1][..j] == tensao[..j];
      var c := tensao[j];
      if c.quedaPercentual > DropLimit {
        inconsistencies := inconsistencies + [VoltageIssue(c)];
      }
      j := j + 1;
    }
    assert tensao[..|tensao|] == tensao;
    return Ok(AuditReport(now, |inconsistencies|, inconsistencies));
  }
}
