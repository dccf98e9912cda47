/** ReportingService: the consolidated bill of materials of a project. Every traction
    calculation of the project stores the materials of its kit; the report merges them by
    material code, summing quantities, and sorts the result by description. */
module ReportingService {
  import opened Common

  /** One element of a stored materials array. */
  datatype BundleItem = BundleItem(codigo: string, item: string, quantidade: real)

  /** The `materiais` column of a calculation as the report sees it: absent (null or the
      empty text), text that does not parse as JSON, JSON that is not an array, or an array. */
  datatype Bundle = NoMaterials | Malformed | NotArray | Items(items: seq<BundleItem>)

  datatype TractionCalc = TractionCalc(id: int, materiais: Bundle)

  datatype Project = Project(id: int, nome: string)

  /** One line of the consolidated list. */
  datatype Consolidated = Consolidated(codigo: string, item: string, quantidade: real, unidade: string)

  datatype Report = Report(projeto: Project, totalCalculos: nat, materiaisConsolidados: seq<Consolidated>)

  const Unit: string := "UN"
  const ProjectNotFound: string := "Projeto n\U{00E3}o encontrado."

  /** The items a calculation contributes; skipped bundles contribute none. */
  function BundleItems(b: Bundle): seq<BundleItem>
  {
    if b.Items? then b.items else []
  }

  /** The items of all calculations, in calculation order. */
  function AllItems(calcs: seq<TractionCalc>): seq<BundleItem>
  {
    if calcs == [] then [] else AllItems(calcs[..|calcs| - 1]) + BundleItems(calcs[|calcs| - 1].materiais)
  }

  /** The position of the entry for code `c` in the aggregation map, if any. */
  function FindCode(acc: seq<Consolidated>, c: string): (p: Option<nat>)
    ensures p.None? <==> forall i :: 0 <= i < |acc| ==> acc[i].codigo != c
    ensures p.Some? ==> p.value < |acc| && acc[p.value].codigo == c
    ensures p.Some? ==> forall i :: 0 <= i < p.value ==> acc[i].codigo != c
  {
    if acc == [] then None
    else if acc[0].codigo == c then Some(0)
    else
      match FindCode(acc[1..], c)
      case None => None
      case Some(p) => Some(p + 1)
  }

  /** One step of the aggregation: an existing entry for the code adds the quantity, a new
      code gets an entry with the item's description and unit "UN", placed last. */
  function Add(acc: seq<Consolidated>, it: BundleItem): seq<Consolidated>
  {
    match FindCode(acc, it.codigo)
    case Some(p) => acc[p := acc[p].(quantidade := acc[p].quantidade + it.quantidade)]
    case None => acc + [Consolidated(it.codigo, it.item, it.quantidade, Unit)]
  }

  /** The aggregation map after adding `items` in order to `acc`. */
  function AddAll(acc: seq<Consolidated>, items: seq<BundleItem>): seq<Consolidated>
  {
    if items == [] then acc else Add(AddAll(acc, items[..|items| - 1]), items[|items| - 1])
  }

  /** Reference: the total quantity of code `c` over `items`. */
  function SumFor(items: seq<BundleItem>, c: string): real
  {
    if items == [] then 0.0
    else SumFor(items[..|items| - 1], c) + (if items[|items| - 1].codigo == c then items[|items| - 1].quantidade else 0.0)
  }

  /** Reference: the first item of `items` with code `c`. */
  function FirstWith(items: seq<BundleItem>, c: string): Option<BundleItem>
  {
    if items == [] then None
    else
      match FirstWith(items[..|items| - 1], c)
      case Some(it) => Some(it)
      case None => if items[|items| - 1].codigo == c then Some(items[|items| - 1]) else None
  }

  /** Adding items in two runs is adding them in one. */
  lemma {:induction false} AddAllConcat(acc: seq<Consolidated>, a: seq<BundleItem>, b: seq<BundleItem>)
    ensures AddAll(acc, a + b) == AddAll(AddAll(acc, a), b)
    decreases |b|
  {
    if b == [] {
      assert a + b == a;
    } else {
      assert (a + b)[..|a + b| - 1] == a + b[..|b| - 1];
      AddAllConcat(acc, a, b[..|b| - 1]);
    }
  }

  /** A code absent from the items has total 0 and no first item. */
  lemma {:induction false} SumForAbsent(items: seq<BundleItem>, c: string)
    requires FirstWith(items, c).None?
    ensures SumFor(items, c) == 0.0
  {
    if items != [] {
      SumForAbsent(items[..|items| - 1], c);
    }
  }

  /** Totals add up over concatenation, so they do not depend on the order of the
      calculations. */
  lemma {:induction false} SumForConcat(a: seq<BundleItem>, b: seq<BundleItem>, c: string)
    ensures SumFor(a + b, c) == SumFor(a, c) + SumFor(b, c)
    decreases |b|
  {
    if b == [] {
      assert a + b == a;
    } else {
      assert (a + b)[..|a + b| - 1] == a + b[..|b| - 1];
      SumForConcat(a, b[..|b| - 1], c);
    }
  }

  lemma SumForSwap(a: seq<BundleItem>, b: seq<BundleItem>, c: string)
    ensures SumFor(a + b, c) == SumFor(b + a, c)
  {
    SumForConcat(a, b, c);
    SumForConcat(b, a, c);
  }

  /** A sequence is its part before position `k`, the element at `k` and the part after. */
  lemma SplitAt<T>(s: seq<T>, k: nat)
    requires k < |s|
    ensures s == s[..k] + ([s[k]] + s[k + 1..])
    ensures multiset(s) == multiset(s[..k] + s[k + 1..]) + multiset{s[k]}
  {
    assert s == s[..k] + ([s[k]] + s[k + 1..]);
  }

  /** One copy of the same element can be taken off both sides of an equation of multisets. */
  lemma MultisetCancel<T>(m: multiset<T>, n: multiset<T>, x: T)
    requires m + multiset{x} == n + multiset{x}
    ensures m == n
  {
    assert m == (m + multiset{x}) - multiset{x};
    assert n == (n + multiset{x}) - multiset{x};
  }

  /** A non-empty sequence is its front and its last element. */
  lemma SplitLast<T>(s: seq<T>)
    requires s != []
    ensures s == s[..|s| - 1] + [s[|s| - 1]]
    ensures multiset(s) == multiset(s[..|s| - 1]) + multiset{s[|s| - 1]}
  {
    assert s == s[..|s| - 1] + [s[|s| - 1]];
  }

  /** Taking one item out of the middle takes its quantity out of the total. */
  lemma SumForAround(pre: seq<BundleItem>, x: BundleItem, post: seq<BundleItem>, c: string)
    ensures SumFor(pre + ([x] + post), c) == SumFor(pre + post, c) + SumFor([x], c)
  {
    SumForConcat(pre, [x] + post, c);
    SumForConcat([x], post, c);
    SumForConcat(pre, post, c);
  }

  /** The total of a code depends only on which items there are, not on their order. */
  lemma {:induction false} SumForPerm(a: seq<BundleItem>, b: seq<BundleItem>, c: string)
    requires multiset(a) == multiset(b)
    ensures SumFor(a, c) == SumFor(b, c)
    decreases |a|
  {
    if a == [] {
      assert |b| == |multiset(b)| == 0;
    } else {
      SplitLast(a);
      var x, init := a[|a| - 1], a[..|a| - 1];
      assert x in multiset(b);
      var k :| 0 <= k < |b| && b[k] == x;
      SplitAt(b, k);
      var rest := b[..k] + b[k + 1..];
      MultisetCancel(multiset(init), multiset(rest), x);
      SumForPerm(init, rest, c);
      SumForAround(b[..k], x, b[k + 1..], c);
      SumForConcat(init, [x], c);
    }
  }

  /** Items of two runs of calculations are those of the first run followed by those of
      the second. */
  lemma {:induction false} AllItemsConcat(a: seq<TractionCalc>, b: seq<TractionCalc>)
    ensures AllItems(a + b) == AllItems(a) + AllItems(b)
    decreases |b|
  {
    if b == [] {
      assert a + b == a;
    } else {
      assert (a + b)[..|a + b| - 1] == a + b[..|b| - 1];
      AllItemsConcat(a, b[..|b| - 1]);
    }
  }

  /** Taking one calculation out of the middle takes its items out of the whole. */
  lemma AllItemsAround(pre: seq<TractionCalc>, x: TractionCalc, post: seq<TractionCalc>)
    ensures multiset(AllItems(pre + ([x] + post))) == multiset(AllItems(pre + post)) + multiset(AllItems([x]))
  {
    AllItemsConcat(pre, [x] + post);
    AllItemsConcat([x], post);
    AllItemsConcat(pre, post);
  }

  /** Reordering the calculations reorders their items. */
  lemma {:induction false} AllItemsPerm(p: seq<TractionCalc>, q: seq<TractionCalc>)
    requires multiset(p) == multiset(q)
    ensures multiset(AllItems(p)) == multiset(AllItems(q))
    decreases |p|
  {
    if p == [] {
      assert |q| == |multiset(q)| == 0;
    } else {
      SplitLast(p);
      var x, init := p[|p| - 1], p[..|p| - 1];
      assert x in multiset(q);
      var k :| 0 <= k < |q| && q[k] == x;
      SplitAt(q, k);
      var rest := q[..k] + q[k + 1..];
      MultisetCancel(multiset(init), multiset(rest), x);
      AllItemsPerm(init, rest);
      AllItemsAround(q[..k], x, q[k + 1..]);
      AllItemsConcat(init, [x]);
    }
  }

  /** The total quantity of a code over a project's calculations does not depend on the
      order in which the calculations are read. */
  lemma CalculationOrderIrrelevant(p: seq<TractionCalc>, q: seq<TractionCalc>, c: string)
    requires multiset(p) == multiset(q)
    ensures SumFor(AllItems(p), c) == SumFor(AllItems(q), c)
  {
    AllItemsPerm(p, q);
    SumForPerm(AllItems(p), AllItems(q), c);
  }

  /** Changing an entry's quantity keeps every code where it was. */
  lemma FindCodeAfterUpdate(acc: seq<Consolidated>, p: nat, q: real, c: string)
    requires p < |acc|
    ensures FindCode(acc[p := acc[p].(quantidade := q)], c) == FindCode(acc, c)
  {
    var r := acc[p := acc[p].(quantidade := q)];
    assert forall i :: 0 <= i < |acc| ==> r[i].codigo == acc[i].codigo;
    var fa := FindCode(acc, c);
    var fr := FindCode(r, c);
    if fa.Some? && fr.Some? {
      assert !(fa.value < fr.value) && !(fr.value < fa.value);
    }
  }

  /** Appending an entry for a new code keeps every other code where it was and finds the
      new one last. */
  lemma FindCodeAfterAppend(acc: seq<Consolidated>, e: Consolidated, c: string)
    requires FindCode(acc, e.codigo).None?
    ensures FindCode(acc + [e], c) == if c == e.codigo then Some(|acc|) else FindCode(acc, c)
  {
    var r := acc + [e];
    assert forall i :: 0 <= i < |acc| ==> r[i] == acc[i];
    assert r[|acc|] == e;
    var fa := FindCode(acc, c);
    var fr := FindCode(r, c);
    if fa.Some? {
      assert fr.Some? && !(fa.value < fr.value) && !(fr.value < fa.value);
    } else if c == e.codigo {
      assert fr.Some?;
    } else {
      assert fr.None?;
    }
  }

  /** An item whose code has an entry adds its quantity to that entry. */
  lemma AddExisting(acc: seq<Consolidated>, x: BundleItem)
    requires FindCode(acc, x.codigo).Some?
    ensures FindCode(Add(acc, x), x.codigo) == FindCode(acc, x.codigo)
    ensures var p := FindCode(acc, x.codigo).value;
            Add(acc, x)[p] == acc[p].(quantidade := acc[p].quantidade + x.quantidade)
  {
    var p := FindCode(acc, x.codigo).value;
    var e := acc[p].(quantidade := acc[p].quantidade + x.quantidade);
    assert Add(acc, x) == acc[p := e];
    FindCodeAfterUpdate(acc, p, e.quantidade, x.codigo);
  }

  /** An item with a new code gets a new entry of its own. */
  lemma AddNew(acc: seq<Consolidated>, x: BundleItem)
    requires FindCode(acc, x.codigo).None?
    ensures FindCode(Add(acc, x), x.codigo) == Some(|acc|)
    ensures Add(acc, x)[|acc|] == Consolidated(x.codigo, x.item, x.quantidade, Unit)
  {
    FindCodeAfterAppend(acc, Consolidated(x.codigo, x.item, x.quantidade, Unit), x.codigo);
  }

  /** An item leaves the entries of other codes alone. */
  lemma AddOther(acc: seq<Consolidated>, x: BundleItem, c: string)
    requires x.codigo != c
    ensures FindCode(Add(acc, x), c) == FindCode(acc, c)
    ensures FindCode(acc, c).Some? ==> Add(acc, x)[FindCode(acc, c).value] == acc[FindCode(acc, c).value]
  {
    match FindCode(acc, x.codigo)
    case Some(p) =>
      var e := acc[p].(quantidade := acc[p].quantidade + x.quantidade);
      assert Add(acc, x) == acc[p := e];
      FindCodeAfterUpdate(acc, p, e.quantidade, c);
      if FindCode(acc, c).Some? {
        assert FindCode(acc, c).value != p;
      }
    case None =>
      var e := Consolidated(x.codigo, x.item, x.quantidade, Unit);
      assert Add(acc, x) == acc + [e];
      FindCodeAfterAppend(acc, e, c);
      if FindCode(acc, c).Some? {
        assert (acc + [e])[FindCode(acc, c).value] == acc[FindCode(acc, c).value];
      }
  }

  /** The entry for code `c` after aggregating `items`, when `c` occurs: the code, the first
      description seen for it, its total quantity and the unit "UN"; no entry when it does
      not occur. */
  lemma {:induction false} AddAllEntry(items: seq<BundleItem>, c: string)
    ensures FindCode(AddAll([], items), c).Some? <==> FirstWith(items, c).Some?
    ensures FindCode(AddAll([], items), c).Some? ==>
              AddAll([], items)[FindCode(AddAll([], items), c).value]
                == Consolidated(c, FirstWith(items, c).value.item, SumFor(items, c), Unit)
  {
    if items != [] {
      var init := items[..|items| - 1];
      var x := items[|items| - 1];
      var acc := AddAll([], init);
      AddAllEntry(init, c);
      if x.codigo != c {
        AddOther(acc, x, c);
      } else if FindCode(acc, c).Some? {
        AddExisting(acc, x);
      } else {
        AddNew(acc, x);
        SumForAbsent(init, c);
      }
    }
  }

  /** The aggregation map has at most one entry per code. */
  lemma {:induction false} AddAllDistinct(items: seq<BundleItem>)
    ensures forall i, j :: 0 <= i < j < |AddAll([], items)| ==> AddAll([], items)[i].codigo != AddAll([], items)[j].codigo
  {
    if items != [] {
      var init := items[..|items| - 1];
      var x := items[|items| - 1];
      var acc := AddAll([], init);
      AddAllDistinct(init);
      match FindCode(acc, x.codigo)
      case Some(p) =>
        var r := Add(acc, x);
        assert forall i :: 0 <= i < |acc| ==> r[i].codigo == acc[i].codigo;
      case None =>
    }
  }

  /** `a.item.localeCompare(b.item) <= 0`, as an abstract comparison on descriptions: total
      and transitive. */
  ghost predicate TotalPreorder(le: (string, string) -> bool)
  {
    && (forall a, b :: le(a, b) || le(b, a))
    && (forall a, b, c :: le(a, b) && le(b, c) ==> le(a, c))
  }

  predicate SortedByItem(le: (string, string) -> bool, s: seq<Consolidated>)
  {
    forall i, j :: 0 <= i < j < |s| ==> le(s[i].item, s[j].item)
  }

  /** Places `x` before the first entry it does not follow, so that among equal
      descriptions earlier entries stay first. */
  function InsertByItem(le: (string, string) -> bool, x: Consolidated, s: seq<Consolidated>): seq<Consolidated>
  {
    if s == [] then [x]
    else if le(x.item, s[0].item) then [x] + s
    else [s[0]] + InsertByItem(le, x, s[1..])
  }

  /** The array sort of the consolidated list, by description. */
  function SortByItem(le: (string, string) -> bool, s: seq<Consolidated>): seq<Consolidated>
  {
    if s == [] then [] else InsertByItem(le, s[0], SortByItem(le, s[1..]))
  }

  /** Inserting adds exactly `x`. */
  lemma {:induction false} InsertByItemPerm(le: (string, string) -> bool, x: Consolidated, s: seq<Consolidated>)
    ensures multiset(InsertByItem(le, x, s)) == multiset(s) + multiset{x}
  {
    if s != [] && !le(x.item, s[0].item) {
      InsertByItemPerm(le, x, s[1..]);
      assert s == [s[0]] + s[1..];
    }
  }

  /** A lower bound of `x` and of every entry of `s` bounds every entry of a permutation of
      `s` with `x` added. */
  lemma LowerBound(le: (string, string) -> bool, y: string, x: Consolidated, s: seq<Consolidated>, t: seq<Consolidated>)
    requires le(y, x.item) && forall k :: 0 <= k < |s| ==> le(y, s[k].item)
    requires multiset(t) == multiset(s) + multiset{x}
    ensures forall j :: 0 <= j < |t| ==> le(y, t[j].item)
  {
    forall j | 0 <= j < |t| ensures le(y, t[j].item) {
      assert t[j] in multiset(t);
      if t[j] != x {
        assert t[j] in multiset(s);
        var k :| 0 <= k < |s| && s[k] == t[j];
      }
    }
  }

  /** An entry below everything in a sorted list can go in front of it. */
  lemma SortedCons(le: (string, string) -> bool, y: Consolidated, t: seq<Consolidated>)
    requires SortedByItem(le, t) && forall j :: 0 <= j < |t| ==> le(y.item, t[j].item)
    ensures SortedByItem(le, [y] + t)
  {
    var u := [y] + t;
    forall i, j | 0 <= i < j < |u| ensures le(u[i].item, u[j].item) {
      assert u[j] == t[j - 1];
      if i > 0 {
        assert u[i] == t[i - 1];
      }
    }
  }

  lemma {:induction false} InsertByItemSpec(le: (string, string) -> bool, x: Consolidated, s: seq<Consolidated>)
    requires TotalPreorder(le) && SortedByItem(le, s)
    ensures multiset(InsertByItem(le, x, s)) == multiset(s) + multiset{x}
    ensures SortedByItem(le, InsertByItem(le, x, s))
  {
    InsertByItemPerm(le, x, s);
    if s != [] && !le(x.item, s[0].item) {
      var rest := s[1..];
      assert forall i :: 0 <= i < |rest| ==> rest[i] == s[i + 1];
      InsertByItemSpec(le, x, rest);
      var t := InsertByItem(le, x, rest);
      assert le(s[0].item, x.item);
      LowerBound(le, s[0].item, x, rest, t);
      SortedCons(le, s[0], t);
    } else if s != [] {
      assert forall j :: 0 < j < |s| ==> le(s[0].item, s[j].item);
      SortedCons(le, x, s);
    }
  }

  /** The sort returns a permutation of its input, in ascending order of description. */
  lemma {:induction false} SortByItemSpec(le: (string, string) -> bool, s: seq<Consolidated>)
    requires TotalPreorder(le)
    ensures multiset(SortByItem(le, s)) == multiset(s)
    ensures SortedByItem(le, SortByItem(le, s))
  {
    if s != [] {
      SortByItemSpec(le, s[1..]);
      InsertByItemSpec(le, s[0], SortByItem(le, s[1..]));
      assert s == [s[0]] + s[1..];
    }
  }

  /** `generateMaterialReport` given the project lookup and the project's calculations. */
  function MaterialReport(le: (string, string) -> bool, project: Option<Project>, calcs: seq<TractionCalc>): Result<Report, string>
  {
    match project
    case None => Err(ProjectNotFound)
    case Some(p) =>
      if calcs == [] then Ok(Report(p, 0, []))
      else Ok(Report(p, |calcs|, SortByItem(le, AddAll([], AllItems(calcs)))))
  }

  /** What the report promises: an unknown project is an error; otherwise `totalCalculos`
      counts every calculation, the lines are sorted by description and hold exactly one
      entry per code that some non-skipped bundle mentions, with the first description
      seen, the total quantity and the unit "UN". The early return for a project without
      calculations agrees with the general case. */
  lemma MaterialReportSpec(le: (string, string) -> bool, project: Option<Project>, calcs: seq<TractionCalc>, c: string)
    requires TotalPreorder(le)
    ensures project.None? <==> MaterialReport(le, project, calcs) == Err(ProjectNotFound)
    ensures project.Some? ==>
              var r := MaterialReport(le, project, calcs).value;
              var agg := AddAll([], AllItems(calcs));
              && r.projeto == project.value
              && r.totalCalculos == |calcs|
              && multiset(r.materiaisConsolidados) == multiset(agg)
              && SortedByItem(le, r.materiaisConsolidados)
              && (forall i, j :: 0 <= i < j < |agg| ==> agg[i].codigo != agg[j].codigo)
              && (FindCode(agg, c).Some? <==> FirstWith(AllItems(calcs), c).Some?)
              && (FindCode(agg, c).Some? ==>
                    agg[FindCode(agg, c).value] == Consolidated(c, FirstWith(AllItems(calcs), c).value.item, SumFor(AllItems(calcs), c), Unit))
  {
    SortByItemSpec(le, AddAll([], AllItems(calcs)));
    AddAllDistinct(AllItems(calcs));
    AddAllEntry(AllItems(calcs), c);
  }

  /** The inner loop: adds the items of one bundle to the aggregation map. */
  method AddBundle(acc0: seq<Consolidated>, items: seq<BundleItem>) returns (acc: seq<Consolidated>)
    ensures acc == AddAll(acc0, items)
  {
    acc := acc0;
    var j := 0;
    while j < |items|
      invariant 0 <= j <= |items|
      invariant acc == AddAll(acc0, items[..j])
    {
      assert items[..j + 1][..j] == items[..j];
      var item := items[j];
      var existing := FindCode(acc, item.codigo);
      if existing.Some? {
        var p := existing.value;
        acc := acc[p := acc[p].(quantidade := acc[p].quantidade + item.quantidade)];
      } else {
        acc := acc + [Consolidated(item.codigo, item.item, item.quantidade, Unit)];
      }
      j := j + 1;
    }
    assert items[..|items|] == items;
  }

  /** `generateMaterialReport`: the aggregation over all calculations, then the sort. */
  method GenerateMaterialReport(le: (string, string) -> bool, project: Option<Project>, calcs: seq<TractionCalc>)
    returns (r: Result<Report, string>)
    ensures r == MaterialReport(le, project, calcs)
  {
    if project.None? {
      return Err(ProjectNotFound);
    }
    if |calcs| == 0 {
      return Ok(Report(project.value, 0, []));
    }
    var acc: seq<Consolidated> := [];
    var i := 0;
    while i < |calcs|
      invariant 0 <= i <= |calcs|
      invariant acc == AddAll([], AllItems(calcs[..i]))
    {
      assert calcs[..i + 1][..i] == calcs[..i];
      var tc := calcs[i];
      if tc.materiais.Items? {
        AddAllConcat([], AllItems(calcs[..i]), tc.materiais.items);
        acc := AddBundle(acc, tc.materiais.items);
      } else {
        assert AllItems(calcs[..i]) + [] == AllItems(calcs[..i]);
      }
      i := i + 1;
    }
    assert calcs[..|calcs|] == calcs;
    return Ok(Report(project.value, |calcs|, SortByItem(le, acc)));
  }
}
