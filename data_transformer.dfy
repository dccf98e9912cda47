/** DataTransformer: shaping of consolidated materials for the spreadsheet export, the
    character filter applied to text before it goes into a PDF, and the null case of the
    currency formatter. */
module DataTransformer {
  import opened Common
  import Text
  import Numbers

  /** A character `cleanString` keeps: printable ASCII (0x20 to 0x7E) or white space. */
  predicate Kept(c: char)
  {
    (' ' <= c <= '~') || Text.IsSpace(c)
  }

  /** `str.replace(/[^\x20-\x7E\s]/g, '')`: every other character is removed. */
  function Filter(s: string): string
  {
    if s == [] then [] else (if Kept(s[0]) then [s[0]] else []) + Filter(s[1..])
  }

  /** `cleanString(str)`; None stands for null or undefined. */
  function CleanString(str: Option<string>): string
  {
    if str.None? || str.value == "" then "" else Filter(str.value)
  }

  /** `a` is `b` with some characters removed. */
  predicate IsSubsequence(a: string, b: string)
    decreases |b|
  {
    if a == [] then true
    else if b == [] then false
    else if a[0] == b[0] then IsSubsequence(a[1..], b[1..])
    else IsSubsequence(a, b[1..])
  }

  /** Only kept characters survive, and they are the input's own, in order. */
  lemma {:induction false} FilterSpec(s: string)
    ensures forall i :: 0 <= i < |Filter(s)| ==> Kept(Filter(s)[i])
    ensures IsSubsequence(Filter(s), s)
    ensures |Filter(s)| <= |s|
  {
    if s != [] {
      FilterSpec(s[1..]);
      var rest := Filter(s[1..]);
      if Kept(s[0]) {
        assert Filter(s) == [s[0]] + rest;
        assert Filter(s)[1..] == rest;
      } else {
        assert Filter(s) == rest;
        if rest != [] {
          assert Kept(rest[0]);
        }
      }
    }
  }

  /** The filter works character by character: the text of two pieces one after the other
      filters to the filtered pieces one after the other, so a kept character survives
      wherever it stands, and in its place. */
  lemma {:induction false} FilterConcat(a: string, b: string)
    ensures Filter(a + b) == Filter(a) + Filter(b)
  {
    if a == [] {
      assert a + b == b;
    } else {
      var head := if Kept(a[0]) then [a[0]] else [];
      assert (a + b)[0] == a[0];
      assert (a + b)[1..] == a[1..] + b;
      assert Filter(a + b) == head + Filter(a[1..] + b);
      assert Filter(a) == head + Filter(a[1..]);
      FilterConcat(a[1..], b);
      assert head + (Filter(a[1..]) + Filter(b)) == (head + Filter(a[1..])) + Filter(b);
    }
  }

  /** One character is kept exactly when it is printable ASCII or white space. */
  lemma FilterSingle(c: char)
    ensures Filter([c]) == if Kept(c) then [c] else []
  {
  }

  /** Input made only of kept characters is returned unchanged. */
  lemma {:induction false} FilterKeepsClean(s: string)
    requires forall i :: 0 <= i < |s| ==> Kept(s[i])
    ensures Filter(s) == s
  {
    if s != [] {
      FilterKeepsClean(s[1..]);
      assert [s[0]] + s[1..] == s;
    }
  }

  /** `cleanString` of null or the empty text is empty; a text of kept characters is
      returned unchanged; the output only holds kept characters of the input, in order; and
      every kept character of the input survives in its place, between the filtered text
      before it and the filtered text after it. */
  lemma CleanStringSpec(str: Option<string>)
    ensures str.None? || str.value == "" ==> CleanString(str) == ""
    ensures str.Some? && (forall i :: 0 <= i < |str.value| ==> Kept(str.value[i])) ==> CleanString(str) == str.value
    ensures forall i :: 0 <= i < |CleanString(str)| ==> Kept(CleanString(str)[i])
    ensures str.Some? ==> IsSubsequence(CleanString(str), str.value)
    ensures str.Some? ==> forall k :: 0 <= k < |str.value| && Kept(str.value[k]) ==>
              CleanString(str) == Filter(str.value[..k]) + [str.value[k]] + Filter(str.value[k + 1..])
  {
    if str.Some? {
      var s := str.value;
      forall k | 0 <= k < |s| && Kept(s[k])
        ensures CleanString(str) == Filter(s[..k]) + [s[k]] + Filter(s[k + 1..])
      {
        assert s == s[..k] + ([s[k]] + s[k + 1..]);
        FilterConcat(s[..k], [s[k]] + s[k + 1..]);
        FilterConcat([s[k]], s[k + 1..]);
        FilterSingle(s[k]);
      }
      FilterSpec(str.value);
      if forall i :: 0 <= i < |str.value| ==> Kept(str.value[i]) {
        FilterKeepsClean(str.value);
      }
    }
  }

  /** Cleaning twice is cleaning once. */
  lemma CleanStringIdempotent(str: Option<string>)
    ensures CleanString(Some(CleanString(str))) == CleanString(str)
  {
    CleanStringSpec(str);
    if CleanString(str) != "" {
      FilterKeepsClean(CleanString(str));
    }
  }

  /** A material as the export receives it; a field the record lacks is None. */
  datatype ExportSource = ExportSource(codigo: string, item: string, quantidade: real,
                                       unidade: Option<string>, precoUnitario: Option<real>)

  /** One spreadsheet row. */
  datatype ExportRow = ExportRow(codigo: string, descricao: string, quantidade: real,
                                 unidade: string, precoUnitario: real, subtotal: string)

  /** `m.unidade || 'UN'`. */
  function UnitOrDefault(unidade: Option<string>): string
  {
    if unidade.Some? && unidade.value != "" then unidade.value else "UN"
  }

  /** `m.precoUnitario || 0`. */
  function PriceOrZero(preco: Option<real>): real
  {
    if preco.Some? && preco.value != 0.0 then preco.value else 0.0
  }

  function ExportRowOf(m: ExportSource): ExportRow
  {
    var p := PriceOrZero(m.precoUnitario);
    ExportRow(m.codigo, m.item, m.quantidade, UnitOrDefault(m.unidade), p, Numbers.ToFixed2(Numbers.Cost(m.quantidade, p)))
  }

  /** `transformMaterialsForExport`. */
  function TransformMaterialsForExport(materials: seq<ExportSource>): seq<ExportRow>
  {
    if materials == [] then [] else [ExportRowOf(materials[0])] + TransformMaterialsForExport(materials[1..])
  }

  /** One row per material, in the same order. */
  lemma {:induction false} TransformPointwise(materials: seq<ExportSource>)
    ensures |TransformMaterialsForExport(materials)| == |materials|
    ensures forall i :: 0 <= i < |materials| ==> TransformMaterialsForExport(materials)[i] == ExportRowOf(materials[i])
  {
    if materials != [] {
      TransformPointwise(materials[1..]);
      assert forall i :: 1 <= i < |materials| ==> materials[1..][i - 1] == materials[i];
    }
  }

  /** A row copies code, description and quantity, defaults the unit to "UN" and the
      price to 0, and its subtotal text reads back as the cost rounded to two decimals,
      the amount the budget computes for the same line. */
  lemma ExportRowSpec(m: ExportSource)
    ensures var r := ExportRowOf(m);
            && r.codigo == m.codigo && r.descricao == m.item && r.quantidade == m.quantidade
            && (r.unidade == "UN" <==> m.unidade.None? || m.unidade.value == "" || m.unidade.value == "UN")
            && (m.unidade.Some? && m.unidade.value != "" ==> r.unidade == m.unidade.value)
            && (m.precoUnitario.None? ==> r.precoUnitario == 0.0)
            && (m.precoUnitario.Some? ==> r.precoUnitario == m.precoUnitario.value)
            && Numbers.ParseFloat(r.subtotal) == Some(Numbers.Round2(Numbers.Cost(m.quantidade, r.precoUnitario)))
  {
    SubtotalReadsBack(m.quantidade, PriceOrZero(m.precoUnitario));
  }

  /** The subtotal text of a line reads back as its cost rounded to two decimals. */
  lemma SubtotalReadsBack(q: real, p: real)
    ensures Numbers.ParseFloat(Numbers.ToFixed2(Numbers.Cost(q, p))) == Some(Numbers.Round2(Numbers.Cost(q, p)))
  {
    Numbers.ParseToFixed2(Numbers.Cost(q, p));
  }

  /** The result of `formatCurrency`: a fixed text, or the locale formatter's rendering of
      a number. */
  datatype Formatted = Fixed(text: string) | LocaleFormatted(value: real)

  /** `formatCurrency`; None stands for null or undefined. */
  function FormatCurrency(value: Option<real>): (f: Formatted)
    ensures value.None? <==> f == Fixed("R$ 0,00")
    ensures value.Some? ==> f == LocaleFormatted(value.value)
  {
    if value.None? then Fixed("R$ 0,00") else LocaleFormatted(value.value)
  }
}
