/** MaterialSyncService: rebuilds the `materiais` table from one kit catalogue file when its
    modification time differs from the one stored at the last rebuild. The file is first
    parsed into an index from kit name to the kit's items. */
module MaterialSyncService {
  import opened Common
  import Text
  import opened CsvRows
  import opened Catalog

  /** One entry of a kit's list: code, description and the quantity text. */
  datatype KitItem = KitItem(codigo: string, item: string, qtd: string)

  /** One property of the index object: a kit name and its list of items. */
  datatype KitEntry = KitEntry(name: string, items: seq<KitItem>)

  /** The index object, its properties in enumeration order. Kit names always contain the
      marker, so none is an integer-like key and enumeration follows insertion order. */
  type KitIndex = seq<KitEntry>

  /** The `sync_metadata` key of the stored modification time. */
  const MtimeKey: string := "csv_mtime"

  /** The quantity text of an item whose column 3 is empty. */
  const DefaultQtd: string := "1"

  /** The position of the property `k`, if the index has one. */
  function Find(index: KitIndex, k: string): (p: Option<nat>)
    ensures p.None? <==> forall i :: 0 <= i < |index| ==> index[i].name != k
    ensures p.Some? ==> p.value < |index| && index[p.value].name == k
    ensures p.Some? ==> forall i :: 0 <= i < p.value ==> index[i].name != k
  {
    if index == [] then None
    else if index[0].name == k then Some(0)
    else
      match Find(index[1..], k)
      case None => None
      case Some(p) => Some(p + 1)
  }

  /** `index[k]`: the list of kit `k`, or None when the index has no such property. */
  function Lookup(index: KitIndex, k: string): Option<seq<KitItem>>
  {
    match Find(index, k)
    case None => None
    case Some(p) => Some(index[p].items)
  }

  /** The property names in enumeration order (`for (const kitName in index)`). */
  function Names(index: KitIndex): (names: seq<string>)
    ensures |names| == |index|
    ensures forall i :: 0 <= i < |index| ==> names[i] == index[i].name
  {
    if index == [] then [] else [index[0].name] + Names(index[1..])
  }

  /** `index[k] = items`: an existing property keeps its position, a new one goes last. */
  function Assign(index: KitIndex, k: string, items: seq<KitItem>): KitIndex
  {
    match Find(index, k)
    case Some(p) => index[p := KitEntry(k, items)]
    case None => index + [KitEntry(k, items)]
  }

  /** `index[k].push(it)`; the index has a property `k` whenever the parser pushes. */
  function Push(index: KitIndex, k: string, it: KitItem): KitIndex
  {
    match Find(index, k)
    case Some(p) => index[p := KitEntry(k, index[p].items + [it])]
    case None => index
  }

  /** Lookup only looks at the names: indexes with the same names find a key at the same
      position. */
  lemma FindByNames(a: KitIndex, b: KitIndex, k: string)
    requires |a| == |b| && forall i :: 0 <= i < |a| ==> a[i].name == b[i].name
    ensures Find(a, k) == Find(b, k)
  {
    var fa := Find(a, k);
    var fb := Find(b, k);
    if fa.Some? && fb.Some? {
      assert !(fa.value < fb.value) && !(fb.value < fa.value);
    }
  }

  /** Replacing the list at the property's own position changes what `index[k]` reads and
      nothing else. */
  lemma ReplaceLookup(index: KitIndex, p: nat, k: string, items: seq<KitItem>, k': string)
    requires Find(index, k) == Some(p)
    ensures Lookup(index[p := KitEntry(k, items)], k') == if k' == k then Some(items) else Lookup(index, k')
  {
    var r := index[p := KitEntry(k, items)];
    FindByNames(r, index, k');
    match Find(index, k')
    case Some(q) =>
      if k' == k {
        assert q == p;
      } else {
        assert q != p && r[q] == index[q];
      }
    case None =>
  }

  /** After `index[k] = items`, `index[k]` is `items` and every other property reads as before. */
  lemma AssignLookup(index: KitIndex, k: string, items: seq<KitItem>, k': string)
    ensures Lookup(Assign(index, k, items), k') == if k' == k then Some(items) else Lookup(index, k')
  {
    var r := Assign(index, k, items);
    match Find(index, k)
    case Some(p) =>
      ReplaceLookup(index, p, k, items, k');
    case None =>
      assert forall i :: 0 <= i < |index| ==> r[i] == index[i];
      assert r[|index|].name == k;
      match Find(index, k')
      case Some(q) =>
        assert Find(r, k') == Some(q) by {
          var fr := Find(r, k');
          assert fr.Some? && !(fr.value < q) && !(q < fr.value);
        }
      case None =>
        var fr := Find(r, k');
        if k' == k {
          assert fr.Some?;
        } else {
          assert fr.None?;
        }
  }

  /** Assigning an existing property keeps the names; a new property is enumerated last. */
  lemma AssignNames(index: KitIndex, k: string, items: seq<KitItem>)
    ensures Names(Assign(index, k, items)) == if k in Names(index) then Names(index) else Names(index) + [k]
  {
    var r := Assign(index, k, items);
    if k in Names(index) {
      var p := Find(index, k);
      assert p.Some?;
    }
  }

  /** Pushing onto an existing list appends at its end and leaves every other list alone. */
  lemma PushLookup(index: KitIndex, k: string, it: KitItem, k': string)
    requires Lookup(index, k).Some?
    ensures Lookup(Push(index, k, it), k') == if k' == k then Some(Lookup(index, k).value + [it]) else Lookup(index, k')
  {
    var p := Find(index, k).value;
    ReplaceLookup(index, p, k, index[p].items + [it], k');
  }

  /** Pushing never adds, removes or moves a property. */
  lemma PushNames(index: KitIndex, k: string, it: KitItem)
    ensures Names(Push(index, k, it)) == Names(index)
  {
  }

  /** The item an item row contributes: trimmed code and description, and the trimmed
      quantity text or "1" when it is empty. */
  function ItemOf(row: Row): (it: KitItem)
    ensures it.qtd != ""
  {
    KitItem(Cell(row, 1), Cell(row, 2), if Cell(row, 3) != "" then Cell(row, 3) else DefaultQtd)
  }

  /** The index once the first `n` rows have been read. */
  function IndexUpTo(rows: seq<Row>, n: nat): KitIndex
    requires n <= |rows|
  {
    if n == 0 then []
    else
      var prev := IndexUpTo(rows, n - 1);
      var row := rows[n - 1];
      if IsKitHeader(row) then Assign(prev, Cell(row, 1), [])
      else
        match KitAfter(rows, n - 1)
        case Some(kit) => if IsItemRow(row) then Push(prev, kit, ItemOf(row)) else prev
        case None => prev
  }

  /** `parseCSV` of the file's rows. */
  function ParseIndex(rows: seq<Row>): KitIndex
  {
    IndexUpTo(rows, |rows|)
  }

  /** The row-event handler of `parseCSV`, run over the rows in order. */
  method ParseCsv(rows: seq<Row>) returns (index: KitIndex)
    ensures index == ParseIndex(rows)
  {
    index := [];
    var currentKit: Option<string> := None;
    var i := 0;
    while i < |rows|
      invariant 0 <= i <= |rows|
      invariant currentKit == KitAfter(rows, i)
      invariant index == IndexUpTo(rows, i)
    {
      var row := rows[i];
      if IsKitHeader(row) {
        currentKit := Some(Cell(row, 1));
        index := Assign(index, Cell(row, 1), []);
      } else if currentKit.Some? && IsItemRow(row) {
        index := Push(index, currentKit.value, ItemOf(row));
      }
      i := i + 1;
    }
  }

  /** Reference for the kit order: the names of the kit headers among the first `n` rows,
      each once, in order of first appearance. */
  function HeaderNames(rows: seq<Row>, n: nat): (names: seq<string>)
    requires n <= |rows|
  {
    if n == 0 then []
    else
      var prev := HeaderNames(rows, n - 1);
      if IsKitHeader(rows[n - 1]) && Cell(rows[n - 1], 1) !in prev then prev + [Cell(rows[n - 1], 1)]
      else prev
  }

  /** The header names are distinct, and they are exactly the names of the headers read. */
  lemma {:induction false} HeaderNamesSpec(rows: seq<Row>, n: nat)
    requires n <= |rows|
    ensures forall i, j :: 0 <= i < j < |HeaderNames(rows, n)| ==> HeaderNames(rows, n)[i] != HeaderNames(rows, n)[j]
    ensures forall k :: k in HeaderNames(rows, n) <==> exists j :: 0 <= j < n && IsKitHeader(rows[j]) && Cell(rows[j], 1) == k
  {
    if n > 0 {
      HeaderNamesSpec(rows, n - 1);
    }
  }

  /** The kits of the index are those of the header names, in the same order. */
  lemma IndexNamesAreHeaderNames(rows: seq<Row>, n: nat)
    requires n <= |rows|
    ensures Names(IndexUpTo(rows, n)) == HeaderNames(rows, n)
  {
    NamesAgreeUpTo(rows, n);
  }

  predicate NamesAgree(rows: seq<Row>, n: nat)
    requires n <= |rows|
  {
    Names(IndexUpTo(rows, n)) == HeaderNames(rows, n)
  }

  lemma {:induction false} NamesAgreeUpTo(rows: seq<Row>, n: nat)
    requires n <= |rows|
    ensures NamesAgree(rows, n)
  {
    if n > 0 {
      NamesAgreeUpTo(rows, n - 1);
      if IsKitHeader(rows[n - 1]) {
        HeaderRowNames(rows, n);
      } else {
        OtherRowNames(rows, n);
      }
    }
  }

  /** A header row adds its name to both the index and the header names, unless present. */
  lemma HeaderRowNames(rows: seq<Row>, n: nat)
    requires 0 < n <= |rows| && IsKitHeader(rows[n - 1])
    requires NamesAgree(rows, n - 1)
    ensures NamesAgree(rows, n)
  {
    var prev := IndexUpTo(rows, n - 1);
    var k := Cell(rows[n - 1], 1);
    assert IndexUpTo(rows, n) == Assign(prev, k, []);
    AssignNames(prev, k, []);
  }

  /** Any other row changes neither the index's names nor the header names. */
  lemma OtherRowNames(rows: seq<Row>, n: nat)
    requires 0 < n <= |rows| && !IsKitHeader(rows[n - 1])
    requires NamesAgree(rows, n - 1)
    ensures NamesAgree(rows, n)
  {
    var prev := IndexUpTo(rows, n - 1);
    var row := rows[n - 1];
    assert HeaderNames(rows, n) == HeaderNames(rows, n - 1);
    match KitAfter(rows, n - 1)
    case Some(kit) =>
      if IsItemRow(row) {
        assert IndexUpTo(rows, n) == Push(prev, kit, ItemOf(row));
        PushNames(prev, kit, ItemOf(row));
      } else {
        assert IndexUpTo(rows, n) == prev;
      }
    case None =>
      assert IndexUpTo(rows, n) == prev;
  }

  /** The current kit is one of the header names read so far. */
  lemma {:induction false} CurrentKitIsHeaderName(rows: seq<Row>, n: nat)
    requires n <= |rows|
    ensures KitAfter(rows, n).Some? ==> KitAfter(rows, n).value in HeaderNames(rows, n)
  {
    if n > 0 {
      CurrentKitIsHeaderName(rows, n - 1);
    }
  }

  /** The current kit always has a list in the index, so every push finds one. */
  lemma CurrentKitListed(rows: seq<Row>, n: nat)
    requires n <= |rows| && KitAfter(rows, n).Some?
    ensures Lookup(IndexUpTo(rows, n), KitAfter(rows, n).value).Some?
  {
    CurrentKitIsHeaderName(rows, n);
    IndexNamesAreHeaderNames(rows, n);
    var index := IndexUpTo(rows, n);
    var names := Names(index);
    var p :| 0 <= p < |names| && names[p] == KitAfter(rows, n).value;
    assert index[p].name == KitAfter(rows, n).value;
  }

  /** Kits are enumerated in the order their names first appear as headers, each once. */
  lemma KitOrder(rows: seq<Row>)
    ensures Names(ParseIndex(rows)) == HeaderNames(rows, |rows|)
    ensures forall i, j :: 0 <= i < j < |ParseIndex(rows)| ==> ParseIndex(rows)[i].name != ParseIndex(rows)[j].name
  {
    IndexNamesAreHeaderNames(rows, |rows|);
    HeaderNamesSpec(rows, |rows|);
    var names := Names(ParseIndex(rows));
    assert forall i :: 0 <= i < |names| ==> names[i] == ParseIndex(rows)[i].name;
  }

  /** A kit has a list exactly when a header names it. */
  lemma KitPresent(rows: seq<Row>, k: string)
    ensures Lookup(ParseIndex(rows), k).Some? <==> exists j :: 0 <= j < |rows| && IsKitHeader(rows[j]) && Cell(rows[j], 1) == k
  {
    IndexNamesAreHeaderNames(rows, |rows|);
    HeaderNamesSpec(rows, |rows|);
    var index := ParseIndex(rows);
    var names := Names(index);
    if Lookup(index, k).Some? {
      assert names[Find(index, k).value] == k;
      assert k in HeaderNames(rows, |rows|);
    } else {
      assert k !in names;
      assert k !in HeaderNames(rows, |rows|);
    }
  }

  /** Rows before the first kit header leave the index empty. */
  lemma {:induction false} NothingBeforeFirstHeader(rows: seq<Row>, n: nat)
    requires n <= |rows|
    requires forall m :: 0 <= m < n ==> !IsKitHeader(rows[m])
    ensures IndexUpTo(rows, n) == []
  {
    if n > 0 {
      NothingBeforeFirstHeader(rows, n - 1);
      KitUnchangedWithoutHeader(rows, 0, n - 1);
    }
  }

  /** What row `m` adds to the list of kit `k`: its item when it is an item row read with
      `k` as the current kit, nothing otherwise. */
  function ItemFor(rows: seq<Row>, k: string, m: nat): seq<KitItem>
    requires m < |rows|
  {
    if !IsKitHeader(rows[m]) && IsItemRow(rows[m]) && KitAfter(rows, m) == Some(k) then [ItemOf(rows[m])] else []
  }

  /** The items of kit `k` read from the rows `from .. n-1`, in file order. */
  function KitItemsBetween(rows: seq<Row>, k: string, from: nat, n: nat): seq<KitItem>
    requires n <= |rows|
    decreases n
  {
    if n <= from then [] else KitItemsBetween(rows, k, from, n - 1) + ItemFor(rows, k, n - 1)
  }

  /** A row that is not a header of `k` extends the list of `k`, if there is one, by what it
      adds for `k`. */
  lemma LookupStep(rows: seq<Row>, k: string, n: nat)
    requires 0 < n <= |rows|
    requires !(IsKitHeader(rows[n - 1]) && Cell(rows[n - 1], 1) == k)
    requires Lookup(IndexUpTo(rows, n - 1), k).Some?
    ensures Lookup(IndexUpTo(rows, n), k) == Some(Lookup(IndexUpTo(rows, n - 1), k).value + ItemFor(rows, k, n - 1))
  {
    var prev := IndexUpTo(rows, n - 1);
    var row := rows[n - 1];
    var before := Lookup(prev, k).value;
    if ItemFor(rows, k, n - 1) == [] {
      assert before + [] == before;
    }
    if IsKitHeader(row) {
      AssignLookup(prev, Cell(row, 1), [], k);
    } else {
      match KitAfter(rows, n - 1)
      case Some(kit) =>
        if IsItemRow(row) {
          CurrentKitListed(rows, n - 1);
          PushLookup(prev, kit, ItemOf(row), k);
        }
      case None =>
    }
  }

  /** A kit's list holds exactly the items after its last header: a repeated header discards
      the items gathered under the earlier one. */
  lemma {:induction false} ItemsAfterLastHeader(rows: seq<Row>, k: string, j: nat, n: nat)
    requires j < n <= |rows|
    requires IsKitHeader(rows[j]) && Cell(rows[j], 1) == k
    requires forall m :: j < m < n && IsKitHeader(rows[m]) ==> Cell(rows[m], 1) != k
    ensures Lookup(IndexUpTo(rows, n), k) == Some(KitItemsBetween(rows, k, j + 1, n))
  {
    if n == j + 1 {
      AssignLookup(IndexUpTo(rows, j), k, [], k);
    } else {
      ItemsAfterLastHeader(rows, k, j, n - 1);
      LookupStep(rows, k, n);
    }
  }

  /** The table rows of one kit: one Indexed row per item, in list order. */
  function KitRows(name: string, items: seq<KitItem>): (r: seq<MaterialRow>)
    ensures |r| == |items|
    ensures forall i :: 0 <= i < |items| ==> r[i] == Indexed(name, items[i].codigo, items[i].item, items[i].qtd)
  {
    if items == [] then []
    else KitRows(name, items[..|items| - 1]) + [Indexed(name, items[|items| - 1].codigo, items[|items| - 1].item, items[|items| - 1].qtd)]
  }

  /** The table rows of an index: each kit's rows, kits in enumeration order. */
  function IndexRows(index: KitIndex): seq<MaterialRow>
  {
    if index == [] then [] else IndexRows(index[..|index| - 1]) + KitRows(index[|index| - 1].name, index[|index| - 1].items)
  }

  /** A row is inserted exactly when some kit of the index lists its item. */
  lemma {:induction false} IndexRowsMembers(index: KitIndex, r: MaterialRow)
    ensures r in IndexRows(index) <==>
              exists e, it :: e in index && it in e.items && r == Indexed(e.name, it.codigo, it.item, it.qtd)
  {
    if index != [] {
      var init := index[..|index| - 1];
      var last := index[|index| - 1];
      IndexRowsMembers(init, r);
      assert index == init + [last];
      var kr := KitRows(last.name, last.items);
      if r in kr {
        var i :| 0 <= i < |kr| && kr[i] == r;
        assert last in index && last.items[i] in last.items;
      }
      if exists e, it :: e in index && it in e.items && r == Indexed(e.name, it.codigo, it.item, it.qtd) {
        var e, it :| e in index && it in e.items && r == Indexed(e.name, it.codigo, it.item, it.qtd);
        if e !in init {
          assert e == last;
          var i :| 0 <= i < |e.items| && e.items[i] == it;
          assert kr[i] == r;
        }
      }
    }
  }

  /** The inner insert loop: one row per item of kit `name`. */
  method InsertKit(db: Database, name: string, items: seq<KitItem>)
    modifies db
    ensures db.materiais == old(db.materiais) + KitRows(name, items)
    ensures db.syncMetadata == old(db.syncMetadata)
  {
    var j := 0;
    while j < |items|
      invariant 0 <= j <= |items|
      invariant db.materiais == old(db.materiais) + KitRows(name, items[..j])
      invariant db.syncMetadata == old(db.syncMetadata)
    {
      assert items[..j + 1][..j] == items[..j];
      db.InsertMaterial(Indexed(name, items[j].codigo, items[j].item, items[j].qtd));
      j := j + 1;
    }
    assert items[..|items|] == items;
  }

  /** The outer insert loop over the kits of the index. */
  method InsertIndex(db: Database, index: KitIndex)
    modifies db
    ensures db.materiais == old(db.materiais) + IndexRows(index)
    ensures db.syncMetadata == old(db.syncMetadata)
  {
    var i := 0;
    while i < |index|
      invariant 0 <= i <= |index|
      invariant db.materiais == old(db.materiais) + IndexRows(index[..i])
      invariant db.syncMetadata == old(db.syncMetadata)
    {
      assert index[..i + 1][..i] == index[..i];
      InsertKit(db, index[i].name, index[i].items);
      i := i + 1;
    }
    assert index[..|index|] == index;
  }

  /** The catalogue file: absent, or present with its modification time as a string and
      what reading it yields. */
  datatype SourceFile = Missing | Present(mtime: string, content: Content)

  datatype SyncOutcome = FileMissing | UpToDate | Rebuilt | Failed(message: string)

  /** The state of the two tables and the outcome after a sync. */
  datatype SyncResult = SyncResult(materiais: seq<MaterialRow>, meta: map<string, string>, outcome: SyncOutcome)

  /** The effect of one `syncMaterialsFromCSV`; a read error is rethrown before the
      transaction starts, so it changes nothing. */
  function SyncFromCsv(materiais: seq<MaterialRow>, meta: map<string, string>, file: SourceFile): SyncResult
  {
    match file
    case Missing => SyncResult(materiais, meta, FileMissing)
    case Present(mtime, content) =>
      if MtimeKey in meta && meta[MtimeKey] == mtime then SyncResult(materiais, meta, UpToDate)
      else
        match content
        case Unreadable(msg) => SyncResult(materiais, meta, Failed(msg))
        case Rows(rows) => SyncResult(IndexRows(ParseIndex(rows)), meta[MtimeKey := mtime], Rebuilt)
  }

  /** `syncMaterialsFromCSV` on a database and the catalogue file. */
  method SyncMaterialsFromCsv(db: Database, file: SourceFile) returns (outcome: SyncOutcome)
    modifies db
    ensures SyncFromCsv(old(db.materiais), old(db.syncMetadata), file) == SyncResult(db.materiais, db.syncMetadata, outcome)
  {
    if file.Missing? {
      return FileMissing;
    }
    var mtime := file.mtime;
    var lastSync := db.Metadata(MtimeKey);
    if lastSync.Some? && lastSync.value == mtime {
      return UpToDate;
    }
    if file.content.Unreadable? {
      return Failed(file.content.message);
    }
    var index := ParseCsv(file.content.rows);
    db.DeleteAllMaterials();
    InsertIndex(db, index);
    db.UpsertMetadata(MtimeKey, mtime);
    return Rebuilt;
  }

  /** A missing file and an unchanged modification time both leave the tables alone. */
  lemma SyncWithoutChange(materiais: seq<MaterialRow>, meta: map<string, string>, file: SourceFile)
    requires file.Missing? || (MtimeKey in meta && meta[MtimeKey] == file.mtime)
    ensures SyncFromCsv(materiais, meta, file).materiais == materiais
    ensures SyncFromCsv(materiais, meta, file).meta == meta
    ensures SyncFromCsv(materiais, meta, file).outcome == if file.Missing? then FileMissing else UpToDate
  {
  }

  /** A rebuild replaces the whole table by the rows of the parsed index, stores the
      modification time, and makes a repeated sync of the same file a no-op. */
  lemma SyncRebuild(materiais: seq<MaterialRow>, meta: map<string, string>, mtime: string, rows: seq<Row>)
    requires !(MtimeKey in meta && meta[MtimeKey] == mtime)
    ensures var r := SyncFromCsv(materiais, meta, Present(mtime, Rows(rows)));
            && r.materiais == IndexRows(ParseIndex(rows))
            && r.meta == meta[MtimeKey := mtime]
            && r.outcome == Rebuilt
            && SyncFromCsv(r.materiais, r.meta, Present(mtime, Rows(rows))) == SyncResult(r.materiais, r.meta, UpToDate)
  {
  }
}
