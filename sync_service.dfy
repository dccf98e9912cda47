/** SyncService: rebuilds the `materiais` table from every CSV file of the data directory,
    skipping the work when a fingerprint of the files' names and modification times equals
    the one stored at the last rebuild. */
module SyncService {
  import opened Common
  import Text
  import Numbers
  import opened CsvRows
  import opened Catalog

  /** One record of `parseCSV`: the current kit, the code, the description and the quantity. */
  datatype MaterialRecord = MaterialRecord(kitNome: string, codigo: string, item: string, quantidade: real)

  /** A directory entry: its name, its modification time as rendered into the fingerprint,
      and what reading it yields. */
  datatype DirEntry = DirEntry(name: string, mtime: string, content: Content)

  datatype SyncOutcome = NoCsvFiles | UpToDate | Rebuilt(imported: nat) | Failed(message: string)

  /** The `sync_metadata` key of the fingerprint. */
  const StateKey: string := "global_csv_state"

  /** The currency column's default in the schema declaration; the rebuild does not set it. */
  const DefaultMoeda: string := "BRL"

  /** The quantity column: `parseFloat` of the text with its first ',' turned into '.', and
      1 whenever that is NaN or zero. */
  function Quantity(qtd: string): (q: real)
    ensures q != 0.0
  {
    match Numbers.ParseFloat(Text.ReplaceFirst(qtd, ',', '.'))
    case Some(v) => if v != 0.0 then v else 1.0
    case None => 1.0
  }

  /** An empty or zero quantity becomes 1. */
  lemma QuantityDefaults()
    ensures Quantity("") == 1.0
    ensures Quantity("0") == 1.0
  {
    assert Numbers.NatToString(0) == "0";
    Text.ReplaceFirstAbsent("0", ',', '.');
    Numbers.ParseNatural(0);
  }

  /** A positive whole number is read as itself. */
  lemma QuantityOfNatural(n: nat)
    requires n > 0
    ensures Quantity(Numbers.NatToString(n)) == n as real
  {
    var s := Numbers.NatToString(n);
    assert ',' !in s by {
      assert forall i :: 0 <= i < |s| ==> Numbers.IsDigit(s[i]);
    }
    Text.ReplaceFirstAbsent(s, ',', '.');
    Numbers.ParseNatural(n);
  }

  /** A decimal written with a comma ("2,5") is read like the same decimal written with a
      point, when it is not zero. */
  lemma QuantityOfDecimalComma(ip: string, fp: string)
    requires ip != [] && Numbers.AllDigits(ip) && Numbers.AllDigits(fp)
    requires Numbers.AllDigits(ip + fp) && Numbers.DigitsValue(ip + fp) != 0
    ensures Quantity(ip + "," + fp) == Numbers.Shift(Numbers.DigitsValue(ip + fp) as real, -|fp|)
    ensures Quantity(ip + "," + fp) == Quantity(ip + "." + fp)
  {
    var v := Numbers.Shift(Numbers.DigitsValue(ip + fp) as real, -|fp|);
    CommaBecomesPoint(ip, fp);
    PointIsKept(ip, fp);
    Numbers.ParseDecimal(ip, fp);
    Numbers.ShiftNonZero(Numbers.DigitsValue(ip + fp) as real, -|fp|);
    QuantityOfParsed(ip + "," + fp, v);
    QuantityOfParsed(ip + "." + fp, v);
  }

  lemma QuantityOfParsed(s: string, v: real)
    requires Numbers.ParseFloat(Text.ReplaceFirst(s, ',', '.')) == Some(v) && v != 0.0
    ensures Quantity(s) == v
  {
  }

  /** In a decimal whose whole part is digits, the decimal comma is the first ','. */
  lemma CommaBecomesPoint(ip: string, fp: string)
    requires Numbers.AllDigits(ip)
    ensures Text.ReplaceFirst(ip + "," + fp, ',', '.') == ip + "." + fp
  {
    var s := ip + "," + fp;
    assert ',' !in ip by {
      assert forall i :: 0 <= i < |ip| ==> Numbers.IsDigit(ip[i]);
    }
    assert s[..|ip|] == ip && s[|ip|] == ',';
    Text.ReplaceFirstAt(s, ',', '.', |ip|);
    assert s[|ip| + 1..] == fp;
  }

  /** A decimal written with a point has no ',' to replace. */
  lemma PointIsKept(ip: string, fp: string)
    requires Numbers.AllDigits(ip) && Numbers.AllDigits(fp)
    ensures Text.ReplaceFirst(ip + "." + fp, ',', '.') == ip + "." + fp
  {
    var s := ip + "." + fp;
    forall i | 0 <= i < |s| ensures s[i] != ',' {
      if i < |ip| {
        assert s[i] == ip[i] && Numbers.IsDigit(ip[i]);
      } else if i > |ip| {
        assert s[i] == fp[i - |ip| - 1] && Numbers.IsDigit(fp[i - |ip| - 1]);
      }
    }
    Text.ReplaceFirstAbsent(s, ',', '.');
  }

  /** The record that row `i` contributes, given the kit current before it: none for a kit
      header, for a row before the first header, and for a row lacking code or description. */
  function RecordAt(rows: seq<Row>, i: nat): (r: Option<MaterialRecord>)
    requires i < |rows|
  {
    var row := rows[i];
    if IsKitHeader(row) then None
    else match KitAfter(rows, i)
      case None => None
      case Some(kit) =>
        if IsItemRow(row) then Some(MaterialRecord(kit, Cell(row, 1), Cell(row, 2), Quantity(Cell(row, 3))))
        else None
  }

  /** The records of the first `n` rows, in row order. */
  function RecordsUpTo(rows: seq<Row>, n: nat): seq<MaterialRecord>
    requires n <= |rows|
  {
    if n == 0 then []
    else
      match RecordAt(rows, n - 1)
      case None => RecordsUpTo(rows, n - 1)
      case Some(r) => RecordsUpTo(rows, n - 1) + [r]
  }

  /** At most one record per row, and every record has a non-empty code and description,
      a non-zero quantity and a kit name holding the kit marker. */
  lemma RecordsUpToSpec(rows: seq<Row>, n: nat)
    requires n <= |rows|
    ensures |RecordsUpTo(rows, n)| <= n
    ensures forall k :: 0 <= k < |RecordsUpTo(rows, n)| ==> WellFormed(RecordsUpTo(rows, n)[k])
  {
    GoodUpTo(rows, n);
  }

  /** What every emitted record satisfies. */
  predicate WellFormed(r: MaterialRecord)
  {
    r.codigo != "" && r.item != "" && r.quantidade != 0.0 && Text.Contains(r.kitNome, KitMarker)
  }

  predicate AllWellFormed(recs: seq<MaterialRecord>)
  {
    forall k :: 0 <= k < |recs| ==> WellFormed(recs[k])
  }

  lemma {:induction false} GoodUpTo(rows: seq<Row>, n: nat)
    requires n <= |rows|
    ensures |RecordsUpTo(rows, n)| <= n && AllWellFormed(RecordsUpTo(rows, n))
  {
    if n > 0 {
      GoodUpTo(rows, n - 1);
      GoodStep(rows, n - 1);
    }
  }

  /** One more row adds at most one record, and a well-formed one. */
  lemma GoodStep(rows: seq<Row>, i: nat)
    requires i < |rows|
    requires |RecordsUpTo(rows, i)| <= i && AllWellFormed(RecordsUpTo(rows, i))
    ensures |RecordsUpTo(rows, i + 1)| <= i + 1 && AllWellFormed(RecordsUpTo(rows, i + 1))
  {
    RecordsStep(rows, i);
    RecordAtWellFormed(rows, i);
    GoodExtend(RecordsUpTo(rows, i), RecordAt(rows, i));
  }

  /** A record a row contributes is well formed. */
  lemma RecordAtWellFormed(rows: seq<Row>, i: nat)
    requires i < |rows|
    ensures RecordAt(rows, i).Some? ==> WellFormed(RecordAt(rows, i).value)
  {
  }

  lemma GoodExtend(prev: seq<MaterialRecord>, r: Option<MaterialRecord>)
    requires AllWellFormed(prev) && (r.Some? ==> WellFormed(r.value))
    ensures AllWellFormed(prev + (if r.Some? then [r.value] else []))
  {
  }

  /** `parseCSV` of one file's rows. */
  function ParseRecords(rows: seq<Row>): seq<MaterialRecord>
  {
    RecordsUpTo(rows, |rows|)
  }

  /** The row handler of `parseCSV`, run over the rows of one file. */
  method ParseCsv(rows: seq<Row>) returns (records: seq<MaterialRecord>)
    ensures records == ParseRecords(rows)
  {
    records := [];
    var kitAtual: Option<string> := None;
    var i := 0;
    while i < |rows|
      invariant 0 <= i <= |rows|
      invariant kitAtual == KitAfter(rows, i)
      invariant records == RecordsUpTo(rows, i)
    {
      var row := rows[i];
      RecordsStep(rows, i);
      if IsKitHeader(row) {
        kitAtual := Some(Cell(row, 1));
      } else if kitAtual.Some? && IsItemRow(row) {
        var rec := MaterialRecord(kitAtual.value, Cell(row, 1), Cell(row, 2), Quantity(Cell(row, 3)));
        assert RecordAt(rows, i) == Some(rec);
        records := records + [rec];
      } else {
        assert RecordAt(rows, i).None?;
      }
      i := i + 1;
    }
  }

  /** Reading one more row adds its record, if it has one, and moves the current kit to
      that row's name when it is a kit header. */
  lemma RecordsStep(rows: seq<Row>, i: nat)
    requires i < |rows|
    ensures RecordsUpTo(rows, i + 1) == RecordsUpTo(rows, i) + (if RecordAt(rows, i).Some? then [RecordAt(rows, i).value] else [])
    ensures KitAfter(rows, i + 1) == if IsKitHeader(rows[i]) then Some(Cell(rows[i], 1)) else KitAfter(rows, i)
  {
    if RecordAt(rows, i).None? {
      assert RecordsUpTo(rows, i) + [] == RecordsUpTo(rows, i);
    }
  }

  /** Rows before the first kit header contribute nothing. */
  lemma {:induction false} NoRecordsBeforeFirstHeader(rows: seq<Row>, n: nat)
    requires n <= |rows|
    requires forall m :: 0 <= m < n ==> !IsKitHeader(rows[m])
    ensures RecordsUpTo(rows, n) == []
  {
    if n > 0 {
      NoRecordsBeforeFirstHeader(rows, n - 1);
      KitUnchangedWithoutHeader(rows, 0, n - 1);
    }
  }

  /** An item row carries the name in the most recent kit header above it, however many
      blank, half-filled or item rows lie between them. */
  lemma RecordCarriesLastHeader(rows: seq<Row>, j: nat, i: nat)
    requires j < i < |rows|
    requires IsKitHeader(rows[j])
    requires forall m :: j < m <= i ==> !IsKitHeader(rows[m])
    requires IsItemRow(rows[i])
    ensures RecordAt(rows, i)
         == Some(MaterialRecord(Cell(rows[j], 1), Cell(rows[i], 1), Cell(rows[i], 2), Quantity(Cell(rows[i], 3))))
  {
    assert KitAfter(rows, i) == Some(Cell(rows[j], 1)) by {
      KitUnchangedWithoutHeader(rows, j + 1, i);
      assert KitAfter(rows, j + 1) == Some(Cell(rows[j], 1));
    }
    RecordOfItemRow(rows, i, Cell(rows[j], 1));
  }

  lemma RecordOfItemRow(rows: seq<Row>, i: nat, kit: string)
    requires i < |rows| && !IsKitHeader(rows[i]) && IsItemRow(rows[i])
    requires KitAfter(rows, i) == Some(kit)
    ensures RecordAt(rows, i)
         == Some(MaterialRecord(kit, Cell(rows[i], 1), Cell(rows[i], 2), Quantity(Cell(rows[i], 3))))
  {
  }

  /** The records one file contributes (none when it cannot be read). */
  function FileRecords(f: DirEntry): seq<MaterialRecord>
  {
    match f.content
    case Rows(rows) => ParseRecords(rows)
    case Unreadable(_) => []
  }

  /** The records of a directory listing: each file is parsed from scratch (the current
      kit does not carry over from one file to the next) and the results are concatenated
      in listing order. */
  function ListingRecords(files: seq<DirEntry>): seq<MaterialRecord>
  {
    if files == [] then [] else ListingRecords(files[..|files| - 1]) + FileRecords(files[|files| - 1])
  }

  /** The error of the first file that cannot be read, if any. */
  function FirstReadError(files: seq<DirEntry>): (e: Option<string>)
    ensures e.None? <==> forall i :: 0 <= i < |files| ==> files[i].content.Rows?
  {
    if files == [] then None
    else
      var init := files[..|files| - 1];
      assert forall i :: 0 <= i < |init| ==> init[i] == files[i];
      match FirstReadError(init)
      case Some(e) => Some(e)
      case None =>
        match files[|files| - 1].content
        case Unreadable(msg) => Some(msg)
        case Rows(_) => None
  }

  /** Once a prefix of the listing holds an unreadable file, so does the whole listing, with
      the same first error. */
  lemma {:induction false} FirstReadErrorOfPrefix(files: seq<DirEntry>, n: nat)
    requires n <= |files| && FirstReadError(files[..n]).Some?
    ensures FirstReadError(files) == FirstReadError(files[..n])
    decreases |files|
  {
    if n < |files| {
      var init := files[..|files| - 1];
      assert init[..n] == files[..n];
      FirstReadErrorOfPrefix(init, n);
    } else {
      assert files[..n] == files;
    }
  }

  /** One more file of the listing: its records follow those of the files before it, and
      it is the first read error when it is unreadable and none came before it. */
  lemma ListingStep(files: seq<DirEntry>, i: nat)
    requires i < |files|
    ensures ListingRecords(files[..i + 1]) == ListingRecords(files[..i]) + FileRecords(files[i])
    ensures FirstReadError(files[..i]) == None ==>
              FirstReadError(files[..i + 1]) == (if files[i].content.Unreadable? then Some(files[i].content.message) else None)
  {
    assert files[..i + 1][..i] == files[..i];
  }

  /** `name.endsWith('.csv')`. */
  predicate IsCsvName(name: string)
  {
    |name| >= 4 && name[|name| - 4..] == ".csv"
  }

  /** `files.filter(f => f.endsWith('.csv'))`: the CSV entries, in listing order. */
  function CsvFiles(listing: seq<DirEntry>): (files: seq<DirEntry>)
    ensures forall f :: f in files <==> f in listing && IsCsvName(f.name)
  {
    if listing == [] then []
    else if IsCsvName(listing[0].name) then [listing[0]] + CsvFiles(listing[1..])
    else CsvFiles(listing[1..])
  }

  /** Filtering keeps the order of the listing: the CSV entries of two listings in a row
      are those of the first followed by those of the second. */
  lemma {:induction false} CsvFilesConcat(a: seq<DirEntry>, b: seq<DirEntry>)
    ensures CsvFiles(a + b) == CsvFiles(a) + CsvFiles(b)
  {
    if a == [] {
      assert a + b == b;
    } else {
      assert (a + b)[1..] == a[1..] + b;
      CsvFilesConcat(a[1..], b);
    }
  }

  /** One entry is kept once when its name ends in ".csv", and dropped otherwise. */
  lemma CsvFilesSingle(f: DirEntry)
    ensures CsvFiles([f]) == if IsCsvName(f.name) then [f] else []
  {
  }

  /** One file's contribution to the fingerprint: `name:mtime;`. */
  function Stamp(f: DirEntry): string
  {
    f.name + ":" + f.mtime + ";"
  }

  /** The fingerprint of a listing. */
  function Fingerprint(files: seq<DirEntry>): string
  {
    if files == [] then "" else Stamp(files[0]) + Fingerprint(files[1..])
  }

  /** The row stored for a record: the price is null and the currency takes its default. */
  function Stored(r: MaterialRecord): MaterialRow
  {
    Synced(r.kitNome, r.codigo, r.item, r.quantidade, None, Some(DefaultMoeda))
  }

  function StoredAll(recs: seq<MaterialRecord>): (rows: seq<MaterialRow>)
    ensures |rows| == |recs|
    ensures forall k :: 0 <= k < |recs| ==> rows[k] == Stored(recs[k])
  {
    if recs == [] then [] else [Stored(recs[0])] + StoredAll(recs[1..])
  }

  /** The state of the two tables and the outcome after a sync. */
  datatype SyncResult = SyncResult(materiais: seq<MaterialRow>, meta: map<string, string>, outcome: SyncOutcome)

  /** The effect of one `syncMaterialsWithDB` on the table and the metadata, and its outcome. */
  function Sync(materiais: seq<MaterialRow>, meta: map<string, string>, listing: seq<DirEntry>): SyncResult
  {
    var files := CsvFiles(listing);
    if files == [] then SyncResult(materiais, meta, NoCsvFiles)
    else
      var fp := Fingerprint(files);
      if StateKey in meta && meta[StateKey] == fp then SyncResult(materiais, meta, UpToDate)
      else
        match FirstReadError(files)
        case Some(msg) => SyncResult(materiais, meta, Failed(msg))
        case None =>
          var recs := ListingRecords(files);
          SyncResult(StoredAll(recs), meta[StateKey := fp], Rebuilt(|recs|))
  }

  /** The `stateHash += `${file}:${mtime};`` loop. */
  method ComputeFingerprint(files: seq<DirEntry>) returns (stateHash: string)
    ensures stateHash == Fingerprint(files)
  {
    stateHash := "";
    var i := 0;
    while i < |files|
      invariant 0 <= i <= |files|
      invariant stateHash + Fingerprint(files[i..]) == Fingerprint(files)
    {
      assert files[i..][1..] == files[i + 1..];
      stateHash := stateHash + Stamp(files[i]);
      i := i + 1;
    }
    assert files[|files|..] == [];
  }

  /** The loop that parses every file in turn and appends its records to `allRows`; a
      read error rejects, abandoning the records gathered so far. */
  method ParseAll(files: seq<DirEntry>) returns (r: Result<seq<MaterialRecord>, string>)
    ensures FirstReadError(files).Some? ==> r == Err(FirstReadError(files).value)
    ensures FirstReadError(files).None? ==> r == Ok(ListingRecords(files))
  {
    var allRows: seq<MaterialRecord> := [];
    var i := 0;
    while i < |files|
      invariant 0 <= i <= |files|
      invariant FirstReadError(files[..i]) == None
      invariant allRows == ListingRecords(files[..i])
    {
      ListingStep(files, i);
      match files[i].content
      case Unreadable(msg) =>
        FirstReadErrorOfPrefix(files, i + 1);
        return Err(msg);
      case Rows(rows) =>
        var parsed := ParseCsv(rows);
        allRows := allRows + parsed;
      i := i + 1;
    }
    assert files[..|files|] == files;
    return Ok(allRows);
  }

  /** `syncMaterialsWithDB` on a database and a directory listing. */
  method SyncMaterialsWithDb(db: Database, listing: seq<DirEntry>) returns (outcome: SyncOutcome)
    modifies db
    ensures Sync(old(db.materiais), old(db.syncMetadata), listing) == SyncResult(db.materiais, db.syncMetadata, outcome)
  {
    var files := CsvFiles(listing);
    if files == [] {
      return NoCsvFiles;
    }
    var stateHash := ComputeFingerprint(files);
    var lastHash := db.Metadata(StateKey);
    if lastHash.Some? && lastHash.value == stateHash {
      return UpToDate;
    }
    var parsed := ParseAll(files);
    if parsed.Err? {
      return Failed(parsed.error);
    }
    var allRows := parsed.value;
    db.DeleteAllMaterials();
    if |allRows| > 0 {
      db.InsertMaterials(StoredAll(allRows));
    }
    db.UpsertMetadata(StateKey, stateHash);
    outcome := Rebuilt(|allRows|);
  }

  /** With no CSV file in the directory nothing is written. */
  lemma SyncWithoutCsvFiles(materiais: seq<MaterialRow>, meta: map<string, string>, listing: seq<DirEntry>)
    requires forall f :: f in listing ==> !IsCsvName(f.name)
    ensures Sync(materiais, meta, listing) == SyncResult(materiais, meta, NoCsvFiles)
  {
  }

  /** After a sync that rebuilt the table or found it current, syncing the same listing
      again writes nothing. A rebuilt table holds exactly the parsed records in order, with
      no price: prices stored before are not carried over. */
  lemma SyncThenSyncIsNoOp(materiais: seq<MaterialRow>, meta: map<string, string>, listing: seq<DirEntry>)
    requires Sync(materiais, meta, listing).outcome.Rebuilt? || Sync(materiais, meta, listing).outcome == UpToDate
    ensures var first := Sync(materiais, meta, listing);
            Sync(first.materiais, first.meta, listing) == SyncResult(first.materiais, first.meta, UpToDate)
    ensures var first := Sync(materiais, meta, listing);
            first.outcome.Rebuilt? ==>
              && FirstReadError(CsvFiles(listing)).None?
              && first.materiais == StoredAll(ListingRecords(CsvFiles(listing)))
              && first.outcome.imported == |first.materiais|
              && forall k :: 0 <= k < |first.materiais| ==> PriceOf(first.materiais[k]) == None
  {
  }

  /** The stamps separated: splitting a fingerprint at ';' gives each file's `name:mtime`,
      followed by the empty text after the last ';'. */
  lemma {:induction false} SplitFingerprint(files: seq<DirEntry>)
    requires forall f :: f in files ==> ';' !in f.name && ';' !in f.mtime
    ensures Text.Split(Fingerprint(files), ';') == StampBodies(files) + [""]
  {
    if files != [] {
      var f := files[0];
      var body := f.name + ":" + f.mtime;
      assert forall g :: g in files[1..] ==> g in files;
      SplitFingerprint(files[1..]);
      assert ';' !in body by {
        forall i | 0 <= i < |body| ensures body[i] != ';' {
          if i < |f.name| { assert body[i] == f.name[i]; }
          else if i > |f.name| { assert body[i] == f.mtime[i - |f.name| - 1]; }
        }
      }
      var tail := ";" + Fingerprint(files[1..]);
      assert Fingerprint(files) == body + tail;
      Text.SplitPrefix(body, tail, ';');
      assert tail[1..] == Fingerprint(files[1..]);
      assert Text.Split(tail, ';') == [[]] + Text.Split(Fingerprint(files[1..]), ';');
      assert body + [] == body;
    }
  }

  function StampBodies(files: seq<DirEntry>): (bodies: seq<string>)
    ensures |bodies| == |files|
    ensures forall k :: 0 <= k < |files| ==> bodies[k] == files[k].name + ":" + files[k].mtime
  {
    if files == [] then [] else [files[0].name + ":" + files[0].mtime] + StampBodies(files[1..])
  }

  /** Change detection is exact when no name or modification time contains ':' or ';':
      listings whose fingerprints agree have the same names and times in the same order. */
  lemma FingerprintDetectsChange(a: seq<DirEntry>, b: seq<DirEntry>)
    requires forall f :: f in a ==> PlainEntry(f)
    requires forall f :: f in b ==> PlainEntry(f)
    requires Fingerprint(a) == Fingerprint(b)
    ensures |a| == |b|
    ensures forall k :: 0 <= k < |a| ==> a[k].name == b[k].name && a[k].mtime == b[k].mtime
  {
    StampBodiesOfFingerprint(a, b);
    SameStamps(a, b);
  }

  /** Listings with the same stamp bodies have the same names and times in the same order. */
  lemma SameStamps(a: seq<DirEntry>, b: seq<DirEntry>)
    requires forall f :: f in a ==> PlainEntry(f)
    requires forall f :: f in b ==> PlainEntry(f)
    requires StampBodies(a) == StampBodies(b)
    ensures |a| == |b|
    ensures forall k :: 0 <= k < |a| ==> a[k].name == b[k].name && a[k].mtime == b[k].mtime
  {
    assert |a| == |StampBodies(a)| == |StampBodies(b)| == |b|;
    forall k | 0 <= k < |a| ensures a[k].name == b[k].name && a[k].mtime == b[k].mtime {
      assert a[k] in a && b[k] in b;
      StampAt(a, b, k);
    }
  }

  /** A file whose name and modification time hold neither ':' nor ';'. */
  predicate PlainEntry(f: DirEntry)
  {
    ':' !in f.name && ';' !in f.name && ':' !in f.mtime && ';' !in f.mtime
  }

  /** Equal stamp bodies agree at every position. */
  lemma StampAt(a: seq<DirEntry>, b: seq<DirEntry>, k: nat)
    requires StampBodies(a) == StampBodies(b) && k < |a| && k < |b|
    requires PlainEntry(a[k]) && PlainEntry(b[k])
    ensures a[k].name == b[k].name && a[k].mtime == b[k].mtime
  {
    assert StampBodies(a)[k] == StampBodies(b)[k];
    StampInjective(a[k], b[k]);
  }

  /** Equal fingerprints have equal stamp bodies. */
  lemma StampBodiesOfFingerprint(a: seq<DirEntry>, b: seq<DirEntry>)
    requires forall f :: f in a ==> PlainEntry(f)
    requires forall f :: f in b ==> PlainEntry(f)
    requires Fingerprint(a) == Fingerprint(b)
    ensures StampBodies(a) == StampBodies(b)
  {
    SplitFingerprint(a);
    SplitFingerprint(b);
    var sa := StampBodies(a);
    var sb := StampBodies(b);
    assert sa + [""] == sb + [""];
    assert sa == (sa + [""])[..|sa|];
    assert sb == (sb + [""])[..|sb|];
  }

  /** One stamp determines the name and the time it was written from. */
  lemma StampInjective(f: DirEntry, g: DirEntry)
    requires ':' !in f.name && ':' !in f.mtime && ':' !in g.name && ':' !in g.mtime
    requires f.name + ":" + f.mtime == g.name + ":" + g.mtime
    ensures f.name == g.name && f.mtime == g.mtime
  {
    SplitStamp(f);
    SplitStamp(g);
  }

  lemma SplitStamp(f: DirEntry)
    requires ':' !in f.name && ':' !in f.mtime
    ensures Text.Split(f.name + ":" + f.mtime, ':') == [f.name, f.mtime]
  {
    var parts := [f.name, f.mtime];
    assert Text.Join(parts, [':']) == f.name + ":" + f.mtime by {
      assert parts[1..] == [f.mtime];
    }
    Text.SplitJoin(parts, ':');
  }
}
