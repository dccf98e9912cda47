/** The two SQLite tables the catalogue sync writes: `materiais`, the cached kit catalogue,
    and `sync_metadata`, a key/value store for change-detection fingerprints. */
module Catalog {
  import opened Common

  /** A row of `materiais`. The rebuild in SyncService inserts the columns of the schema
      declaration (kit name, code, description, numeric quantity, and the nullable price
      columns); the rebuild in MaterialSyncService inserts a kit name, code, description and
      the quantity text under its own column names. */
  datatype MaterialRow =
    | Synced(kitNome: string, codigo: string, item: string, quantidade: real,
             precoUnitario: Option<real>, moeda: Option<string>)
    | Indexed(kitName: string, codigo: string, item: string, qtd: string)

  /** The price column of a row; rows written under the second column layout have none. */
  function PriceOf(row: MaterialRow): Option<real>
  {
    if row.Synced? then row.precoUnitario else None
  }

  /** The currency column of a row; rows written under the second column layout have none. */
  function CurrencyOf(row: MaterialRow): Option<string>
  {
    if row.Synced? then row.moeda else None
  }

  /** `SELECT * FROM materiais WHERE codigo = ? LIMIT 1`: the first row, in table order,
      carrying the code; None when no row does. */
  function FirstWithCode(rows: seq<MaterialRow>, codigo: string): Option<MaterialRow>
  {
    if rows == [] then None
    else if rows[0].codigo == codigo then Some(rows[0])
    else FirstWithCode(rows[1..], codigo)
  }

  /** None exactly when no row carries the code; otherwise a row carrying it with no
      earlier row carrying it. */
  lemma {:induction false} FirstWithCodeSpec(rows: seq<MaterialRow>, codigo: string)
    ensures var r := FirstWithCode(rows, codigo);
            && (r.None? <==> forall i :: 0 <= i < |rows| ==> rows[i].codigo != codigo)
            && (r.Some? ==> exists i :: 0 <= i < |rows| && rows[i] == r.value && r.value.codigo == codigo
                                        && forall j :: 0 <= j < i ==> rows[j].codigo != codigo)
  {
    if rows != [] && rows[0].codigo != codigo {
      FirstWithCodeSpec(rows[1..], codigo);
      assert forall i :: 1 <= i < |rows| ==> rows[i] == rows[1..][i - 1];
      var r := FirstWithCode(rows, codigo);
      if r.Some? {
        var k :| 0 <= k < |rows[1..]| && rows[1..][k] == r.value && r.value.codigo == codigo
                 && forall j :: 0 <= j < k ==> rows[1..][j].codigo != codigo;
        assert rows[k + 1] == r.value;
        assert forall j :: 0 <= j < k + 1 ==> rows[j].codigo != codigo by {
          forall j | 0 <= j < k + 1 ensures rows[j].codigo != codigo {
            if j > 0 { assert rows[j] == rows[1..][j - 1]; }
          }
        }
      }
    }
  }

  /** The application database, reduced to the two tables the sync services use. */
  class Database {
    var materiais: seq<MaterialRow>
    var syncMetadata: map<string, string>

    constructor (materiais0: seq<MaterialRow>, syncMetadata0: map<string, string>)
      ensures materiais == materiais0 && syncMetadata == syncMetadata0
    {
      materiais := materiais0;
      syncMetadata := syncMetadata0;
    }

    /** `SELECT value FROM sync_metadata WHERE key = ?`. */
    function Metadata(key: string): (v: Option<string>)
      reads this
      ensures v.Some? <==> key in syncMetadata
      ensures v.Some? ==> v.value == syncMetadata[key]
    {
      if key in syncMetadata then Some(syncMetadata[key]) else None
    }

    /** `DELETE FROM materiais`. */
    method DeleteAllMaterials()
      modifies this
      ensures materiais == [] && syncMetadata == old(syncMetadata)
    {
      materiais := [];
    }

    /** `INSERT INTO materiais ...`: the row goes after every existing row. */
    method InsertMaterial(row: MaterialRow)
      modifies this
      ensures materiais == old(materiais) + [row] && syncMetadata == old(syncMetadata)
    {
      materiais := materiais + [row];
    }

    /** One multi-row `INSERT INTO materiais ... VALUES ...`: the rows go after every
        existing row, in order. */
    method InsertMaterials(rows: seq<MaterialRow>)
      modifies this
      ensures materiais == old(materiais) + rows && syncMetadata == old(syncMetadata)
    {
      materiais := materiais + rows;
    }

    /** `INSERT OR REPLACE INTO sync_metadata (key, value)`. */
    method UpsertMetadata(key: string, value: string)
      modifies this
      ensures syncMetadata == old(syncMetadata)[key := value] && materiais == old(materiais)
    {
      syncMetadata := syncMetadata[key := value];
    }

    /** The price lookup of the budget: scans the table in order for the first row with the
        code. */
    method FindByCode(codigo: string) returns (r: Option<MaterialRow>)
      ensures r == FirstWithCode(materiais, codigo)
    {
      var i := 0;
      while i < |materiais| && materiais[i].codigo != codigo
        invariant 0 <= i <= |materiais|
        invariant FirstWithCode(materiais[i..], codigo) == FirstWithCode(materiais, codigo)
      {
        assert materiais[i..][1..] == materiais[i + 1..];
        i := i + 1;
      }
      if i < |materiais| {
        r := Some(materiais[i]);
      } else {
        r := None;
      }
    }
  }
}
