/**
 * The `paises` table (scripts/data_store.py): a table keyed by country name,
 * created if missing, and filled by one upsert per entry of a dictionary.
 */
module CountryStore {
  import opened Wrappers
  import opened Json

  /** A value as SQLite stores it once bound as a statement parameter. */
  datatype SqlValue = SqlNull | SqlInteger(i: int) | SqlText(t: string)

  /** The range of SQLite's 64-bit INTEGER. */
  const MinInteger: int := -0x8000_0000_0000_0000
  const MaxInteger: int := 0x7FFF_FFFF_FFFF_FFFF

  /** A row of `paises` apart from its key `nome`. */
  datatype Row = Row(capital: SqlValue, populacao: SqlValue, continente: SqlValue)

  /** Why `save_to_db` raised. */
  datatype StoreError =
    | NoSuchTable                 // the INSERT ran before `paises` was created
    | Unbindable(nome: string)    // a field of this entry is a list, an object or too large an integer

  datatype SaveOutcome = Saved | Failed(error: StoreError)

  /** The JSON value a stored value reads back as. */
  function Stored(v: SqlValue): Json {
    match v
    case SqlNull => JNull
    case SqlInteger(i) => JNum(i)
    case SqlText(t) => JStr(t)
  }

  /** Binding a Python value as a parameter: `None`, booleans, integers in range and strings bind; the rest raise. */
  function Bind(j: Json): (v: Option<SqlValue>)
    ensures v.None? <==> j.JArr? || j.JObj? || (j.JNum? && !(MinInteger <= j.n <= MaxInteger))
    ensures v.Some? && !j.JBool? ==> Stored(v.value) == j
    ensures j.JBool? ==> v == Some(SqlInteger(if j.b then 1 else 0))
  {
    match j
    case JNull => Some(SqlNull)
    case JBool(b) => Some(SqlInteger(if b then 1 else 0))
    case JNum(n) => if MinInteger <= n <= MaxInteger then Some(SqlInteger(n)) else None
    case JStr(s) => Some(SqlText(s))
    case JArr(_) => None
    case JObj(_) => None
  }

  /** Binding what was stored gives it back. */
  lemma BindStored(v: SqlValue)
    requires v.SqlInteger? ==> MinInteger <= v.i <= MaxInteger
    ensures Bind(Stored(v)) == Some(v)
  {
  }

  /** `info.get(field)` bound as a parameter: an absent field binds as NULL. */
  function Column(info: Object, field: string): (v: Option<SqlValue>)
    ensures field !in info ==> v == Some(SqlNull)
    ensures field in info ==> v == Bind(info[field])
  {
    if field in info then Bind(info[field]) else Some(SqlNull)
  }

  /** The row an entry is upserted as, or None when one of its fields cannot be bound. */
  function RowOf(info: Object): (r: Option<Row>)
    ensures r.Some? <==> Column(info, "capital").Some? && Column(info, "populacao").Some? && Column(info, "continente").Some?
    ensures r.Some? ==> r.value == Row(Column(info, "capital").value, Column(info, "populacao").value, Column(info, "continente").value)
  {
    var capital := Column(info, "capital");
    var populacao := Column(info, "populacao");
    var continente := Column(info, "continente");
    if capital.Some? && populacao.Some? && continente.Some? then
      Some(Row(capital.value, populacao.value, continente.value))
    else
      None
  }

  /** Every entry of `data` can be bound. */
  predicate AllBindable(data: map<string, Object>) {
    forall nome :: nome in data ==> RowOf(data[nome]).Some?
  }

  /** The entries of `data` whose names are in `names`. */
  function Restrict(data: map<string, Object>, names: set<string>): map<string, Object> {
    map nome | nome in data && nome in names :: data[nome]
  }

  /** The table after upserting every entry of `data` into `table`. */
  function Upserted(table: map<string, Row>, data: map<string, Object>): map<string, Row>
    requires AllBindable(data)
  {
    map nome | nome in table.Keys + data.Keys :: if nome in data then RowOf(data[nome]).value else table[nome]
  }

  /** One more entry upserted after the others: what the loop of `save_to_db` does per entry. */
  lemma UpsertedStep(table: map<string, Row>, data: map<string, Object>, done: set<string>, nome: string)
    requires nome in data && RowOf(data[nome]).Some?
    requires AllBindable(Restrict(data, done))
    ensures AllBindable(Restrict(data, done + {nome}))
    ensures Upserted(table, Restrict(data, done + {nome}))
         == Upserted(table, Restrict(data, done))[nome := RowOf(data[nome]).value]
  {
    assert Restrict(data, done + {nome}) == Restrict(data, done)[nome := data[nome]];
  }

  /**
   * After the upserts: the keys are the old keys and the entries' names, each entry's
   * name holds that entry's fields (NULL where absent), and every other row is unchanged.
   */
  lemma UpsertedRows(table: map<string, Row>, data: map<string, Object>)
    requires AllBindable(data)
    ensures Upserted(table, data).Keys == table.Keys + data.Keys
    ensures forall nome :: nome in data ==>
      var row := Upserted(table, data)[nome];
      && Column(data[nome], "capital") == Some(row.capital)
      && Column(data[nome], "populacao") == Some(row.populacao)
      && Column(data[nome], "continente") == Some(row.continente)
    ensures forall nome :: nome in table && nome !in data ==> Upserted(table, data)[nome] == table[nome]
  {
  }

  /** Saving the same entries twice gives the same table as saving them once. */
  lemma UpsertedIdempotent(table: map<string, Row>, data: map<string, Object>)
    requires AllBindable(data)
    ensures Upserted(Upserted(table, data), data) == Upserted(table, data)
  {
  }

  /** A database file, seen through one connection. */
  class Database {
    /** Whether the table `paises` exists. */
    var hasPaises: bool
    /** The rows of `paises`, keyed by the primary key `nome`. */
    var paises: map<string, Row>

    ghost predicate Valid()
      reads this
    {
      !hasPaises ==> paises == map[]
    }

    /** A new database file, without any table. */
    constructor ()
      ensures Valid() && !hasPaises
    {
      hasPaises := false;
      paises := map[];
    }

    /** `init_db`: `CREATE TABLE IF NOT EXISTS paises`; an existing table keeps its rows. */
    method InitDb()
      requires Valid()
      modifies this
      ensures Valid() && hasPaises
      ensures paises == old(paises)
    {
      if !hasPaises {
        hasPaises := true;
        paises := map[];
      }
    }

    /**
     * `save_to_db`: one INSERT ... ON CONFLICT(nome) DO UPDATE per entry of `data`.
     * It succeeds exactly when there is nothing to insert, or the table exists and every
     * entry can be bound. A missing table is reported before any binding, since the statement
     * is prepared before its parameters are bound. On failure, the upserts already executed
     * (those in `applied`) remain.
     */
    method SaveToDb(data: map<string, Object>) returns (outcome: SaveOutcome, ghost applied: set<string>)
      requires Valid()
      modifies this
      ensures Valid() && hasPaises == old(hasPaises)
      ensures outcome.Saved? <==> data == map[] || (hasPaises && AllBindable(data))
      ensures outcome.Saved? ==> applied == data.Keys
      ensures outcome == Failed(NoSuchTable) ==> !hasPaises && data != map[] && applied == {}
      ensures !hasPaises && data != map[] ==> outcome == Failed(NoSuchTable)
      ensures outcome.Failed? && outcome.error.Unbindable? ==>
        outcome.error.nome in data && RowOf(data[outcome.error.nome]).None?
      ensures applied <= data.Keys && AllBindable(Restrict(data, applied))
      ensures paises == Upserted(old(paises), Restrict(data, applied))
    {
      var remaining := data.Keys;
      applied := {};
      while remaining != {}
        invariant remaining !! applied && remaining + applied == data.Keys
        invariant AllBindable(Restrict(data, applied))
        invariant paises == Upserted(old(paises), Restrict(data, applied))
        invariant hasPaises == old(hasPaises) && Valid()
        invariant !hasPaises ==> applied == {}
        decreases remaining
      {
        var pais :| pais in remaining;
        if !hasPaises {
          return Failed(NoSuchTable), applied;
        }
        var row := RowOf(data[pais]);
        if row.None? {
          return Failed(Unbindable(pais)), applied;
        }
        UpsertedStep(old(paises), data, applied, pais);
        paises := paises[pais := row.value];
        applied := applied + {pais};
        remaining := remaining - {pais};
      }
      assert Restrict(data, applied) == data;
      outcome := Saved;
    }
  }

  /** A second save of the same entries leaves the table as the first one left it. */
  method SaveTwice(db: Database, data: map<string, Object>)
    requires db.Valid() && db.hasPaises && AllBindable(data)
    modifies db
    ensures db.paises == Upserted(old(db.paises), data)
  {
    assert Restrict(data, data.Keys) == data;
    var _, _ := db.SaveToDb(data);
    var _, _ := db.SaveToDb(data);
    UpsertedIdempotent(old(db.paises), data);
  }
}
