/**
 * The schema of the SQLite file: which of the two tables exist, with which
 * columns, and the DDL steps that change it (CREATE TABLE IF NOT EXISTS,
 * ALTER TABLE ... ADD COLUMN and the numbered migration scripts).
 */
module Schema {
  import opened Wrappers

  datatype Table = Absent | Present(columns: set<string>)

  datatype TableName = AlunosTable | PlanosTable

  /** The schema of both tables. */
  datatype Catalog = Catalog(alunos: Table, planos: Table)

  /** Errors the record store raises: SQLite's OperationalError for a
      missing table or column and for DDL conflicts, SQLITE_FULL when
      AUTOINCREMENT runs out of ids, the ValueError of the column
      allow-list, and the OverflowError of binding an integer parameter
      that does not fit SQLite's 64-bit INTEGER. */
  datatype StoreError =
    | NoSuchTable
    | NoSuchColumn
    | DuplicateColumn(column: string)
    | Full
    | InvalidColumn(campo: string)
    | Overflow

  const ALUNO_COLUMNS: set<string> :=
    {"id", "nome", "email", "data_inicio", "plano", "pagamento", "progresso", "dieta", "treino"}
  const PLANO_COLUMNS: set<string> := {"id", "aluno_id", "nome", "descricao", "exercicios"}

  /** A database file nothing has been created in. */
  const EMPTY: Catalog := Catalog(Absent, Absent)

  /** The schema every CRUD statement is written against. */
  const LATEST: Catalog := Catalog(Present(ALUNO_COLUMNS), Present(PLANO_COLUMNS))

  function ColumnsOf(name: TableName): set<string>
  {
    match name
    case AlunosTable => ALUNO_COLUMNS
    case PlanosTable => PLANO_COLUMNS
  }

  function TableOf(c: Catalog, name: TableName): Table
  {
    match name
    case AlunosTable => c.alunos
    case PlanosTable => c.planos
  }

  function WithTable(c: Catalog, name: TableName, t: Table): Catalog
  {
    match name
    case AlunosTable => c.(alunos := t)
    case PlanosTable => c.(planos := t)
  }

  /** CREATE TABLE IF NOT EXISTS: an existing table is left as it is,
      whatever its columns. */
  function CreateIfNotExists(c: Catalog, name: TableName): (r: Catalog)
    ensures TableOf(c, name).Present? ==> r == c
    ensures TableOf(c, name).Absent? ==> TableOf(r, name) == Present(ColumnsOf(name))
    ensures forall t :: t != name ==> TableOf(r, t) == TableOf(c, t)
  {
    if TableOf(c, name).Absent? then WithTable(c, name, Present(ColumnsOf(name))) else c
  }

  /** ALTER TABLE ... ADD COLUMN: OperationalError when the table is missing
      or already has the column. */
  function AddColumn(c: Catalog, name: TableName, column: string): (r: Result<Catalog, StoreError>)
    ensures r.Success? <==> TableOf(c, name).Present? && column !in TableOf(c, name).columns
    ensures r.Success? ==> r.value == WithTable(c, name, Present(TableOf(c, name).columns + {column}))
  {
    match TableOf(c, name)
    case Absent => Failure(NoSuchTable)
    case Present(cols) =>
      if column in cols then Failure(DuplicateColumn(column))
      else Success(WithTable(c, name, Present(cols + {column})))
  }

  /** Preparing a statement that names the columns `cols` of table `name`:
      SQLite's "no such table" or "no such column" OperationalError. */
  function Resolve(c: Catalog, name: TableName, cols: set<string>): (r: Outcome<StoreError>)
    ensures r.Pass? <==> TableOf(c, name).Present? && cols <= TableOf(c, name).columns
    ensures r.Fail? ==> r.error == if TableOf(c, name).Absent? then NoSuchTable else NoSuchColumn
  {
    match TableOf(c, name)
    case Absent => Fail(NoSuchTable)
    case Present(columns) => if cols <= columns then Pass else Fail(NoSuchColumn)
  }

  // ----- Versioned migrations (src/ia_sarah/core/adapters/repositories/db.py) -----

  /** The two scripts of MIGRATIONS; both are CREATE TABLE IF NOT EXISTS. */
  datatype Migration = CreateAlunos | CreatePlanos

  const MIGRATIONS: seq<Migration> := [CreateAlunos, CreatePlanos]

  function ApplyMigration(c: Catalog, m: Migration): Catalog
  {
    match m
    case CreateAlunos => CreateIfNotExists(c, AlunosTable)
    case CreatePlanos => CreateIfNotExists(c, PlanosTable)
  }

  /** Runs the scripts with the given 1-based indices, in the given order. */
  function ApplyAll(c: Catalog, indices: seq<int>): Catalog
    requires forall i :: 0 <= i < |indices| ==> 1 <= indices[i] <= |MIGRATIONS|
  {
    if indices == [] then c
    else ApplyMigration(ApplyAll(c, indices[..|indices| - 1]), MIGRATIONS[indices[|indices| - 1] - 1])
  }

  function Max(a: int, b: int): int
  {
    if a < b then b else a
  }

  /** The indices among 1..k that exceed the stored version `v`, ascending. */
  function PendingUpTo(v: int, k: nat): seq<int>
  {
    if k == 0 then [] else PendingUpTo(v, k - 1) + (if k > v then [k] else [])
  }

  /** The scripts `init_db` runs when `user_version` is `v`. */
  function Pending(v: int): seq<int>
  {
    PendingUpTo(v, |MIGRATIONS|)
  }

  ghost predicate StrictlyIncreasing(s: seq<int>)
  {
    forall i, j :: 0 <= i < j < |s| ==> s[i] < s[j]
  }

  /** Exactly the indices above `v`, each once, in increasing order. */
  lemma {:induction false} PendingUpToSpec(v: int, k: nat)
    ensures StrictlyIncreasing(PendingUpTo(v, k))
    ensures forall i :: i in PendingUpTo(v, k) <==> 1 <= i <= k && v < i
  {
    if k > 0 {
      PendingUpToSpec(v, k - 1);
      var prefix := PendingUpTo(v, k - 1);
      var s := PendingUpTo(v, k);
      forall i, j | 0 <= i < j < |s|
        ensures s[i] < s[j]
      {
        if j >= |prefix| {
          assert s[i] == prefix[i] && prefix[i] in prefix;
        }
      }
    }
  }

  lemma PendingSpec(v: int)
    ensures StrictlyIncreasing(Pending(v))
    ensures forall i :: i in Pending(v) <==> 1 <= i <= |MIGRATIONS| && v < i
    ensures forall i :: 0 <= i < |Pending(v)| ==> 1 <= Pending(v)[i] <= |MIGRATIONS|
  {
    PendingUpToSpec(v, |MIGRATIONS|);
    forall i | 0 <= i < |Pending(v)|
      ensures 1 <= Pending(v)[i] <= |MIGRATIONS|
    {
      assert Pending(v)[i] in Pending(v);
    }
  }

  /** Once `init_db` has left the version at max(v, 2), a second run applies nothing. */
  lemma NothingPendingAfterInit(v: int)
    ensures Pending(Max(v, |MIGRATIONS|)) == []
  {
    var w := Max(v, |MIGRATIONS|);
    assert PendingUpTo(w, 1) == PendingUpTo(w, 0) == [];
  }

  /** On a file with neither table, or with tables already in the latest
      shape, running every pending script from version 0 or below gives the
      latest schema. */
  lemma MigrationsReachLatest(c: Catalog, v: int)
    requires v <= 0
    requires c.alunos == Absent || c.alunos == Present(ALUNO_COLUMNS)
    requires c.planos == Absent || c.planos == Present(PLANO_COLUMNS)
    ensures Pending(v) == [1, 2]
    ensures ApplyAll(c, Pending(v)) == LATEST
  {
    assert PendingUpTo(v, 1) == [1];
    assert Pending(v) == [1, 2];
    assert ApplyAll(c, [1]) == ApplyMigration(ApplyAll(c, []), CreateAlunos);
  }

  // ----- The unversioned initialisation of src/db.py -----

  /** The schema after ALTER TABLE ... ADD COLUMN whose OperationalError is swallowed. */
  function AddColumnTolerant(c: Catalog, name: TableName, column: string): Catalog
  {
    match AddColumn(c, name, column)
    case Success(c') => c'
    case Failure(_) => c
  }

  /** The four steps of the older `init_db`, in order. */
  function LegacyInit(c: Catalog): Catalog
  {
    var c1 := CreateIfNotExists(c, AlunosTable);
    var c2 := AddColumnTolerant(c1, AlunosTable, "email");
    var c3 := CreateIfNotExists(c2, PlanosTable);
    AddColumnTolerant(c3, AlunosTable, "data_inicio")
  }

  /** The older `init_db` leaves both tables in place, keeps every column,
      guarantees `email` and `data_inicio`, and is idempotent. */
  lemma LegacyInitSpec(c: Catalog)
    ensures LegacyInit(c).alunos.Present? && LegacyInit(c).planos.Present?
    ensures {"email", "data_inicio"} <= LegacyInit(c).alunos.columns
    ensures c.alunos.Present? ==> LegacyInit(c).alunos.columns == c.alunos.columns + {"email", "data_inicio"}
    ensures c.alunos.Absent? ==> LegacyInit(c).alunos.columns == ALUNO_COLUMNS
    ensures c.planos.Present? ==> LegacyInit(c).planos == c.planos
    ensures LegacyInit(LegacyInit(c)) == LegacyInit(c)
  {
  }

  /** On a fresh file the older `init_db` builds the latest schema. */
  lemma LegacyInitOfEmpty()
    ensures LegacyInit(EMPTY) == LATEST
  {
  }
}
