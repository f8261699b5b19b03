/**
 * The older store of src/db.py. Its statements on rows are the same as
 * those of the current store (modelled by RecordStore.Database); only
 * `init_db` differs: no `user_version`, two CREATE TABLE IF NOT EXISTS and
 * two ALTER TABLE ... ADD COLUMN whose "duplicate column" error is caught
 * and ignored.
 */
module LegacyDb {
  import opened Wrappers
  import opened Schema
  import opened RecordStore

  /** The older `init_db`, statement by statement. */
  method InitDb(db: Database)
    requires db.Valid()
    modifies db`catalog
    ensures db.Valid()
    ensures db.catalog == LegacyInit(old(db.catalog))
  {
    db.CreateTableIfNotExists(AlunosTable);
    var ignored := db.AlterTableAddColumn(AlunosTable, "email");
    db.CreateTableIfNotExists(PlanosTable);
    ignored := db.AlterTableAddColumn(AlunosTable, "data_inicio");
  }

  /** On a new file the older `init_db` creates every column, so every row
      statement of the store prepares without an OperationalError. */
  lemma InitOfEmptyPrepares(cols: set<string>, name: TableName)
    requires cols <= ColumnsOf(name)
    ensures Resolve(LegacyInit(EMPTY), name, cols) == Pass
  {
    LegacyInitOfEmpty();
  }

  /** A student added to a new file is read back with its name and email
      and is listed. */
  method AddAndGetScenario(today: string)
    returns (aluno: Result<Option<AlunoRecord>, StoreError>, todos: Result<seq<AlunoSummary>, StoreError>)
    ensures aluno.Success? && aluno.value.Some?
    ensures aluno.value.value.row.nome == "Maria" && aluno.value.value.row.email == Some("maria@test.com")
    ensures todos.Success?
    ensures exists i :: 0 <= i < |todos.value| && todos.value[i].id == aluno.value.value.id
  {
    var db := new Database();
    InitDb(db);
    InitOfEmptyPrepares(INSERT_ALUNO_COLUMNS, AlunosTable);
    InitOfEmptyPrepares(ALUNO_COLUMNS, AlunosTable);
    InitOfEmptyPrepares(SUMMARY_COLUMNS, AlunosTable);
    var added := db.AdicionarAluno("Maria", "maria@test.com", today);
    aluno := db.ObterAluno(added.value);
    todos := db.ListarAlunos();
    var listed := Summary(added.value, db.alunos[added.value]);
    assert listed in todos.value;
    var i :| 0 <= i < |todos.value| && todos.value[i] == listed;
  }

  /** A plan added for a new student is that student's only plan. */
  method PlanScenario(today: string) returns (planoId: int, planos: Result<seq<PlanoSummary>, StoreError>)
    ensures planos.Success?
    ensures |planos.value| == 1
    ensures planos.value[0].id == planoId
  {
    var db := new Database();
    InitDb(db);
    InitOfEmptyPrepares(INSERT_ALUNO_COLUMNS, AlunosTable);
    InitOfEmptyPrepares(INSERT_PLANO_COLUMNS, PlanosTable);
    InitOfEmptyPrepares(PLANO_COLUMNS, PlanosTable);
    var alunoId := db.AdicionarAluno("Jose", "jose@test.com", today);
    var added := db.AdicionarPlano(alunoId.value, "Treino A", "descricao", "[]");
    planoId := added.value;
    planos := db.ListarPlanos(alunoId.value);
    var s := planos.value;
    assert PlanoSummaryOf(planoId, db.planos[planoId]) in s;
    assert db.planos.Keys == {planoId};
    assert forall i :: 0 <= i < |s| ==> s[i].id == planoId;
    assert s[|s| - 1].id == s[0].id;
  }
}
