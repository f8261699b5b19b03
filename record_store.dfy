/**
 * The SQLite record store of src/ia_sarah/core/adapters/repositories/db.py:
 * the `alunos` and `planos` tables, their AUTOINCREMENT counters,
 * `user_version`, and every statement the module runs against them.
 *
 * A table is a map from id to row. Rows are scanned in ascending id order
 * (a rowid table is a B-tree on its id), which the `Scan...` functions
 * below spell out; `ORDER BY nome` sorts that scan under the BINARY
 * collation.
 */
module RecordStore {
  import opened Wrappers
  import opened Collation
  import opened Schema

  /** The largest rowid SQLite will hand out (2^63 - 1). */
  const MAX_ROWID: int := 0x7FFF_FFFF_FFFF_FFFF

  /** The smallest value of SQLite's 64-bit INTEGER (-2^63). */
  const MIN_INTEGER: int := -0x8000_0000_0000_0000

  /** A Python int that binds as an SQLite INTEGER without OverflowError. */
  predicate FitsInteger(x: int)
  {
    MIN_INTEGER <= x <= MAX_ROWID
  }

  /** Running a statement with one integer parameter: the statement is
      prepared first (OperationalError), then the parameter is bound
      (OverflowError, which is not an `sqlite3.Error` and propagates). */
  function PrepareBind(prepared: Outcome<StoreError>, x: int): (r: Outcome<StoreError>)
    ensures r.Pass? <==> prepared.Pass? && FitsInteger(x)
    ensures r.Fail? ==> r.error == if prepared.Fail? then prepared.error else Overflow
  {
    if prepared.Fail? then prepared
    else if !FitsInteger(x) then Fail(Overflow)
    else Pass
  }

  /** One row of `alunos`, without its id. Only `nome` is NOT NULL. */
  datatype AlunoRow = AlunoRow(
    nome: string,
    email: Option<string>,
    dataInicio: Option<string>,
    plano: Option<string>,
    pagamento: Option<string>,
    progresso: Option<string>,
    dieta: Option<string>,
    treino: Option<string>)

  /** One row of `planos`, without its id. */
  datatype PlanoRow = PlanoRow(alunoId: int, nome: string, descricao: string, exercicios: string)

  /** The columns the row statements name, beyond the whole-table sets of Schema. */
  const SUMMARY_COLUMNS: set<string> := {"id", "nome", "email", "data_inicio"}
  const INSERT_ALUNO_COLUMNS: set<string> := {"nome", "email", "data_inicio"}
  const INSERT_PLANO_COLUMNS: set<string> := {"aluno_id", "nome", "descricao", "exercicios"}
  const UPDATE_PLANO_COLUMNS: set<string> := {"id", "nome", "descricao", "exercicios"}
  const RECENT_PLANO_COLUMNS: set<string> := {"id", "nome", "aluno_id"}

  /** The tuple `obter_aluno` returns: the id and all eight columns. */
  datatype AlunoRecord = AlunoRecord(id: int, row: AlunoRow)

  /** The tuple `listar_alunos` returns. */
  datatype AlunoSummary = AlunoSummary(id: int, nome: string, email: Option<string>, dataInicio: Option<string>)

  /** The tuple `listar_planos` returns. */
  datatype PlanoSummary = PlanoSummary(id: int, nome: string, descricao: string, exercicios: string)

  /** The tuple `listar_planos_recentes` returns. */
  datatype RecentPlano = RecentPlano(planoId: int, planoNome: string, alunoNome: string)

  // ----- The column allow-list of atualizar_aluno -----

  /** The eight columns `atualizar_aluno` may write. */
  datatype Column = Nome | Email | DataInicio | Plano | Pagamento | Progresso | Dieta | Treino

  const VALID_UPDATE_FIELDS: set<string> :=
    {"nome", "email", "data_inicio", "plano", "pagamento", "progresso", "dieta", "treino"}

  function ColumnName(c: Column): string
  {
    match c
    case Nome => "nome"
    case Email => "email"
    case DataInicio => "data_inicio"
    case Plano => "plano"
    case Pagamento => "pagamento"
    case Progresso => "progresso"
    case Dieta => "dieta"
    case Treino => "treino"
  }

  /** The allow-list check: a column for exactly the names in
      VALID_UPDATE_FIELDS, and the column of that very name. */
  function ParseColumn(campo: string): (r: Option<Column>)
    ensures r.Some? <==> campo in VALID_UPDATE_FIELDS
    ensures r.Some? ==> ColumnName(r.value) == campo
  {
    if campo == "nome" then Some(Nome)
    else if campo == "email" then Some(Email)
    else if campo == "data_inicio" then Some(DataInicio)
    else if campo == "plano" then Some(Plano)
    else if campo == "pagamento" then Some(Pagamento)
    else if campo == "progresso" then Some(Progresso)
    else if campo == "dieta" then Some(Dieta)
    else if campo == "treino" then Some(Treino)
    else None
  }

  /** Every allowed column is accepted under its own name, and `id` is not. */
  lemma ColumnNamesRoundTrip(c: Column)
    ensures ParseColumn(ColumnName(c)) == Some(c)
    ensures ParseColumn("id") == None
  {
  }

  /** The value a row holds in a column (`nome` is never NULL). */
  function ColumnValue(a: AlunoRow, c: Column): Option<string>
  {
    match c
    case Nome => Some(a.nome)
    case Email => a.email
    case DataInicio => a.dataInicio
    case Plano => a.plano
    case Pagamento => a.pagamento
    case Progresso => a.progresso
    case Dieta => a.dieta
    case Treino => a.treino
  }

  /** `UPDATE alunos SET <c>=?` on one row: that column takes the value and
      no other column changes. */
  function SetColumn(a: AlunoRow, c: Column, v: string): (r: AlunoRow)
    ensures ColumnValue(r, c) == Some(v)
    ensures forall d :: d != c ==> ColumnValue(r, d) == ColumnValue(a, d)
  {
    match c
    case Nome => a.(nome := v)
    case Email => a.(email := Some(v))
    case DataInicio => a.(dataInicio := Some(v))
    case Plano => a.(plano := Some(v))
    case Pagamento => a.(pagamento := Some(v))
    case Progresso => a.(progresso := Some(v))
    case Dieta => a.(dieta := Some(v))
    case Treino => a.(treino := Some(v))
  }

  /** The row `INSERT INTO alunos (nome, email, data_inicio)` creates. */
  function NewAluno(nome: string, email: string, today: string): AlunoRow
  {
    AlunoRow(nome, Some(email), Some(today), None, None, None, None, None)
  }

  // ----- SELECT id, nome, email, data_inicio FROM alunos ORDER BY nome -----

  function Summary(id: int, a: AlunoRow): AlunoSummary
  {
    AlunoSummary(id, a.nome, a.email, a.dataInicio)
  }

  /** The `alunos` rows with ids 1..n, in ascending id order. */
  function ScanAlunos(alunos: map<int, AlunoRow>, n: int): seq<AlunoSummary>
    decreases n
  {
    if n <= 0 then []
    else ScanAlunos(alunos, n - 1) + (if n in alunos then [Summary(n, alunos[n])] else [])
  }

  /** Every entry of `s` is the projection of an existing row with an id in 1..n. */
  ghost predicate AlunosProjected(alunos: map<int, AlunoRow>, s: seq<AlunoSummary>, n: int)
  {
    forall i :: 0 <= i < |s| ==>
      1 <= s[i].id <= n && s[i].id in alunos && s[i] == Summary(s[i].id, alunos[s[i].id])
  }

  ghost predicate AlunoIdsAscending(s: seq<AlunoSummary>)
  {
    forall i, j :: 0 <= i < j < |s| ==> s[i].id < s[j].id
  }

  /** Every row with an id in 1..n has its projection in `s`. */
  ghost predicate AlunosCovered(alunos: map<int, AlunoRow>, s: seq<AlunoSummary>, n: int)
  {
    forall id :: id in alunos && 1 <= id <= n ==> Summary(id, alunos[id]) in s
  }

  /** Every scanned entry is an existing row with an id in 1..n, projected. */
  lemma {:induction false} ScanAlunosSound(alunos: map<int, AlunoRow>, n: int)
    ensures AlunosProjected(alunos, ScanAlunos(alunos, n), n)
    decreases n
  {
    if n > 0 {
      ScanAlunosSound(alunos, n - 1);
      var prev := ScanAlunos(alunos, n - 1);
      var s := ScanAlunos(alunos, n);
      forall i | 0 <= i < |s|
        ensures 1 <= s[i].id <= n && s[i].id in alunos && s[i] == Summary(s[i].id, alunos[s[i].id])
      {
        assert s == prev + (if n in alunos then [Summary(n, alunos[n])] else []);
        if i < |prev| {
          assert s[i] == prev[i];
        } else {
          assert s[i] == Summary(n, alunos[n]);
        }
      }
    }
  }

  /** The scan visits ids in strictly ascending order. */
  lemma {:induction false} ScanAlunosAscending(alunos: map<int, AlunoRow>, n: int)
    ensures AlunoIdsAscending(ScanAlunos(alunos, n))
    decreases n
  {
    if n > 0 {
      ScanAlunosAscending(alunos, n - 1);
      ScanAlunosSound(alunos, n - 1);
      var prev := ScanAlunos(alunos, n - 1);
      var s := ScanAlunos(alunos, n);
      forall i, j | 0 <= i < j < |s|
        ensures s[i].id < s[j].id
      {
        assert s[i] == prev[i];
        if j < |prev| {
          assert s[j] == prev[j];
        }
      }
    }
  }

  /** Every row with an id in 1..n is scanned. */
  lemma {:induction false} ScanAlunosComplete(alunos: map<int, AlunoRow>, n: int)
    ensures AlunosCovered(alunos, ScanAlunos(alunos, n), n)
    decreases n
  {
    if n > 0 {
      ScanAlunosComplete(alunos, n - 1);
      var prev := ScanAlunos(alunos, n - 1);
      var s := ScanAlunos(alunos, n);
      forall id | id in alunos && 1 <= id <= n
        ensures Summary(id, alunos[id]) in s
      {
        if id == n {
          assert s[|s| - 1] == Summary(id, alunos[id]);
        } else {
          var k :| 0 <= k < |prev| && prev[k] == Summary(id, alunos[id]);
          assert s[k] == prev[k];
        }
      }
    }
  }

  /** The scan holds one entry per row with an id in 1..n. */
  lemma {:induction false} ScanAlunosCount(alunos: map<int, AlunoRow>, n: int)
    ensures |ScanAlunos(alunos, n)| == |set id | id in alunos && 1 <= id <= n|
    decreases n
  {
    if n <= 0 {
      assert (set id | id in alunos && 1 <= id <= n) == {};
    } else {
      ScanAlunosCount(alunos, n - 1);
      var prev := set id | id in alunos && 1 <= id <= n - 1;
      var cur := set id | id in alunos && 1 <= id <= n;
      if n in alunos {
        assert cur == prev + {n};
      } else {
        assert cur == prev;
      }
    }
  }

  /** Inserts `x` before the first entry it sorts no later than. */
  function InsertByNome(x: AlunoSummary, s: seq<AlunoSummary>): seq<AlunoSummary>
  {
    if s == [] then [x]
    else if BinaryLe(x.nome, s[0].nome) then [x] + s
    else [s[0]] + InsertByNome(x, s[1..])
  }

  /** The sort SQLite applies for ORDER BY nome. The order of equal names is
      not specified by SQLite; this one is one of the allowed orders. */
  function SortByNome(s: seq<AlunoSummary>): seq<AlunoSummary>
  {
    if s == [] then [] else InsertByNome(s[0], SortByNome(s[1..]))
  }

  ghost predicate SortedByNome(s: seq<AlunoSummary>)
  {
    forall i, j :: 0 <= i < j < |s| ==> BinaryLe(s[i].nome, s[j].nome)
  }

  ghost predicate DistinctIds(s: seq<AlunoSummary>)
  {
    forall i, j :: 0 <= i < j < |s| ==> s[i].id != s[j].id
  }

  lemma {:induction false} InsertByNomePermutes(x: AlunoSummary, s: seq<AlunoSummary>)
    ensures multiset(InsertByNome(x, s)) == multiset(s) + multiset{x}
  {
    if s != [] && !BinaryLe(x.nome, s[0].nome) {
      InsertByNomePermutes(x, s[1..]);
      assert s == [s[0]] + s[1..];
    }
  }

  /** An entry no later than every entry of a sorted sequence may go in front. */
  lemma SortedCons(y: AlunoSummary, t: seq<AlunoSummary>)
    requires SortedByNome(t)
    requires forall k :: 0 <= k < |t| ==> BinaryLe(y.nome, t[k].nome)
    ensures SortedByNome([y] + t)
  {
    var r := [y] + t;
    forall i, j | 0 <= i < j < |r|
      ensures BinaryLe(r[i].nome, r[j].nome)
    {
      assert r[j] == t[j - 1];
      if i > 0 {
        assert r[i] == t[i - 1];
      }
    }
  }

  lemma {:induction false} InsertByNomeSorted(x: AlunoSummary, s: seq<AlunoSummary>)
    requires SortedByNome(s)
    ensures SortedByNome(InsertByNome(x, s))
  {
    if s != [] {
      if BinaryLe(x.nome, s[0].nome) {
        forall k | 0 <= k < |s|
          ensures BinaryLe(x.nome, s[k].nome)
        {
          if k > 0 {
            BinaryLeTransitive(x.nome, s[0].nome, s[k].nome);
          }
        }
        SortedCons(x, s);
      } else {
        var t := InsertByNome(x, s[1..]);
        InsertByNomeSorted(x, s[1..]);
        InsertByNomePermutes(x, s[1..]);
        BinaryLeTotal(x.nome, s[0].nome);
        forall k | 0 <= k < |t|
          ensures BinaryLe(s[0].nome, t[k].nome)
        {
          assert t[k] in multiset(t);
          if t[k] != x {
            assert t[k] in multiset(s[1..]);
            var m :| 0 <= m < |s[1..]| && s[1..][m] == t[k];
            assert s[m + 1] == t[k];
          }
        }
        SortedCons(s[0], t);
      }
    }
  }

  /** Every entry of the insertion is `x` or an entry of `s`. */
  lemma InsertByNomeMembers(x: AlunoSummary, s: seq<AlunoSummary>)
    ensures forall e :: e in InsertByNome(x, s) ==> e == x || e in s
  {
    InsertByNomePermutes(x, s);
    forall e | e in InsertByNome(x, s)
      ensures e == x || e in s
    {
      assert e in multiset(InsertByNome(x, s));
    }
  }

  /** With distinct ids, no later entry shares the first one's id. */
  lemma HeadIdFresh(s: seq<AlunoSummary>)
    requires DistinctIds(s) && s != []
    ensures forall e :: e in s[1..] ==> e.id != s[0].id
  {
    forall e | e in s[1..]
      ensures e.id != s[0].id
    {
      var k :| 0 <= k < |s[1..]| && s[1..][k] == e;
      assert s[k + 1] == e;
    }
  }

  /** An entry whose id none of a distinct sequence has may go in front. */
  lemma DistinctCons(y: AlunoSummary, t: seq<AlunoSummary>)
    requires DistinctIds(t)
    requires forall e :: e in t ==> e.id != y.id
    ensures DistinctIds([y] + t)
  {
    var r := [y] + t;
    forall i, j | 0 <= i < j < |r|
      ensures r[i].id != r[j].id
    {
      assert r[j] == t[j - 1];
      if i > 0 {
        assert r[i] == t[i - 1];
      }
    }
  }

  lemma {:induction false} InsertByNomeDistinct(x: AlunoSummary, s: seq<AlunoSummary>)
    requires DistinctIds(s)
    requires forall e :: e in s ==> e.id != x.id
    ensures DistinctIds(InsertByNome(x, s))
  {
    if s == [] {
    } else if BinaryLe(x.nome, s[0].nome) {
      DistinctCons(x, s);
    } else {
      var t := InsertByNome(x, s[1..]);
      assert DistinctIds(s[1..]);
      InsertByNomeDistinct(x, s[1..]);
      InsertByNomeMembers(x, s[1..]);
      HeadIdFresh(s);
      DistinctCons(s[0], t);
    }
  }

  /** ORDER BY nome returns the same entries, sorted. */
  lemma {:induction false} SortByNomeSpec(s: seq<AlunoSummary>)
    ensures SortedByNome(SortByNome(s))
    ensures multiset(SortByNome(s)) == multiset(s)
    ensures DistinctIds(s) ==> DistinctIds(SortByNome(s))
  {
    if s != [] {
      SortByNomeSpec(s[1..]);
      InsertByNomeSorted(s[0], SortByNome(s[1..]));
      InsertByNomePermutes(s[0], SortByNome(s[1..]));
      assert s == [s[0]] + s[1..];
      if DistinctIds(s) {
        var t := SortByNome(s[1..]);
        assert DistinctIds(s[1..]);
        HeadIdFresh(s);
        forall e | e in t
          ensures e.id != s[0].id
        {
          assert e in multiset(t);
        }
        InsertByNomeDistinct(s[0], t);
      }
    }
  }

  function ListarAlunosOf(alunos: map<int, AlunoRow>, n: int): seq<AlunoSummary>
  {
    SortByNome(ScanAlunos(alunos, n))
  }

  /** `listar_alunos`: every student exactly once, as (id, nome, email,
      data_inicio), sorted by nome; as many rows as COUNT(*). */
  lemma ListarAlunosSpec(alunos: map<int, AlunoRow>, n: int)
    requires forall id :: id in alunos ==> 1 <= id <= n
    ensures var r := ListarAlunosOf(alunos, n);
      && SortedByNome(r)
      && DistinctIds(r)
      && |r| == |alunos|
      && (forall i :: 0 <= i < |r| ==> r[i].id in alunos && r[i] == Summary(r[i].id, alunos[r[i].id]))
      && (forall id :: id in alunos ==> Summary(id, alunos[id]) in r)
  {
    var s := ScanAlunos(alunos, n);
    ScanAlunosSound(alunos, n);
    ScanAlunosAscending(alunos, n);
    ScanAlunosComplete(alunos, n);
    ScanAlunosCount(alunos, n);
    assert DistinctIds(s);
    SortByNomeSpec(s);
    var r := ListarAlunosOf(alunos, n);
    assert (set id | id in alunos && 1 <= id <= n) == alunos.Keys;
    assert |r| == |multiset(r)| == |multiset(s)| == |s|;
    forall i | 0 <= i < |r|
      ensures r[i].id in alunos && r[i] == Summary(r[i].id, alunos[r[i].id])
    {
      assert r[i] in multiset(s);
    }
    forall id | id in alunos
      ensures Summary(id, alunos[id]) in r
    {
      assert Summary(id, alunos[id]) in multiset(s);
    }
  }

  // ----- SELECT id, nome, descricao, exercicios FROM planos WHERE aluno_id=? ORDER BY id -----

  function PlanoSummaryOf(id: int, p: PlanoRow): PlanoSummary
  {
    PlanoSummary(id, p.nome, p.descricao, p.exercicios)
  }

  /** The plans of student `alunoId` among ids 1..n, in ascending id order. */
  function ScanPlanos(planos: map<int, PlanoRow>, n: int, alunoId: int): seq<PlanoSummary>
    decreases n
  {
    if n <= 0 then []
    else
      var own := n in planos && planos[n].alunoId == alunoId;
      ScanPlanos(planos, n - 1, alunoId) + (if own then [PlanoSummaryOf(n, planos[n])] else [])
  }

  /** Every entry of `s` is the projection of an existing plan of `alunoId`
      with an id in 1..n. */
  ghost predicate PlanosProjected(planos: map<int, PlanoRow>, s: seq<PlanoSummary>, n: int, alunoId: int)
  {
    forall i :: 0 <= i < |s| ==>
      && 1 <= s[i].id <= n && s[i].id in planos && planos[s[i].id].alunoId == alunoId
      && s[i] == PlanoSummaryOf(s[i].id, planos[s[i].id])
  }

  ghost predicate PlanoIdsAscending(s: seq<PlanoSummary>)
  {
    forall i, j :: 0 <= i < j < |s| ==> s[i].id < s[j].id
  }

  /** Every plan of `alunoId` with an id in 1..n has its projection in `s`. */
  ghost predicate PlanosCovered(planos: map<int, PlanoRow>, s: seq<PlanoSummary>, n: int, alunoId: int)
  {
    forall id :: id in planos && 1 <= id <= n && planos[id].alunoId == alunoId ==>
      PlanoSummaryOf(id, planos[id]) in s
  }

  /** Every scanned plan exists, belongs to `alunoId` and has an id in 1..n. */
  lemma {:induction false} ScanPlanosSound(planos: map<int, PlanoRow>, n: int, alunoId: int)
    ensures PlanosProjected(planos, ScanPlanos(planos, n, alunoId), n, alunoId)
    decreases n
  {
    if n > 0 {
      ScanPlanosSound(planos, n - 1, alunoId);
      var prev := ScanPlanos(planos, n - 1, alunoId);
      var s := ScanPlanos(planos, n, alunoId);
      forall i | 0 <= i < |s|
        ensures && 1 <= s[i].id <= n && s[i].id in planos && planos[s[i].id].alunoId == alunoId
                && s[i] == PlanoSummaryOf(s[i].id, planos[s[i].id])
      {
        if i < |prev| {
          assert s[i] == prev[i];
        }
      }
    }
  }

  /** The plans come in strictly ascending id order (ORDER BY id). */
  lemma {:induction false} ScanPlanosAscending(planos: map<int, PlanoRow>, n: int, alunoId: int)
    ensures PlanoIdsAscending(ScanPlanos(planos, n, alunoId))
    decreases n
  {
    if n > 0 {
      ScanPlanosAscending(planos, n - 1, alunoId);
      ScanPlanosSound(planos, n - 1, alunoId);
      var prev := ScanPlanos(planos, n - 1, alunoId);
      var s := ScanPlanos(planos, n, alunoId);
      forall i, j | 0 <= i < j < |s|
        ensures s[i].id < s[j].id
      {
        assert s[i] == prev[i];
        if j < |prev| {
          assert s[j] == prev[j];
        }
      }
    }
  }

  /** Every plan of `alunoId` with an id in 1..n is listed. */
  lemma {:induction false} ScanPlanosComplete(planos: map<int, PlanoRow>, n: int, alunoId: int)
    ensures PlanosCovered(planos, ScanPlanos(planos, n, alunoId), n, alunoId)
    decreases n
  {
    if n > 0 {
      ScanPlanosComplete(planos, n - 1, alunoId);
      var prev := ScanPlanos(planos, n - 1, alunoId);
      var s := ScanPlanos(planos, n, alunoId);
      forall id | id in planos && 1 <= id <= n && planos[id].alunoId == alunoId
        ensures PlanoSummaryOf(id, planos[id]) in s
      {
        if id == n {
          assert s[|s| - 1] == PlanoSummaryOf(id, planos[id]);
        } else {
          var k :| 0 <= k < |prev| && prev[k] == PlanoSummaryOf(id, planos[id]);
          assert s[k] == prev[k];
        }
      }
    }
  }

  // ----- SELECT planos.id, planos.nome, alunos.nome FROM planos JOIN alunos ... ORDER BY planos.id DESC LIMIT ? -----

  /** The join among plan ids 1..n, in descending plan id; a plan whose
      student row is gone has no partner and drops out. */
  function ScanRecent(planos: map<int, PlanoRow>, alunos: map<int, AlunoRow>, n: int): seq<RecentPlano>
    decreases n
  {
    if n <= 0 then []
    else
      (if n in planos && planos[n].alunoId in alunos
       then [RecentPlano(n, planos[n].nome, alunos[planos[n].alunoId].nome)]
       else [])
      + ScanRecent(planos, alunos, n - 1)
  }

  /** SQLite's LIMIT: a negative limit means no limit. */
  function Limit<T>(rows: seq<T>, limit: int): (r: seq<T>)
    ensures limit >= 0 ==> |r| <= limit
    ensures 0 <= limit < |rows| ==> r == rows[..limit]
    ensures |r| <= |rows| && r == rows[..|r|]
    ensures limit < 0 || limit >= |rows| ==> r == rows
  {
    if limit < 0 || limit >= |rows| then rows else rows[..limit]
  }

  function RecentOf(planos: map<int, PlanoRow>, alunos: map<int, AlunoRow>, n: int, limit: int): seq<RecentPlano>
  {
    Limit(ScanRecent(planos, alunos, n), limit)
  }

  /** Preparing the join: the columns it names in `planos`, then in `alunos`. */
  function JoinPrepared(c: Catalog): (r: Outcome<StoreError>)
    ensures r.Pass? <==> Resolve(c, PlanosTable, RECENT_PLANO_COLUMNS).Pass? && Resolve(c, AlunosTable, {"id", "nome"}).Pass?
    ensures r.Fail? ==> r.error == if Resolve(c, PlanosTable, RECENT_PLANO_COLUMNS).Fail?
      then Resolve(c, PlanosTable, RECENT_PLANO_COLUMNS).error
      else Resolve(c, AlunosTable, {"id", "nome"}).error
  {
    if Resolve(c, PlanosTable, RECENT_PLANO_COLUMNS).Fail? then Resolve(c, PlanosTable, RECENT_PLANO_COLUMNS)
    else Resolve(c, AlunosTable, {"id", "nome"})
  }

  /** A row of the join: an existing plan paired with its existing student's name. */
  ghost predicate IsJoinedRow(planos: map<int, PlanoRow>, alunos: map<int, AlunoRow>, r: RecentPlano)
  {
    && r.planoId in planos
    && planos[r.planoId].alunoId in alunos
    && r.planoNome == planos[r.planoId].nome
    && r.alunoNome == alunos[planos[r.planoId].alunoId].nome
  }

  ghost predicate JoinedRows(planos: map<int, PlanoRow>, alunos: map<int, AlunoRow>, s: seq<RecentPlano>, n: int)
  {
    forall i :: 0 <= i < |s| ==> IsJoinedRow(planos, alunos, s[i]) && 1 <= s[i].planoId <= n
  }

  ghost predicate PlanoIdsDescending(s: seq<RecentPlano>)
  {
    forall i, j :: 0 <= i < j < |s| ==> s[i].planoId > s[j].planoId
  }

  /** Every plan with an id in 1..n whose student exists is in `s`. */
  ghost predicate JoinCovered(planos: map<int, PlanoRow>, alunos: map<int, AlunoRow>, s: seq<RecentPlano>, n: int)
  {
    forall id :: id in planos && 1 <= id <= n && planos[id].alunoId in alunos ==>
      exists i :: 0 <= i < |s| && s[i].planoId == id
  }

  /** Every joined row pairs an existing plan with its existing student. */
  lemma {:induction false} ScanRecentSound(planos: map<int, PlanoRow>, alunos: map<int, AlunoRow>, n: int)
    ensures JoinedRows(planos, alunos, ScanRecent(planos, alunos, n), n)
    decreases n
  {
    if n > 0 {
      ScanRecentSound(planos, alunos, n - 1);
      var rest := ScanRecent(planos, alunos, n - 1);
      var s := ScanRecent(planos, alunos, n);
      var head := |s| - |rest|;
      forall i | 0 <= i < |s|
        ensures IsJoinedRow(planos, alunos, s[i]) && 1 <= s[i].planoId <= n
      {
        if i >= head {
          assert s[i] == rest[i - head];
        }
      }
    }
  }

  /** ORDER BY planos.id DESC: strictly descending plan ids. */
  lemma {:induction false} ScanRecentDescending(planos: map<int, PlanoRow>, alunos: map<int, AlunoRow>, n: int)
    ensures PlanoIdsDescending(ScanRecent(planos, alunos, n))
    decreases n
  {
    if n > 0 {
      ScanRecentDescending(planos, alunos, n - 1);
      ScanRecentSound(planos, alunos, n - 1);
      var rest := ScanRecent(planos, alunos, n - 1);
      var s := ScanRecent(planos, alunos, n);
      var head := |s| - |rest|;
      forall i, j | 0 <= i < j < |s|
        ensures s[i].planoId > s[j].planoId
      {
        assert s[j] == rest[j - head];
        if i >= head {
          assert s[i] == rest[i - head];
        }
      }
    }
  }

  /** Every plan whose student exists appears in the join. */
  lemma {:induction false} ScanRecentComplete(planos: map<int, PlanoRow>, alunos: map<int, AlunoRow>, n: int)
    ensures JoinCovered(planos, alunos, ScanRecent(planos, alunos, n), n)
    decreases n
  {
    if n > 0 {
      ScanRecentComplete(planos, alunos, n - 1);
      var rest := ScanRecent(planos, alunos, n - 1);
      var s := ScanRecent(planos, alunos, n);
      var head := |s| - |rest|;
      forall id | id in planos && 1 <= id <= n && planos[id].alunoId in alunos
        ensures exists i :: 0 <= i < |s| && s[i].planoId == id
      {
        if id == n {
          assert s[0].planoId == id;
        } else {
          var i :| 0 <= i < |rest| && rest[i].planoId == id;
          assert s[head + i] == rest[i];
        }
      }
    }
  }

  /** `listar_planos_recentes(limit)`: at most `limit` rows (all of them for
      a negative limit), strictly descending plan ids, each plan with its
      student's name; they are the first rows of the whole join, which holds
      every plan whose student exists. */
  lemma RecentSpec(planos: map<int, PlanoRow>, alunos: map<int, AlunoRow>, n: int, limit: int)
    ensures var all := ScanRecent(planos, alunos, n);
      var r := RecentOf(planos, alunos, n, limit);
      && (limit >= 0 ==> |r| <= limit)
      && (limit >= 0 ==> |r| == if limit < |all| then limit else |all|)
      && (limit < 0 ==> r == all)
      && r == all[..|r|]
      && (forall i, j :: 0 <= i < j < |r| ==> r[i].planoId > r[j].planoId)
      && (forall i :: 0 <= i < |r| ==> IsJoinedRow(planos, alunos, r[i]))
      && (forall id :: id in planos && 1 <= id <= n && planos[id].alunoId in alunos ==>
            exists i :: 0 <= i < |all| && all[i].planoId == id)
  {
    ScanRecentSound(planos, alunos, n);
    ScanRecentDescending(planos, alunos, n);
    ScanRecentComplete(planos, alunos, n);
    var all := ScanRecent(planos, alunos, n);
    var r := RecentOf(planos, alunos, n, limit);
    forall i | 0 <= i < |r|
      ensures r[i] == all[i]
    {
    }
  }

  // ----- The database file -----

  /**
   * The SQLite file: its schema, `user_version`, both tables and their
   * AUTOINCREMENT counters (the `sqlite_sequence` entries). The ghost sets
   * record every id ever handed out.
   */
  class Database {
    var catalog: Catalog
    var userVersion: int
    var alunos: map<int, AlunoRow>
    var planos: map<int, PlanoRow>
    var alunosSeq: int
    var planosSeq: int
    ghost var issuedAlunos: set<int>
    ghost var issuedPlanos: set<int>

    ghost predicate Valid()
      reads this
    {
      && 0 <= alunosSeq <= MAX_ROWID
      && 0 <= planosSeq <= MAX_ROWID
      && (forall id :: id in alunos ==> id in issuedAlunos)
      && (forall id :: id in issuedAlunos ==> 1 <= id <= alunosSeq)
      && (forall id :: id in planos ==> id in issuedPlanos)
      && (forall id :: id in issuedPlanos ==> 1 <= id <= planosSeq)
      && (catalog.alunos.Absent? ==> alunos == map[])
      && (catalog.planos.Absent? ==> planos == map[])
    }

    /** A new, empty database file. */
    constructor ()
      ensures Valid()
      ensures catalog == EMPTY && userVersion == 0
      ensures alunos == map[] && planos == map[] && alunosSeq == 0 && planosSeq == 0
    {
      catalog := EMPTY;
      userVersion := 0;
      alunos := map[];
      planos := map[];
      alunosSeq := 0;
      planosSeq := 0;
      issuedAlunos := {};
      issuedPlanos := {};
    }

    /** CREATE TABLE IF NOT EXISTS. */
    method CreateTableIfNotExists(name: TableName)
      requires Valid()
      modifies this`catalog
      ensures Valid()
      ensures catalog == CreateIfNotExists(old(catalog), name)
    {
      catalog := CreateIfNotExists(catalog, name);
    }

    /** ALTER TABLE ... ADD COLUMN. */
    method AlterTableAddColumn(name: TableName, column: string) returns (r: Outcome<StoreError>)
      requires Valid()
      modifies this`catalog
      ensures Valid()
      ensures AddColumn(old(catalog), name, column).Success? ==>
        r == Pass && catalog == AddColumn(old(catalog), name, column).value
      ensures AddColumn(old(catalog), name, column).Failure? ==>
        r == Fail(AddColumn(old(catalog), name, column).error) && catalog == old(catalog)
    {
      match AddColumn(catalog, name, column)
      case Success(c) =>
        catalog := c;
        r := Pass;
      case Failure(e) =>
        r := Fail(e);
    }

    /** `conn.executescript(script)` for one of MIGRATIONS. */
    method ExecuteScript(m: Migration)
      requires Valid()
      modifies this`catalog
      ensures Valid()
      ensures catalog == ApplyMigration(old(catalog), m)
    {
      match m
      case CreateAlunos => CreateTableIfNotExists(AlunosTable);
      case CreatePlanos => CreateTableIfNotExists(PlanosTable);
    }

    /** `init_db`: runs, in index order, every script whose 1-based index
        exceeds the stored `user_version`, raising `user_version` to that
        index after each. `applied` lists the indices run. */
    method InitDb() returns (applied: seq<int>)
      requires Valid()
      modifies this`catalog, this`userVersion
      ensures Valid()
      ensures applied == Pending(old(userVersion))
      ensures forall i :: 0 <= i < |applied| ==> 1 <= applied[i] <= |MIGRATIONS|
      ensures catalog == ApplyAll(old(catalog), applied)
      ensures userVersion == Max(old(userVersion), |MIGRATIONS|)
    {
      var version := userVersion;
      applied := [];
      for idx := 1 to |MIGRATIONS| + 1
        invariant Valid()
        invariant applied == PendingUpTo(version, idx - 1)
        invariant forall i :: 0 <= i < |applied| ==> 1 <= applied[i] < idx
        invariant catalog == ApplyAll(old(catalog), applied)
        invariant userVersion == if idx == 1 then version else Max(version, idx - 1)
      {
        if idx > version {
          ExecuteScript(MIGRATIONS[idx - 1]);
          userVersion := idx;
          assert (applied + [idx])[..|applied|] == applied;
          applied := applied + [idx];
        }
      }
    }

    /** `listar_alunos`: every student exactly once, sorted by nome. */
    method ListarAlunos() returns (r: Result<seq<AlunoSummary>, StoreError>)
      requires Valid()
      ensures r.Failure? <==> Resolve(catalog, AlunosTable, SUMMARY_COLUMNS).Fail?
      ensures r.Failure? ==> r.error == Resolve(catalog, AlunosTable, SUMMARY_COLUMNS).error
      ensures r.Success? ==> SortedByNome(r.value) && DistinctIds(r.value) && |r.value| == |alunos|
      ensures r.Success? ==> forall i :: 0 <= i < |r.value| ==>
        r.value[i].id in alunos && r.value[i] == Summary(r.value[i].id, alunos[r.value[i].id])
      ensures r.Success? ==> forall id :: id in alunos ==> Summary(id, alunos[id]) in r.value
    {
      var ok := Resolve(catalog, AlunosTable, SUMMARY_COLUMNS);
      if ok.Fail? {
        return Failure(ok.error);
      }
      r := Success(ListarAlunosOf(alunos, alunosSeq));
      ListarAlunosSpec(alunos, alunosSeq);
    }

    /** `obter_aluno`: the full row of an existing id, None otherwise. */
    method ObterAluno(id: int) returns (r: Result<Option<AlunoRecord>, StoreError>)
      requires Valid()
      ensures r.Failure? <==> PrepareBind(Resolve(catalog, AlunosTable, ALUNO_COLUMNS), id).Fail?
      ensures r.Failure? ==> r.error == PrepareBind(Resolve(catalog, AlunosTable, ALUNO_COLUMNS), id).error
      ensures r.Success? && id in alunos ==> r.value == Some(AlunoRecord(id, alunos[id]))
      ensures r.Success? && id !in alunos ==> r.value == None
    {
      var ok := PrepareBind(Resolve(catalog, AlunosTable, ALUNO_COLUMNS), id);
      if ok.Fail? {
        return Failure(ok.error);
      }
      if id in alunos {
        r := Success(Some(AlunoRecord(id, alunos[id])));
      } else {
        r := Success(None);
      }
    }

    /** `adicionar_aluno`: one new row with nome, email and today's date and
        the other five columns NULL, under an id above every id ever issued. */
    method AdicionarAluno(nome: string, email: string, today: string) returns (r: Result<int, StoreError>)
      requires Valid()
      modifies this`alunos, this`alunosSeq, this`issuedAlunos
      ensures Valid()
      ensures Resolve(old(catalog), AlunosTable, INSERT_ALUNO_COLUMNS).Fail? ==>
        && r == Failure(Resolve(old(catalog), AlunosTable, INSERT_ALUNO_COLUMNS).error)
        && alunos == old(alunos) && alunosSeq == old(alunosSeq) && issuedAlunos == old(issuedAlunos)
      ensures Resolve(old(catalog), AlunosTable, INSERT_ALUNO_COLUMNS).Pass? && old(alunosSeq) == MAX_ROWID ==>
        r == Failure(Full) && alunos == old(alunos) && alunosSeq == old(alunosSeq) && issuedAlunos == old(issuedAlunos)
      ensures Resolve(old(catalog), AlunosTable, INSERT_ALUNO_COLUMNS).Pass? && old(alunosSeq) < MAX_ROWID ==>
        && r == Success(old(alunosSeq) + 1)
        && alunos == old(alunos)[r.value := NewAluno(nome, email, today)]
        && alunosSeq == r.value
        && issuedAlunos == old(issuedAlunos) + {r.value}
      ensures r.Success? ==> r.value !in old(alunos) && forall id :: id in old(issuedAlunos) ==> id < r.value
    {
      var ok := Resolve(catalog, AlunosTable, INSERT_ALUNO_COLUMNS);
      if ok.Fail? {
        return Failure(ok.error);
      }
      if alunosSeq == MAX_ROWID {
        r := Failure(Full);
      } else {
        var id := alunosSeq + 1;
        alunos := alunos[id := NewAluno(nome, email, today)];
        alunosSeq := id;
        issuedAlunos := issuedAlunos + {id};
        r := Success(id);
      }
    }

    /** `atualizar_aluno`: a name outside the allow-list raises ValueError
        before the database is touched; otherwise only that column of row
        `id` changes, and nothing changes when there is no such row. */
    method AtualizarAluno(id: int, campo: string, valor: string) returns (r: Outcome<StoreError>)
      requires Valid()
      modifies this`alunos
      ensures Valid()
      ensures campo !in VALID_UPDATE_FIELDS ==> r == Fail(InvalidColumn(campo)) && alunos == old(alunos)
      ensures campo in VALID_UPDATE_FIELDS && PrepareBind(Resolve(catalog, AlunosTable, {campo, "id"}), id).Fail? ==>
        r == PrepareBind(Resolve(catalog, AlunosTable, {campo, "id"}), id) && alunos == old(alunos)
      ensures campo in VALID_UPDATE_FIELDS && PrepareBind(Resolve(catalog, AlunosTable, {campo, "id"}), id).Pass? ==> r == Pass
      ensures r == Pass && id in old(alunos) ==>
        alunos == old(alunos)[id := SetColumn(old(alunos)[id], ParseColumn(campo).value, valor)]
      ensures id !in old(alunos) ==> alunos == old(alunos)
    {
      var column := ParseColumn(campo);
      if column.None? {
        return Fail(InvalidColumn(campo));
      }
      var ok := PrepareBind(Resolve(catalog, AlunosTable, {campo, "id"}), id);
      if ok.Fail? {
        return ok;
      }
      if id in alunos {
        alunos := alunos[id := SetColumn(alunos[id], column.value, valor)];
      }
      r := Pass;
    }

    /** `remover_aluno`: removes that row only. This connection never turned
        foreign keys on, so the student's plans stay. */
    method RemoverAluno(id: int) returns (r: Outcome<StoreError>)
      requires Valid()
      modifies this`alunos
      ensures Valid()
      ensures r == PrepareBind(Resolve(catalog, AlunosTable, {"id"}), id)
      ensures r.Pass? ==> alunos == old(alunos) - {id}
      ensures r.Fail? ==> alunos == old(alunos)
    {
      r := PrepareBind(Resolve(catalog, AlunosTable, {"id"}), id);
      if r.Pass? {
        alunos := alunos - {id};
      }
    }

    /** `listar_planos`: the student's plans, each once, by ascending id. */
    method ListarPlanos(alunoId: int) returns (r: Result<seq<PlanoSummary>, StoreError>)
      requires Valid()
      ensures r.Failure? <==> PrepareBind(Resolve(catalog, PlanosTable, PLANO_COLUMNS), alunoId).Fail?
      ensures r.Failure? ==> r.error == PrepareBind(Resolve(catalog, PlanosTable, PLANO_COLUMNS), alunoId).error
      ensures r.Success? ==> forall i, j :: 0 <= i < j < |r.value| ==> r.value[i].id < r.value[j].id
      ensures r.Success? ==> forall i :: 0 <= i < |r.value| ==>
        && r.value[i].id in planos && planos[r.value[i].id].alunoId == alunoId
        && r.value[i] == PlanoSummaryOf(r.value[i].id, planos[r.value[i].id])
      ensures r.Success? ==> forall id :: id in planos && planos[id].alunoId == alunoId ==>
        PlanoSummaryOf(id, planos[id]) in r.value
    {
      var ok := PrepareBind(Resolve(catalog, PlanosTable, PLANO_COLUMNS), alunoId);
      if ok.Fail? {
        return Failure(ok.error);
      }
      var s := ScanPlanos(planos, planosSeq, alunoId);
      ScanPlanosSound(planos, planosSeq, alunoId);
      ScanPlanosAscending(planos, planosSeq, alunoId);
      ScanPlanosComplete(planos, planosSeq, alunoId);
      assert forall id :: id in planos ==> id in issuedPlanos;
      r := Success(s);
    }

    /** `adicionar_plano`: the student id is not checked (foreign keys are
        off on this connection). */
    method AdicionarPlano(alunoId: int, nome: string, descricao: string, exercicios: string)
      returns (r: Result<int, StoreError>)
      requires Valid()
      modifies this`planos, this`planosSeq, this`issuedPlanos
      ensures Valid()
      ensures PrepareBind(Resolve(old(catalog), PlanosTable, INSERT_PLANO_COLUMNS), alunoId).Fail? ==>
        && r == Failure(PrepareBind(Resolve(old(catalog), PlanosTable, INSERT_PLANO_COLUMNS), alunoId).error)
        && planos == old(planos) && planosSeq == old(planosSeq) && issuedPlanos == old(issuedPlanos)
      ensures PrepareBind(Resolve(old(catalog), PlanosTable, INSERT_PLANO_COLUMNS), alunoId).Pass? && old(planosSeq) == MAX_ROWID ==>
        r == Failure(Full) && planos == old(planos) && planosSeq == old(planosSeq) && issuedPlanos == old(issuedPlanos)
      ensures PrepareBind(Resolve(old(catalog), PlanosTable, INSERT_PLANO_COLUMNS), alunoId).Pass? && old(planosSeq) < MAX_ROWID ==>
        && r == Success(old(planosSeq) + 1)
        && planos == old(planos)[r.value := PlanoRow(alunoId, nome, descricao, exercicios)]
        && planosSeq == r.value
        && issuedPlanos == old(issuedPlanos) + {r.value}
      ensures r.Success? ==> r.value !in old(planos) && forall id :: id in old(issuedPlanos) ==> id < r.value
    {
      var ok := PrepareBind(Resolve(catalog, PlanosTable, INSERT_PLANO_COLUMNS), alunoId);
      if ok.Fail? {
        return Failure(ok.error);
      }
      if planosSeq == MAX_ROWID {
        r := Failure(Full);
      } else {
        var id := planosSeq + 1;
        planos := planos[id := PlanoRow(alunoId, nome, descricao, exercicios)];
        planosSeq := id;
        issuedPlanos := issuedPlanos + {id};
        r := Success(id);
      }
    }

    /** `atualizar_plano`: rewrites nome, descricao and exercicios of one
        plan, never its aluno_id. */
    method AtualizarPlano(id: int, nome: string, descricao: string, exercicios: string) returns (r: Outcome<StoreError>)
      requires Valid()
      modifies this`planos
      ensures Valid()
      ensures r == PrepareBind(Resolve(catalog, PlanosTable, UPDATE_PLANO_COLUMNS), id)
      ensures r.Pass? && id in old(planos) ==>
        planos == old(planos)[id := PlanoRow(old(planos)[id].alunoId, nome, descricao, exercicios)]
      ensures r.Fail? || id !in old(planos) ==> planos == old(planos)
    {
      r := PrepareBind(Resolve(catalog, PlanosTable, UPDATE_PLANO_COLUMNS), id);
      if r.Pass? && id in planos {
        planos := planos[id := planos[id].(nome := nome, descricao := descricao, exercicios := exercicios)];
      }
    }

    /** `remover_plano`: removes that plan only. */
    method RemoverPlano(id: int) returns (r: Outcome<StoreError>)
      requires Valid()
      modifies this`planos
      ensures Valid()
      ensures r == PrepareBind(Resolve(catalog, PlanosTable, {"id"}), id)
      ensures r.Pass? ==> planos == old(planos) - {id}
      ensures r.Fail? ==> planos == old(planos)
    {
      r := PrepareBind(Resolve(catalog, PlanosTable, {"id"}), id);
      if r.Pass? {
        planos := planos - {id};
      }
    }

    /** `contar_alunos`: SELECT COUNT(*) FROM alunos, which agrees with the
        length of `listar_alunos`. */
    method ContarAlunos() returns (r: Result<int, StoreError>)
      requires Valid()
      ensures r.Failure? <==> catalog.alunos.Absent?
      ensures r.Failure? ==> r.error == NoSuchTable
      ensures r.Success? ==> r.value == |alunos| && r.value == |ListarAlunosOf(alunos, alunosSeq)|
    {
      var ok := Resolve(catalog, AlunosTable, {});
      if ok.Fail? {
        return Failure(ok.error);
      }
      r := Success(|alunos|);
      ListarAlunosSpec(alunos, alunosSeq);
    }

    /** `listar_planos_recentes(limit)`: the newest plans whose student
        exists, with the student's name, at most `limit` of them. */
    method ListarPlanosRecentes(limit: int := 5) returns (r: Result<seq<RecentPlano>, StoreError>)
      requires Valid()
      ensures r.Failure? <==> PrepareBind(JoinPrepared(catalog), limit).Fail?
      ensures r.Failure? ==> r.error == PrepareBind(JoinPrepared(catalog), limit).error
      ensures r.Success? ==> limit >= 0 ==> |r.value| <= limit
      ensures r.Success? ==> forall i, j :: 0 <= i < j < |r.value| ==> r.value[i].planoId > r.value[j].planoId
      ensures r.Success? ==> forall i :: 0 <= i < |r.value| ==> IsJoinedRow(planos, alunos, r.value[i])
      ensures r.Success? ==> |r.value| <= |ScanRecent(planos, alunos, planosSeq)|
      ensures r.Success? ==> r.value == ScanRecent(planos, alunos, planosSeq)[..|r.value|]
      ensures r.Success? ==> limit < 0 || |r.value| < limit ==> r.value == ScanRecent(planos, alunos, planosSeq)
    {
      var ok := PrepareBind(JoinPrepared(catalog), limit);
      if ok.Fail? {
        return Failure(ok.error);
      }
      r := Success(RecentOf(planos, alunos, planosSeq, limit));
      RecentSpec(planos, alunos, planosSeq, limit);
    }
  }
}
