/**
 * The exporter registry and what each built-in exporter writes. The
 * registry maps a format name to an exporter class; the module registers
 * the three built-ins and then every plugin of the `ia_sarah.exporters`
 * entry-point group, so a plugin may replace a built-in but never remove
 * one. Writing the files themselves (FPDF, openpyxl, the csv module) is
 * not modelled: the model stops at the cells, rows and sheet handed to
 * those libraries.
 */
module Exporters {
  import opened Wrappers
  import opened OrderedDict
  import opened Exercises
  import opened PluginLoader

  /** The class registered under a format. */
  datatype ExporterClass =
    | PdfExporter
    | CsvExporter
    | ExcelExporter
    | PluginClass(obj: Obj)

  /** `get_exporter` on an unregistered format raises KeyError. */
  datatype LookupError = KeyError(fmt: string)

  /** The entry-point group plugins are loaded from. */
  const GROUP: string := "ia_sarah.exporters"

  /** What the module registers before it loads any plugin. */
  const BUILTINS: map<string, ExporterClass> :=
    map["pdf" := PdfExporter, "csv" := CsvExporter, "xlsx" := ExcelExporter]

  // ----- The registry after plugin loading -----

  /** The registry after `register_exporter(name, obj)` for each pair
      delivered by the loader, in order, starting from `base`. */
  function Registered(base: map<string, ExporterClass>, calls: Dict<Obj>): map<string, ExporterClass>
    decreases |calls|
  {
    if calls == [] then base
    else
      var last := calls[|calls| - 1];
      Registered(base, calls[..|calls| - 1])[last.0 := PluginClass(last.1)]
  }

  /** Registering never removes a format. */
  lemma {:induction false} RegisteredKeepsFormats(base: map<string, ExporterClass>, calls: Dict<Obj>)
    ensures base.Keys <= Registered(base, calls).Keys
    decreases |calls|
  {
    if calls != [] {
      RegisteredKeepsFormats(base, calls[..|calls| - 1]);
    }
  }

  /** With the loader's distinct names, a format is registered exactly when
      it was already there or a plugin has that name; the plugin wins. */
  lemma {:induction false} RegisteredLookup(base: map<string, ExporterClass>, calls: Dict<Obj>, fmt: string)
    requires DistinctKeys(calls)
    ensures fmt in Registered(base, calls) <==> fmt in base || Get(calls, fmt).Some?
    ensures Get(calls, fmt).Some? ==> Registered(base, calls)[fmt] == PluginClass(Get(calls, fmt).value)
    ensures Get(calls, fmt).None? && fmt in base ==> Registered(base, calls)[fmt] == base[fmt]
    decreases |calls|
  {
    if calls != [] {
      var prefix := calls[..|calls| - 1];
      var last := calls[|calls| - 1];
      assert DistinctKeys(prefix);
      assert calls == prefix + [last];
      RegisteredLookup(base, prefix, fmt);
      GetSnoc(prefix, last.0, last.1, fmt);
      GetIndex(prefix, last.0);
    }
  }

  /** After import, with `discovered` the group's entry points and
      `disabled` the names switched off: a format is available exactly
      when it is built in or an enabled plugin of that name loads; the last
      such plugin replaces the built-in. */
  lemma ExporterLookup(discovered: seq<EntryPoint>, disabled: set<string>, fmt: string)
    ensures fmt in Registered(BUILTINS, Registry(discovered, disabled)) <==>
      fmt in BUILTINS || LastLoaded(discovered, disabled, fmt).Some?
    ensures LastLoaded(discovered, disabled, fmt).Some? ==>
      Registered(BUILTINS, Registry(discovered, disabled))[fmt] == PluginClass(LastLoaded(discovered, disabled, fmt).value)
    ensures LastLoaded(discovered, disabled, fmt).None? && fmt in BUILTINS ==>
      Registered(BUILTINS, Registry(discovered, disabled))[fmt] == BUILTINS[fmt]
  {
    RegistryDistinct(discovered, disabled);
    RegistryLookup(discovered, disabled, fmt);
    RegisteredLookup(BUILTINS, Registry(discovered, disabled), fmt);
  }

  // ----- CSV and XLSX rows -----

  /** `list(exercises[0].keys())`, or no column for an empty list. */
  function Header(exs: seq<Exercise>): (h: seq<string>)
    ensures exs != [] ==> h == Keys(exs[0])
    ensures exs == [] ==> h == []
  {
    if exs == [] then [] else Keys(exs[0])
  }

  /** The row written for one exercise: its value for each header key, or
      `""` where it has none. */
  function Project(ex: Exercise, header: seq<string>): (row: seq<string>)
    ensures |row| == |header|
    ensures forall i :: 0 <= i < |header| ==> row[i] == Field(ex, header[i])
    decreases |header|
  {
    if header == [] then [] else [Field(ex, header[0])] + Project(ex, header[1..])
  }

  /** One row per exercise, in input order. */
  function Rows(exs: seq<Exercise>, header: seq<string>): (rows: seq<seq<string>>)
    ensures |rows| == |exs|
    ensures forall i :: 0 <= i < |exs| ==> rows[i] == Project(exs[i], header)
    decreases |exs|
  {
    if exs == [] then [] else Rows(exs[..|exs| - 1], header) + [Project(exs[|exs| - 1], header)]
  }

  /** An exercise's row under its own keys lists its values in order. */
  lemma ProjectOwnKeys(ex: Exercise)
    requires DistinctKeys(ex)
    ensures |Project(ex, Keys(ex))| == |ex|
    ensures forall i :: 0 <= i < |ex| ==> Project(ex, Keys(ex))[i] == ex[i].1
  {
    forall i | 0 <= i < |ex|
      ensures Project(ex, Keys(ex))[i] == ex[i].1
    {
      GetDistinct(ex, i);
    }
  }

  /** `csv.DictWriter.writerow` accepts a dict only when every key is a
      header column. */
  predicate Fits(ex: Exercise, header: seq<string>)
  {
    forall i :: 0 <= i < |ex| ==> ex[i].0 in header
  }

  /** An exercise always fits a header made of its own keys. */
  lemma FitsOwnKeys(ex: Exercise)
    ensures Fits(ex, Keys(ex))
  {
    forall i | 0 <= i < |ex|
      ensures ex[i].0 in Keys(ex)
    {
      assert Keys(ex)[i] == ex[i].0;
    }
  }

  /** The ValueError `writerow` raises for the exercise at this index. */
  datatype CsvError = ExtraFields(index: nat)

  /** The `writerow` loop under a given header: one row per exercise,
      stopping at the first exercise with a key outside the header. */
  method WriteRows(exs: seq<Exercise>, header: seq<string>) returns (rows: seq<seq<string>>, outcome: Outcome<CsvError>)
    ensures outcome.Pass? <==> forall i :: 0 <= i < |exs| ==> Fits(exs[i], header)
    ensures outcome.Pass? ==> rows == Rows(exs, header)
    ensures outcome.Fail? ==>
      && outcome.error.index < |exs|
      && !Fits(exs[outcome.error.index], header)
      && (forall j :: 0 <= j < outcome.error.index ==> Fits(exs[j], header))
      && rows == Rows(exs[..outcome.error.index], header)
  {
    rows := [];
    for i := 0 to |exs|
      invariant rows == Rows(exs[..i], header)
      invariant forall j :: 0 <= j < i ==> Fits(exs[j], header)
    {
      assert exs[..i + 1][..i] == exs[..i];
      if !Fits(exs[i], header) {
        return rows, Fail(ExtraFields(i));
      }
      rows := rows + [Project(exs[i], header)];
    }
    assert exs[..|exs|] == exs;
    outcome := Pass;
  }

  /** `CSVExporter.export`: the header row, then each exercise's row until
      one holds a key outside the header, which stops the export with what
      was written so far. The first exercise always fits its own keys. */
  method CsvRows(exs: seq<Exercise>) returns (rows: seq<seq<string>>, outcome: Outcome<CsvError>)
    ensures outcome.Pass? <==> forall i :: 0 <= i < |exs| ==> Fits(exs[i], Header(exs))
    ensures outcome.Pass? ==> rows == [Header(exs)] + Rows(exs, Header(exs))
    ensures outcome.Fail? ==>
      && 1 <= outcome.error.index < |exs|
      && !Fits(exs[outcome.error.index], Header(exs))
      && (forall j :: 0 <= j < outcome.error.index ==> Fits(exs[j], Header(exs)))
      && rows == [Header(exs)] + Rows(exs[..outcome.error.index], Header(exs))
  {
    var header := if exs == [] then [] else Keys(exs[0]);
    if exs != [] {
      FitsOwnKeys(exs[0]);
    }
    var body;
    body, outcome := WriteRows(exs, header);
    rows := [header] + body;
  }

  /** The worksheet `ExcelExporter.export` saves. */
  datatype Sheet = Sheet(title: string, rows: seq<seq<string>>)

  /** `ExcelExporter.export`: for a non-empty list, the first exercise's keys
      and then one row per exercise; for an empty list, no rows at all.
      Extra keys are ignored rather than rejected. */
  method XlsxSheet(title: string, exs: seq<Exercise>) returns (sheet: Sheet)
    ensures sheet.title == title
    ensures exs == [] ==> sheet.rows == []
    ensures exs != [] ==> sheet.rows == [Keys(exs[0])] + Rows(exs, Keys(exs[0]))
  {
    var rows: seq<seq<string>> := [];
    if exs != [] {
      var header := Keys(exs[0]);
      rows := [header];
      for i := 0 to |exs|
        invariant rows == [header] + Rows(exs[..i], header)
      {
        assert exs[..i + 1][..i] == exs[..i];
        rows := rows + [Project(exs[i], header)];
      }
      assert exs[..|exs|] == exs;
    }
    sheet := Sheet(title, rows);
  }

  // ----- The registry object -----

  /** The module-level `_REGISTRY`. */
  class ExporterRegistry {
    var entries: map<string, ExporterClass>

    constructor ()
      ensures entries == map[]
    {
      entries := map[];
    }

    /** `register_exporter(fmt, cls)`: the last registration wins and no
        other format changes. */
    method Register(fmt: string, cls: ExporterClass)
      modifies this`entries
      ensures entries == old(entries)[fmt := cls]
    {
      entries := entries[fmt := cls];
    }

    /** The loader's callback: `register_exporter(name, obj)` for each
        delivered pair, in order. */
    method RegisterPlugins(calls: Dict<Obj>)
      modifies this`entries
      ensures entries == Registered(old(entries), calls)
    {
      ghost var base := entries;
      for i := 0 to |calls|
        invariant entries == Registered(base, calls[..i])
      {
        assert calls[..i + 1][..i] == calls[..i];
        Register(calls[i].0, PluginClass(calls[i].1));
      }
      assert calls[..|calls|] == calls;
    }

    /** `get_exporter(fmt)`: the registered class, or KeyError. */
    method GetExporter(fmt: string) returns (r: Result<ExporterClass, LookupError>)
      ensures r.Success? <==> fmt in entries
      ensures r.Success? ==> r.value == entries[fmt]
      ensures r.Failure? ==> r.error == KeyError(fmt)
    {
      if fmt !in entries {
        return Failure(KeyError(fmt));
      }
      r := Success(entries[fmt]);
    }
  }

  /** Importing the module: the three built-ins, then one registration per
      pair the loader hands to the callback (which never raises). */
  method ImportModule(loader: Loader, discovered: seq<EntryPoint>, env: Option<string>) returns (registry: ExporterRegistry)
    requires loader.Valid()
    modifies loader`cache
    ensures fresh(registry)
    ensures loader.Valid()
    ensures GROUP in old(loader.cache) ==> loader.cache == old(loader.cache)
    ensures GROUP !in old(loader.cache) ==>
      loader.cache == old(loader.cache)[GROUP := Registry(discovered, DisabledNames(env))]
    ensures registry.entries == Registered(BUILTINS, loader.cache[GROUP])
  {
    registry := new ExporterRegistry();
    registry.Register("pdf", PdfExporter);
    registry.Register("csv", CsvExporter);
    registry.Register("xlsx", ExcelExporter);
    assert registry.entries == BUILTINS;
    var calls, logged := loader.LoadEntrypoints(GROUP, discovered, env, (n: string, o: Obj) => false);
    registry.RegisterPlugins(calls);
  }

  /** The exporter tests: without plugins, "txt" raises KeyError, and the
      one-exercise list exports to CSV as a header and one row. */
  method ExportScenario() returns (txt: Result<ExporterClass, LookupError>, csv: Result<ExporterClass, LookupError>,
                                   rows: seq<seq<string>>, outcome: Outcome<CsvError>)
    ensures txt == Failure(KeyError("txt"))
    ensures csv == Success(CsvExporter)
    ensures outcome == Pass
    ensures rows == [["nome", "series", "reps"], ["Supino", "3", "10"]]
  {
    var loader := new Loader();
    var registry := ImportModule(loader, [], None);
    assert registry.entries == BUILTINS;
    txt := registry.GetExporter("txt");
    csv := registry.GetExporter("csv");
    var ex := [("nome", "Supino"), ("series", "3"), ("reps", "10")];
    rows, outcome := CsvRows([ex]);
    ExerciseRow(ex);
  }

  /** The test exercise under its own keys. */
  lemma ExerciseRow(ex: Exercise)
    requires ex == [("nome", "Supino"), ("series", "3"), ("reps", "10")]
    ensures Keys(ex) == ["nome", "series", "reps"]
    ensures Fits(ex, Keys(ex))
    ensures Project(ex, Keys(ex)) == ["Supino", "3", "10"]
  {
    assert DistinctKeys(ex);
    ProjectOwnKeys(ex);
  }
}
