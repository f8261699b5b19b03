/**
 * An exercise as the exporters receive it: a Python dict from field name to
 * text, in insertion order. This module holds the one line of text every
 * PDF writer prints per exercise, and the sequence of cells it prints.
 */
module Exercises {
  import opened Wrappers
  import opened OrderedDict

  type Exercise = Dict<string>

  /** `ex.get(k, "")`. */
  function Field(ex: Exercise, k: string): string
  {
    Get(ex, k).GetOr("")
  }

  /** The text appended for an optional field: nothing when it is empty
      (falsy), otherwise `before + value + after`. */
  function Optional(value: string, before: string, after: string): string
  {
    if value == "" then "" else before + value + after
  }

  /** `"{nome} - {series}x{reps}"` followed, each only when non-empty, by
      `" {peso}"`, `" descanso {descanso}"` and `" ({obs})"`. */
  function Line(ex: Exercise): string
  {
    Field(ex, "nome") + " - " + Field(ex, "series") + "x" + Field(ex, "reps")
    + Optional(Field(ex, "peso"), " ", "")
    + Optional(Field(ex, "descanso"), " descanso ", "")
    + Optional(Field(ex, "obs"), " (", ")")
  }

  /** The six keys a line reads. */
  const LINE_KEYS: set<string> := {"nome", "series", "reps", "peso", "descanso", "obs"}

  /** A line depends only on the six fields it names: two exercises that
      agree on them, in whatever key order, print the same line. */
  lemma LineDeterminedByFields(ex1: Exercise, ex2: Exercise)
    requires forall k :: k in LINE_KEYS ==> Get(ex1, k) == Get(ex2, k)
    ensures Line(ex1) == Line(ex2)
  {
    assert "nome" in LINE_KEYS && "series" in LINE_KEYS && "reps" in LINE_KEYS;
    assert "peso" in LINE_KEYS && "descanso" in LINE_KEYS && "obs" in LINE_KEYS;
  }

  /** Setting any other key leaves the line unchanged. */
  lemma LineIgnoresOtherKeys(ex: Exercise, k: string, v: string)
    requires k !in LINE_KEYS
    ensures Line(Put(ex, k, v)) == Line(ex)
  {
    forall k' | k' in LINE_KEYS
      ensures Get(Put(ex, k, v), k') == Get(ex, k')
    {
      GetPutOther(ex, k, v, k');
    }
    LineDeterminedByFields(Put(ex, k, v), ex);
  }

  /** The line always starts with the mandatory part, and is exactly that
      part when peso, descanso and obs are all empty or absent. */
  lemma LineShape(ex: Exercise)
    ensures var head := Field(ex, "nome") + " - " + Field(ex, "series") + "x" + Field(ex, "reps");
      && |head| <= |Line(ex)|
      && Line(ex)[..|head|] == head
      && (Field(ex, "peso") == "" && Field(ex, "descanso") == "" && Field(ex, "obs") == "" ==> Line(ex) == head)
  {
    var head := Field(ex, "nome") + " - " + Field(ex, "series") + "x" + Field(ex, "reps");
    var tail := Optional(Field(ex, "peso"), " ", "") + Optional(Field(ex, "descanso"), " descanso ", "")
      + Optional(Field(ex, "obs"), " (", ")");
    assert Line(ex) == head + tail;
  }

  /** An exercise without any of the six keys prints " - x". */
  lemma LineOfEmpty()
    ensures Line([]) == " - x"
  {
  }

  /** The exercise of the PDF test prints "Supino - 3x10 20kg". */
  lemma LineOfTestExercise()
    ensures Line([("nome", "Supino"), ("series", "3"), ("reps", "10"), ("peso", "20kg")]) == "Supino - 3x10 20kg"
  {
    var ex := [("nome", "Supino"), ("series", "3"), ("reps", "10"), ("peso", "20kg")];
    assert Field(ex, "nome") == "Supino";
    assert Field(ex, "series") == "3";
    assert Field(ex, "reps") == "10";
    assert Field(ex, "peso") == "20kg";
    assert Field(ex, "descanso") == "";
    assert Field(ex, "obs") == "";
  }

  /** Builds one exercise's line the way the PDF writers do: the mandatory
      part, then each optional suffix appended when its field is non-empty. */
  method BuildLine(ex: Exercise) returns (linha: string)
    ensures linha == Line(ex)
  {
    var peso, descanso, obs := Field(ex, "peso"), Field(ex, "descanso"), Field(ex, "obs");
    var head := Field(ex, "nome") + " - " + Field(ex, "series") + "x" + Field(ex, "reps");
    linha := head;
    if peso != "" {
      linha := linha + " " + peso;
    }
    assert linha == head + Optional(peso, " ", "");
    var withPeso := linha;
    if descanso != "" {
      linha := linha + " descanso " + descanso;
    }
    assert linha == withPeso + Optional(descanso, " descanso ", "");
    var withDescanso := linha;
    if obs != "" {
      linha := linha + " (" + obs + ")";
    }
    assert linha == withDescanso + Optional(obs, " (", ")");
  }

  /** The cells a training PDF receives: the title, then one line per
      exercise in input order. */
  method PdfCells(titulo: string, exercicios: seq<Exercise>) returns (cells: seq<string>)
    ensures |cells| == |exercicios| + 1
    ensures cells[0] == titulo
    ensures forall i :: 0 <= i < |exercicios| ==> cells[i + 1] == Line(exercicios[i])
  {
    cells := [titulo];
    for i := 0 to |exercicios|
      invariant |cells| == i + 1
      invariant cells[0] == titulo
      invariant forall j :: 0 <= j < i ==> cells[j + 1] == Line(exercicios[j])
    {
      var linha := BuildLine(exercicios[i]);
      cells := cells + [linha];
    }
  }
}
