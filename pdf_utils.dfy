/**
 * `sanitize_filename` of src/services/pdf_utils.py (and its identical copy
 * in src/pdf_utils.py): NFKD-normalise, drop every non-ASCII character,
 * replace every non-alphanumeric character by '_', lower-case.
 *
 * Unicode NFKD is a parameter: the decomposition of each character, which
 * must leave ASCII characters alone (as NFKD does). Applying it character
 * by character differs from real NFKD only in the canonical reordering of
 * combining marks, which are all non-ASCII and are dropped anyway.
 */
module PdfUtils {

  predicate IsAscii(c: char)
  {
    c as int < 128
  }

  /** `c.isalnum()` for an ASCII character. */
  predicate IsAsciiAlnum(c: char)
  {
    ('a' <= c <= 'z') || ('A' <= c <= 'Z') || ('0' <= c <= '9')
  }

  /** The characters a sanitized name may contain: [a-z0-9_]. */
  predicate IsSafe(c: char)
  {
    ('a' <= c <= 'z') || ('0' <= c <= '9') || c == '_'
  }

  /** `c.lower()` on ASCII. */
  function LowerChar(c: char): char
  {
    if 'A' <= c <= 'Z' then (c as int + 32) as char else c
  }

  /** A per-character decomposition that maps every ASCII character to itself. */
  ghost predicate FixesAscii(decompose: char -> string)
  {
    forall c: char :: IsAscii(c) ==> decompose(c) == [c]
  }

  /** `unicodedata.normalize("NFKD", s)`, character by character. */
  function Nfkd(decompose: char -> string, s: string): string
  {
    if s == [] then [] else decompose(s[0]) + Nfkd(decompose, s[1..])
  }

  /** `s.encode("ASCII", "ignore").decode("ASCII")`: the ASCII characters, in order. */
  function EncodeAsciiIgnore(s: string): string
  {
    if s == [] then []
    else (if IsAscii(s[0]) then [s[0]] else []) + EncodeAsciiIgnore(s[1..])
  }

  /** `"".join(c if c.isalnum() else "_" for c in s)`. */
  function Underscore(s: string): string
  {
    seq(|s|, i requires 0 <= i < |s| => if IsAsciiAlnum(s[i]) then s[i] else '_')
  }

  function LowerAll(s: string): string
  {
    seq(|s|, i requires 0 <= i < |s| => LowerChar(s[i]))
  }

  /** `sanitize_filename`: every output character is in [a-z0-9_]. */
  function SanitizeFilename(decompose: char -> string, nome: string): (r: string)
    ensures forall i :: 0 <= i < |r| ==> IsSafe(r[i])
  {
    LowerAll(Underscore(EncodeAsciiIgnore(Nfkd(decompose, nome))))
  }

  lemma {:induction false} NfkdOfAscii(decompose: char -> string, s: string)
    requires FixesAscii(decompose)
    requires forall i :: 0 <= i < |s| ==> IsAscii(s[i])
    ensures Nfkd(decompose, s) == s
  {
    if s != [] {
      NfkdOfAscii(decompose, s[1..]);
      assert s == [s[0]] + s[1..];
    }
  }

  lemma {:induction false} EncodeOfAscii(s: string)
    requires forall i :: 0 <= i < |s| ==> IsAscii(s[i])
    ensures EncodeAsciiIgnore(s) == s
  {
    if s != [] {
      EncodeOfAscii(s[1..]);
      assert s == [s[0]] + s[1..];
    }
  }

  /** On ASCII input the mapping is character by character and keeps the
      length: an alphanumeric character is lower-cased, anything else
      becomes '_'. */
  lemma SanitizeAscii(decompose: char -> string, nome: string)
    requires FixesAscii(decompose)
    requires forall i :: 0 <= i < |nome| ==> IsAscii(nome[i])
    ensures |SanitizeFilename(decompose, nome)| == |nome|
    ensures forall i :: 0 <= i < |nome| ==>
      SanitizeFilename(decompose, nome)[i] == if IsAsciiAlnum(nome[i]) then LowerChar(nome[i]) else '_'
  {
    NfkdOfAscii(decompose, nome);
    EncodeOfAscii(nome);
  }

  /** Sanitizing a sanitized name changes nothing. */
  lemma SanitizeIdempotent(decompose: char -> string, nome: string)
    requires FixesAscii(decompose)
    ensures SanitizeFilename(decompose, SanitizeFilename(decompose, nome)) == SanitizeFilename(decompose, nome)
  {
    var once := SanitizeFilename(decompose, nome);
    SanitizeAscii(decompose, once);
  }

  lemma {:induction false} NfkdAppend(decompose: char -> string, a: string, b: string)
    ensures Nfkd(decompose, a + b) == Nfkd(decompose, a) + Nfkd(decompose, b)
  {
    if a == [] {
      assert a + b == b;
    } else {
      NfkdAppend(decompose, a[1..], b);
      assert (a + b)[0] == a[0];
      assert (a + b)[1..] == a[1..] + b;
      var x, y, z := decompose(a[0]), Nfkd(decompose, a[1..]), Nfkd(decompose, b);
      assert x + (y + z) == (x + y) + z;
    }
  }

  lemma {:induction false} EncodeAppend(a: string, b: string)
    ensures EncodeAsciiIgnore(a + b) == EncodeAsciiIgnore(a) + EncodeAsciiIgnore(b)
  {
    if a == [] {
      assert a + b == b;
    } else {
      EncodeAppend(a[1..], b);
      assert (a + b)[0] == a[0];
      assert (a + b)[1..] == a[1..] + b;
      var x := if IsAscii(a[0]) then [a[0]] else [];
      var y, z := EncodeAsciiIgnore(a[1..]), EncodeAsciiIgnore(b);
      assert x + (y + z) == (x + y) + z;
    }
  }

  /** Sanitizing works piece by piece: the name of a concatenation is the
      concatenation of the names. */
  lemma SanitizeAppend(decompose: char -> string, a: string, b: string)
    ensures SanitizeFilename(decompose, a + b) == SanitizeFilename(decompose, a) + SanitizeFilename(decompose, b)
  {
    NfkdAppend(decompose, a, b);
    EncodeAppend(Nfkd(decompose, a), Nfkd(decompose, b));
  }

  /** A character whose decomposition has no ASCII part vanishes, so the
      output can be shorter than the input. */
  lemma SanitizeDrops(decompose: char -> string, c: char)
    requires forall i :: 0 <= i < |decompose(c)| ==> !IsAscii(decompose(c)[i])
    ensures SanitizeFilename(decompose, [c]) == []
  {
    var d := decompose(c);
    assert [c][1..] == [];
    assert Nfkd(decompose, [c]) == d + [];
    assert d + [] == d;
    NoAsciiEncodesToEmpty(d);
  }

  lemma {:induction false} NoAsciiEncodesToEmpty(s: string)
    requires forall i :: 0 <= i < |s| ==> !IsAscii(s[i])
    ensures EncodeAsciiIgnore(s) == []
  {
    if s != [] {
      NoAsciiEncodesToEmpty(s[1..]);
    }
  }

  // The members from here to SanitizeExample are the steps of that one
  // worked example, split apart so that each stays small for the solver.

  /** The decompositions the example name needs: 'Ã' (U+00C3) is 'A' with a
      combining tilde; '£' (U+00A3) and every other character decompose to
      themselves. */
  function ExampleDecompose(c: char): string
  {
    if c == '\U{C3}' then "A\U{0303}" else [c]
  }

  lemma ExampleFixesAscii()
    ensures FixesAscii(ExampleDecompose)
  {
  }

  /** Sanitizing an ASCII piece of the example name. */
  lemma ExampleAsciiPiece(piece: string, expected: string)
    requires forall i :: 0 <= i < |piece| ==> IsAscii(piece[i])
    requires |expected| == |piece|
    requires forall i :: 0 <= i < |piece| ==>
      expected[i] == if IsAsciiAlnum(piece[i]) then LowerChar(piece[i]) else '_'
    ensures SanitizeFilename(ExampleDecompose, piece) == expected
  {
    ExampleFixesAscii();
    SanitizeAscii(ExampleDecompose, piece);
  }

  /** The four ASCII pieces of the example name. */
  lemma ExampleAsciiPieces()
    ensures SanitizeFilename(ExampleDecompose, "Jo") == "jo"
    ensures SanitizeFilename(ExampleDecompose, "o da ") == "o_da_"
    ensures SanitizeFilename(ExampleDecompose, "Silva") == "silva"
    ensures SanitizeFilename(ExampleDecompose, " 1/2") == "_1_2"
  {
    ExampleAsciiPiece("Jo", "jo");
    ExampleAsciiPiece("o da ", "o_da_");
    ExampleAsciiPiece("Silva", "silva");
    ExampleAsciiPiece(" 1/2", "_1_2");
  }

  lemma ExampleTilde()
    ensures SanitizeFilename(ExampleDecompose, "\U{C3}") == "a"
  {
    var s := "\U{C3}";
    assert s[1..] == [];
    assert Nfkd(ExampleDecompose, s) == "A\U{0303}";
    var e := "A\U{0303}";
    assert e[1..][1..] == [];
    assert EncodeAsciiIgnore(e) == "A";
    assert Underscore("A") == "A";
    assert LowerAll("A") == "a";
  }

  lemma ExampleAccents()
    ensures SanitizeFilename(ExampleDecompose, "\U{C3}\U{A3}") == "a"
  {
    ExampleTilde();
    SanitizeDrops(ExampleDecompose, '\U{A3}');
    SanitizeAppend(ExampleDecompose, "\U{C3}", "\U{A3}");
    assert "\U{C3}\U{A3}" == "\U{C3}" + "\U{A3}";
  }

  /** Names built from five pieces sanitize piece by piece. */
  lemma SanitizeFivePieces(d: char -> string, p1: string, p2: string, p3: string, p4: string, p5: string)
    ensures SanitizeFilename(d, p1 + (p2 + (p3 + (p4 + p5))))
         == SanitizeFilename(d, p1) + (SanitizeFilename(d, p2) + (SanitizeFilename(d, p3)
            + (SanitizeFilename(d, p4) + SanitizeFilename(d, p5))))
  {
    SanitizeAppend(d, p4, p5);
    SanitizeAppend(d, p3, p4 + p5);
    SanitizeAppend(d, p2, p3 + (p4 + p5));
    SanitizeAppend(d, p1, p2 + (p3 + (p4 + p5)));
  }

  /** Step of SanitizeExample: the example name cut into its five pieces. */
  lemma ExampleSpelling(name: string)
    requires name == "Jo\U{C3}\U{A3}o da Silva 1/2"
    ensures name == "Jo" + ("\U{C3}\U{A3}" + ("o da " + ("Silva" + " 1/2")))
  {
  }

  /** Step of SanitizeExample: the five sanitized pieces spell the expected name. */
  lemma ExampleJoined()
    ensures "jo" + ("a" + ("o_da_" + ("silva" + "_1_2"))) == "joao_da_silva_1_2"
  {
  }

  /** Five sanitized pieces with the example's results assemble to its result. */
  lemma ExampleAssembly(d: char -> string, name: string, p1: string, p2: string, p3: string, p4: string, p5: string)
    requires name == p1 + (p2 + (p3 + (p4 + p5)))
    requires SanitizeFilename(d, p1) == "jo" && SanitizeFilename(d, p2) == "a"
    requires SanitizeFilename(d, p3) == "o_da_" && SanitizeFilename(d, p4) == "silva"
    requires SanitizeFilename(d, p5) == "_1_2"
    ensures SanitizeFilename(d, name) == "joao_da_silva_1_2"
  {
    SanitizeFivePieces(d, p1, p2, p3, p4, p5);
    ExampleJoined();
  }

  /** The accented name of the package's own test, as its source bytes
      spell it, becomes "joao_da_silva_1_2". */
  lemma SanitizeExample(name: string)
    requires name == "Jo\U{C3}\U{A3}o da Silva 1/2"
    ensures FixesAscii(ExampleDecompose)
    ensures SanitizeFilename(ExampleDecompose, name) == "joao_da_silva_1_2"
  {
    ExampleFixesAscii();
    ExampleAsciiPieces();
    ExampleAccents();
    ExampleSpelling(name);
    ExampleAssembly(ExampleDecompose, name, "Jo", "\U{C3}\U{A3}", "o da ", "Silva", " 1/2");
  }
}
