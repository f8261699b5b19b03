/**
 * SQLite's BINARY collation, used by `ORDER BY nome`: strings compare as
 * their UTF-8 encodings do under memcmp, and for Unicode scalar values
 * that is the lexicographic order of code points, a proper prefix first.
 */
module Collation {

  /** `a` sorts no later than `b`. */
  predicate BinaryLe(a: string, b: string)
    decreases |a|
  {
    a == [] || (b != [] && (a[0] < b[0] || (a[0] == b[0] && BinaryLe(a[1..], b[1..]))))
  }

  /** The order written out as memcmp computes it: `a` is a prefix of `b`, or
      they agree up to the first difference and there `a` is smaller. */
  ghost predicate MemcmpLe(a: string, b: string)
  {
    (|a| <= |b| && a == b[..|a|])
    || exists k :: 0 <= k < |a| && k < |b| && a[..k] == b[..k] && a[k] < b[k]
  }

  lemma {:induction false} BinaryLeIsMemcmp(a: string, b: string)
    ensures BinaryLe(a, b) <==> MemcmpLe(a, b)
    decreases |a|
  {
    if a != [] && b != [] {
      BinaryLeIsMemcmp(a[1..], b[1..]);
      if a[0] == b[0] {
        if MemcmpLe(a[1..], b[1..]) {
          if |a[1..]| <= |b[1..]| && a[1..] == b[1..][..|a[1..]|] {
            assert a == b[..|a|];
          } else {
            var k :| 0 <= k < |a[1..]| && k < |b[1..]| && a[1..][..k] == b[1..][..k] && a[1..][k] < b[1..][k];
            assert a[..k + 1] == [a[0]] + a[1..][..k];
            assert b[..k + 1] == [b[0]] + b[1..][..k];
            assert a[k + 1] < b[k + 1];
          }
        }
        if MemcmpLe(a, b) {
          if |a| <= |b| && a == b[..|a|] {
            assert a[1..] == b[1..][..|a[1..]|];
          } else {
            var k :| 0 <= k < |a| && k < |b| && a[..k] == b[..k] && a[k] < b[k];
            assert k != 0;
            assert a[1..][..k - 1] == a[..k][1..];
            assert b[1..][..k - 1] == b[..k][1..];
            assert a[1..][k - 1] < b[1..][k - 1];
          }
        }
      } else if a[0] < b[0] {
        assert a[..0] == b[..0];
      }
    }
  }

  lemma {:induction false} BinaryLeReflexive(a: string)
    ensures BinaryLe(a, a)
    decreases |a|
  {
    if a != [] {
      BinaryLeReflexive(a[1..]);
    }
  }

  /** Any two names are comparable. */
  lemma {:induction false} BinaryLeTotal(a: string, b: string)
    ensures BinaryLe(a, b) || BinaryLe(b, a)
    decreases |a|
  {
    if a != [] && b != [] && a[0] == b[0] {
      BinaryLeTotal(a[1..], b[1..]);
    }
  }

  lemma {:induction false} BinaryLeTransitive(a: string, b: string, c: string)
    requires BinaryLe(a, b) && BinaryLe(b, c)
    ensures BinaryLe(a, c)
    decreases |a|
  {
    if a != [] && a[0] == b[0] && b[0] == c[0] {
      BinaryLeTransitive(a[1..], b[1..], c[1..]);
    }
  }

  lemma {:induction false} BinaryLeAntisymmetric(a: string, b: string)
    requires BinaryLe(a, b) && BinaryLe(b, a)
    ensures a == b
    decreases |a|
  {
    if a != [] {
      BinaryLeAntisymmetric(a[1..], b[1..]);
      assert a == [a[0]] + a[1..] && b == [b[0]] + b[1..];
    }
  }
}
