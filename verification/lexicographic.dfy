/** The orders Python uses to compare strings and tuples of strings.

    Python compares strings by code point, and tuples element by element,
    a proper prefix coming first. `StrLt` and `PathLt` state both orders and
    the lemmas below establish that each is a strict total order.
 */
module Lexicographic {

  /** `a < b` on Python strings. */
  predicate StrLt(a: string, b: string)
  {
    if |a| == 0 then |b| > 0
    else |b| > 0 && (a[0] < b[0] || (a[0] == b[0] && StrLt(a[1..], b[1..])))
  }

  /** `p < q` on Python tuples of strings. */
  predicate PathLt(p: seq<string>, q: seq<string>)
  {
    if |p| == 0 then |q| > 0
    else |q| > 0 && (StrLt(p[0], q[0]) || (p[0] == q[0] && PathLt(p[1..], q[1..])))
  }

  predicate PathLe(p: seq<string>, q: seq<string>)
  {
    p == q || PathLt(p, q)
  }

  lemma {:induction false} StrLtIrreflexive(a: string)
    ensures !StrLt(a, a)
  {
    if |a| > 0 {
      StrLtIrreflexive(a[1..]);
    }
  }

  lemma {:induction false} StrLtTransitive(a: string, b: string, c: string)
    requires StrLt(a, b) && StrLt(b, c)
    ensures StrLt(a, c)
  {
    if |a| > 0 && a[0] == b[0] && b[0] == c[0] {
      StrLtTransitive(a[1..], b[1..], c[1..]);
    }
  }

  lemma {:induction false} StrLtTotal(a: string, b: string)
    ensures a == b || StrLt(a, b) || StrLt(b, a)
  {
    if |a| > 0 && |b| > 0 && a[0] == b[0] {
      StrLtTotal(a[1..], b[1..]);
      if a[1..] == b[1..] {
        assert a == [a[0]] + a[1..] && b == [b[0]] + b[1..];
      }
    }
  }

  lemma StrLtAsymmetric(a: string, b: string)
    requires StrLt(a, b)
    ensures !StrLt(b, a)
  {
    if StrLt(b, a) {
      StrLtTransitive(a, b, a);
      StrLtIrreflexive(a);
    }
  }

  lemma {:induction false} PathLtIrreflexive(p: seq<string>)
    ensures !PathLt(p, p)
  {
    if |p| > 0 {
      StrLtIrreflexive(p[0]);
      PathLtIrreflexive(p[1..]);
    }
  }

  lemma {:induction false} PathLtTransitive(p: seq<string>, q: seq<string>, r: seq<string>)
    requires PathLt(p, q) && PathLt(q, r)
    ensures PathLt(p, r)
  {
    if |p| > 0 {
      if StrLt(p[0], q[0]) && StrLt(q[0], r[0]) {
        StrLtTransitive(p[0], q[0], r[0]);
      } else if p[0] == q[0] && q[0] == r[0] {
        PathLtTransitive(p[1..], q[1..], r[1..]);
      }
    }
  }

  lemma {:induction false} PathLtTotal(p: seq<string>, q: seq<string>)
    ensures p == q || PathLt(p, q) || PathLt(q, p)
  {
    if |p| > 0 && |q| > 0 {
      StrLtTotal(p[0], q[0]);
      if p[0] == q[0] {
        PathLtTotal(p[1..], q[1..]);
        if p[1..] == q[1..] {
          assert p == [p[0]] + p[1..] && q == [q[0]] + q[1..];
        }
      }
    }
  }

  lemma PathLtAsymmetric(p: seq<string>, q: seq<string>)
    requires PathLt(p, q)
    ensures !PathLt(q, p)
  {
    if PathLt(q, p) {
      PathLtTransitive(p, q, p);
      PathLtIrreflexive(p);
    }
  }

  /** Prepending the same key keeps the order of two paths. */
  lemma PathLtCons(k: string, p: seq<string>, q: seq<string>)
    requires PathLt(p, q)
    ensures PathLt([k] + p, [k] + q)
  {
    assert ([k] + p)[1..] == p && ([k] + q)[1..] == q;
  }

  /** Paths that start with different keys are ordered by those keys. */
  lemma PathLtByHead(p: seq<string>, q: seq<string>)
    requires |p| > 0 && |q| > 0 && StrLt(p[0], q[0])
    ensures PathLt(p, q)
  {
  }
}
