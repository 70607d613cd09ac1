/** Orders shared by the models: Python's order on strings, and options. */
module Order {

  datatype Option<+T> = None | Some(value: T)

  /** Python's `<` on strings (and on byte strings): lexicographic by code point. */
  predicate StrLess(a: string, b: string) {
    b != [] && (a == [] || a[0] < b[0] || (a[0] == b[0] && StrLess(a[1..], b[1..])))
  }

  lemma {:induction false} StrIrreflexive(a: string)
    ensures !StrLess(a, a)
  {
    if a != [] { StrIrreflexive(a[1..]); }
  }

  lemma {:induction false} StrTransitive(a: string, b: string, c: string)
    requires StrLess(a, b) && StrLess(b, c)
    ensures StrLess(a, c)
  {
    if a != [] && a[0] == b[0] && b[0] == c[0] {
      StrTransitive(a[1..], b[1..], c[1..]);
    }
  }

  lemma {:induction false} StrTotal(a: string, b: string)
    ensures StrLess(a, b) || a == b || StrLess(b, a)
  {
    if a == [] || b == [] || a[0] != b[0] {
    } else {
      StrTotal(a[1..], b[1..]);
      assert a == [a[0]] + a[1..] && b == [b[0]] + b[1..];
    }
  }

  lemma StrAsymmetric(a: string, b: string)
    requires StrLess(a, b)
    ensures !StrLess(b, a) && a != b
  {
  }

  /** A common prefix does not influence the order. */
  lemma {:induction false} StrPrefix(p: string, a: string, b: string)
    ensures StrLess(p + a, p + b) == StrLess(a, b)
  {
    if p == [] {
      assert p + a == a && p + b == b;
    } else {
      assert (p + a)[1..] == p[1..] + a && (p + b)[1..] == p[1..] + b;
      StrPrefix(p[1..], a, b);
    }
  }

  /** The first difference decides, whatever follows it. */
  lemma StrFirstDifference(p: string, x: char, a: string, y: char, b: string)
    requires x != y
    ensures StrLess(p + [x] + a, p + [y] + b) == (x < y)
  {
    assert p + [x] + a == p + ([x] + a) && p + [y] + b == p + ([y] + b);
    StrPrefix(p, [x] + a, [y] + b);
  }
}
