/** Strict total orders, and the order they give to sequences. */
module Lexicographic {
  predicate Lex<T(==)>(below: (T, T) -> bool, a: seq<T>, b: seq<T>)
  {
    b != [] && (a == [] || below(a[0], b[0]) || (a[0] == b[0] && Lex(below, a[1..], b[1..])))
  }

  ghost predicate StrictTotal<T(!new)>(below: (T, T) -> bool)
  {
    && (forall x: T :: !below(x, x))
    && (forall x: T, y: T :: x == y || below(x, y) || below(y, x))
    && (forall x: T, y: T, z: T :: below(x, y) && below(y, z) ==> below(x, z))
  }

  lemma {:induction false} LexTrichotomy<T(!new)>(below: (T, T) -> bool, a: seq<T>, b: seq<T>)
    requires StrictTotal(below)
    ensures a == b || Lex(below, a, b) || Lex(below, b, a)
    ensures !(Lex(below, a, b) && (Lex(below, b, a) || a == b))
  {
    if a == [] || b == [] {
    } else {
      LexTrichotomy(below, a[1..], b[1..]);
      assert a == [a[0]] + a[1..] && b == [b[0]] + b[1..];
    }
  }

  lemma {:induction false} LexTransitive<T(!new)>(below: (T, T) -> bool, a: seq<T>, b: seq<T>, c: seq<T>)
    requires StrictTotal(below) && Lex(below, a, b) && Lex(below, b, c)
    ensures Lex(below, a, c)
  {
    if a == [] || !(a[0] == b[0] == c[0]) {
    } else {
      LexTransitive(below, a[1..], b[1..], c[1..]);
    }
  }

  /** The sequences of a strictly ordered type are strictly ordered. */
  lemma LexStrictTotal<T(!new)>(below: (T, T) -> bool)
    requires StrictTotal(below)
    ensures StrictTotal((a: seq<T>, b: seq<T>) => Lex(below, a, b))
  {
    forall a: seq<T>, b: seq<T>
      ensures (a == b || Lex(below, a, b) || Lex(below, b, a)) && !(a == b && Lex(below, a, b))
    {
      LexTrichotomy(below, a, b);
    }
    forall a: seq<T>, b: seq<T>, c: seq<T> | Lex(below, a, b) && Lex(below, b, c) ensures Lex(below, a, c) {
      LexTransitive(below, a, b, c);
    }
  }
}
