/** Total orders, the lexicographic order Python gives strings and tuples, and
    the sorted sequence of a finite set (Python's `sorted` on a set). */
module Ordering {

  datatype Option<+T> = None | Some(value: T)

  ghost predicate TotalOrder<T(!new)>(leq: (T, T) -> bool) {
    && (forall x, y :: leq(x, y) || leq(y, x))
    && (forall x, y :: leq(x, y) && leq(y, x) ==> x == y)
    && (forall x, y, z :: leq(x, y) && leq(y, z) ==> leq(x, z))
  }

  /** Lexicographic order on sequences over an order on the elements. */
  predicate Lex<T(==)>(leq: (T, T) -> bool, a: seq<T>, b: seq<T>) {
    if a == [] then true
    else if b == [] then false
    else if a[0] == b[0] then Lex(leq, a[1..], b[1..])
    else leq(a[0], b[0])
  }

  predicate CharLeq(x: char, y: char) {
    x <= y
  }

  /** Order of Python strings: by code point, first difference decides. */
  predicate StrLeq(a: string, b: string) {
    Lex(CharLeq, a, b)
  }

  /** Order of Python tuples of strings. */
  predicate TupleLeq(a: seq<string>, b: seq<string>) {
    Lex(StrLeq, a, b)
  }

  lemma {:induction false} LexTotal<T(!new)>(leq: (T, T) -> bool, a: seq<T>, b: seq<T>)
    requires TotalOrder(leq)
    ensures Lex(leq, a, b) || Lex(leq, b, a)
  {
    if a != [] && b != [] && a[0] == b[0] {
      LexTotal(leq, a[1..], b[1..]);
    }
  }

  lemma {:induction false} LexAntisymmetric<T(!new)>(leq: (T, T) -> bool, a: seq<T>, b: seq<T>)
    requires TotalOrder(leq)
    requires Lex(leq, a, b) && Lex(leq, b, a)
    ensures a == b
  {
    if a != [] && b != [] && a[0] == b[0] {
      LexAntisymmetric(leq, a[1..], b[1..]);
      assert a == [a[0]] + a[1..] && b == [b[0]] + b[1..];
    }
  }

  lemma {:induction false} LexTransitive<T(!new)>(leq: (T, T) -> bool, a: seq<T>, b: seq<T>, c: seq<T>)
    requires TotalOrder(leq)
    requires Lex(leq, a, b) && Lex(leq, b, c)
    ensures Lex(leq, a, c)
  {
    if a != [] && b != [] && c != [] && a[0] == b[0] == c[0] {
      LexTransitive(leq, a[1..], b[1..], c[1..]);
    }
  }

  lemma StrLeqIsTotalOrder()
    ensures TotalOrder(StrLeq)
  {
    forall a, b ensures StrLeq(a, b) || StrLeq(b, a) {
      LexTotal(CharLeq, a, b);
    }
    forall a, b | StrLeq(a, b) && StrLeq(b, a) ensures a == b {
      LexAntisymmetric(CharLeq, a, b);
    }
    forall a, b, c | StrLeq(a, b) && StrLeq(b, c) ensures StrLeq(a, c) {
      LexTransitive(CharLeq, a, b, c);
    }
  }

  lemma TupleLeqIsTotalOrder()
    ensures TotalOrder(TupleLeq)
  {
    StrLeqIsTotalOrder();
    forall a, b ensures TupleLeq(a, b) || TupleLeq(b, a) {
      LexTotal(StrLeq, a, b);
    }
    forall a, b | TupleLeq(a, b) && TupleLeq(b, a) ensures a == b {
      LexAntisymmetric(StrLeq, a, b);
    }
    forall a, b, c | TupleLeq(a, b) && TupleLeq(b, c) ensures TupleLeq(a, c) {
      LexTransitive(StrLeq, a, b, c);
    }
  }

  lemma {:induction false} MinExists<T(!new)>(s: set<T>, leq: (T, T) -> bool)
    requires TotalOrder(leq) && s != {}
    ensures exists m :: m in s && forall y :: y in s ==> leq(m, y)
  {
    var x :| x in s;
    if !(forall y :: y in s ==> leq(x, y)) {
      var z :| z in s && !leq(x, z);
      var rest := s - {x};
      assert leq(x, x) && z in rest;
      MinExists(rest, leq);
      var m :| m in rest && forall y :: y in rest ==> leq(m, y);
      assert leq(m, z) && leq(z, x);
      assert forall y :: y in s ==> y == x || y in rest;
    }
  }

  function Min<T(!new,==)>(s: set<T>, leq: (T, T) -> bool): (m: T)
    requires TotalOrder(leq) && s != {}
    ensures m in s && forall y :: y in s ==> leq(m, y)
  {
    MinExists(s, leq);
    var m :| m in s && forall y :: y in s ==> leq(m, y);
    m
  }

  /** The elements of `s` once each, in increasing order. */
  function SortSet<T(!new,==)>(s: set<T>, leq: (T, T) -> bool): seq<T>
    requires TotalOrder(leq)
  {
    if s == {} then []
    else
      var m := Min(s, leq);
      [m] + SortSet(s - {m}, leq)
  }

  lemma {:induction false} SortSetIsSorted<T(!new)>(s: set<T>, leq: (T, T) -> bool)
    requires TotalOrder(leq)
    ensures forall x :: x in SortSet(s, leq) <==> x in s
    ensures forall i, j :: 0 <= i < j < |SortSet(s, leq)| ==>
              leq(SortSet(s, leq)[i], SortSet(s, leq)[j]) && SortSet(s, leq)[i] != SortSet(s, leq)[j]
  {
    if s != {} {
      var m := Min(s, leq);
      SortSetIsSorted(s - {m}, leq);
      var rest := SortSet(s - {m}, leq);
      forall j | 0 <= j < |rest| ensures leq(m, rest[j]) && m != rest[j] {
        assert rest[j] in rest;
      }
    }
  }

  function SortStrings(s: set<string>): seq<string> {
    StrLeqIsTotalOrder();
    SortSet(s, StrLeq)
  }

  function SortTuples(s: set<seq<string>>): seq<seq<string>> {
    TupleLeqIsTotalOrder();
    SortSet(s, TupleLeq)
  }

  lemma SortStringsMembers(s: set<string>)
    ensures forall x :: x in SortStrings(s) <==> x in s
  {
    StrLeqIsTotalOrder();
    SortSetIsSorted(s, StrLeq);
  }

  lemma SortStringsDistinct(s: set<string>)
    ensures forall i, j :: 0 <= i < j < |SortStrings(s)| ==> SortStrings(s)[i] != SortStrings(s)[j]
  {
    StrLeqIsTotalOrder();
    SortSetIsSorted(s, StrLeq);
  }

  lemma SortTuplesMembers(s: set<seq<string>>)
    ensures forall x :: x in SortTuples(s) <==> x in s
  {
    TupleLeqIsTotalOrder();
    SortSetIsSorted(s, TupleLeq);
  }

  lemma SortTuplesDistinct(s: set<seq<string>>)
    ensures forall i, j :: 0 <= i < j < |SortTuples(s)| ==> SortTuples(s)[i] != SortTuples(s)[j]
  {
    TupleLeqIsTotalOrder();
    SortSetIsSorted(s, TupleLeq);
  }

  lemma Pick<T>(s: set<T>) returns (x: T)
    requires s != {}
    ensures x in s
  {
    x :| x in s;
  }
}
