/** Shapes shared by every component: optional values, results, and listing a finite set in some order. */
module Prelude {

  datatype Option<+T> = None | Some(value: T)

  datatype Result<+T, +E> = Ok(value: T) | Err(error: E)

  predicate NoRepeats<T(==)>(s: seq<T>) {
    forall i, j :: 0 <= i < j < |s| ==> s[i] != s[j]
  }

  function Elements<T>(s: seq<T>): set<T> {
    set x | x in s
  }

  lemma {:induction false} SizeOfElements<T>(s: seq<T>)
    requires NoRepeats(s)
    ensures |Elements(s)| == |s|
  {
    if s != [] {
      var t, x := s[..|s| - 1], s[|s| - 1];
      forall i | 0 <= i < |t|
        ensures t[i] == s[i] && t[i] != x
      {
      }
      SizeOfElements(t);
      assert s == t + [x];
      assert x !in Elements(t);
      assert Elements(s) == Elements(t) + {x};
    }
  }

  function Least(a: int, b: int): int {
    if a < b then a else b
  }

  // A query answers with its rows in some order that the model leaves open.
  method InSomeOrder<T(==)>(s: set<T>) returns (q: seq<T>)
    ensures NoRepeats(q)
    ensures Elements(q) == s
  {
    q := [];
    var rest := s;
    while rest != {}
      invariant NoRepeats(q)
      invariant Elements(q) !! rest && Elements(q) + rest == s
      decreases rest
    {
      var x :| x in rest;
      assert x !in q by {
        assert x !in Elements(q);
      }
      rest := rest - {x};
      assert Elements(q + [x]) == Elements(q) + {x};
      q := q + [x];
    }
  }
}
