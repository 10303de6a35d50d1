/** The order of texts, code point by code point: that of `BTreeMap<String, _>` and of the
    database's ORDER BY on identifiers; and the ascending listing of a set of texts. */
module Order {
  predicate Leq(a: string, b: string)
  {
    a == "" || (b != "" && (a[0] < b[0] || (a[0] == b[0] && Leq(a[1..], b[1..]))))
  }

  lemma {:induction false} Total(a: string, b: string)
    ensures Leq(a, b) || Leq(b, a)
  {
    if a != "" && b != "" && a[0] == b[0] {
      Total(a[1..], b[1..]);
    }
  }

  lemma {:induction false} Antisymmetric(a: string, b: string)
    requires Leq(a, b) && Leq(b, a)
    ensures a == b
  {
    if a != "" && b != "" {
      Antisymmetric(a[1..], b[1..]);
      assert a == [a[0]] + a[1..] && b == [b[0]] + b[1..];
    }
  }

  lemma {:induction false} Transitive(a: string, b: string, c: string)
    requires Leq(a, b) && Leq(b, c)
    ensures Leq(a, c)
  {
    if a != "" && a[0] == b[0] && b[0] == c[0] {
      Transitive(a[1..], b[1..], c[1..]);
    }
  }

  predicate Least(m: string, s: set<string>)
  {
    m in s && forall x | x in s :: Leq(m, x)
  }

  lemma {:induction false} LeastExists(s: set<string>) returns (m: string)
    requires s != {}
    ensures Least(m, s)
    decreases |s|
  {
    var x :| x in s;
    if s == {x} {
      m := x;
      Total(x, x);
    } else {
      var rest := s - {x};
      assert x !in rest && s == rest + {x};
      var y := LeastExists(rest);
      Total(x, y);
      m := if Leq(x, y) then x else y;
      forall z | z in s
        ensures Leq(m, z)
      {
        Total(x, x);
        if z in rest {
          Transitive(m, y, z);
        } else {
          assert z == x;
        }
      }
    }
  }

  lemma LeastIsUnique(s: set<string>)
    requires s != {}
    ensures exists m :: Least(m, s)
    ensures forall m, n | Least(m, s) && Least(n, s) :: m == n
  {
    var m := LeastExists(s);
    forall m, n | Least(m, s) && Least(n, s)
      ensures m == n
    {
      Antisymmetric(m, n);
    }
  }

  function Smallest(s: set<string>): (m: string)
    requires s != {}
    ensures Least(m, s)
  {
    LeastIsUnique(s);
    var m :| m in s && Least(m, s);
    m
  }

  /** The elements of `s`, each once, in ascending order. */
  function Ascending(s: set<string>): (out: seq<string>)
    ensures forall x :: x in out <==> x in s
    decreases |s|
  {
    if s == {} then []
    else
      var m := Smallest(s);
      [m] + Ascending(s - {m})
  }

  predicate Sorted(out: seq<string>)
  {
    forall i, j | 0 <= i < j < |out| :: Leq(out[i], out[j]) && out[i] != out[j]
  }

  lemma {:induction false} AscendingIsSorted(s: set<string>)
    ensures Sorted(Ascending(s)) && |Ascending(s)| == |s|
    decreases |s|
  {
    if s != {} {
      var m := Smallest(s);
      AscendingIsSorted(s - {m});
      var out := Ascending(s);
      forall i, j | 0 <= i < j < |out|
        ensures Leq(out[i], out[j]) && out[i] != out[j]
      {
        assert out[j] in Ascending(s - {m});
      }
    }
  }
}
