/** Names in sort.Strings order. */
module NameOrder {

  predicate Before(a: string, b: string)
    decreases |a|
  {
    b != "" && (a == "" || a[0] < b[0] || (a[0] == b[0] && Before(a[1..], b[1..])))
  }

  lemma {:induction false} OneIsBefore(a: string, b: string)
    ensures a != b ==> Before(a, b) || Before(b, a)
    ensures !(Before(a, b) && Before(b, a))
    decreases |a|
  {
    if a != "" && b != "" {
      OneIsBefore(a[1..], b[1..]);
      if a[0] == b[0] && a[1..] == b[1..] {
        assert a == [a[0]] + a[1..] == b;
      }
    }
  }

  lemma {:induction false} BeforeIsTransitive(a: string, b: string, c: string)
    requires Before(a, b) && Before(b, c)
    ensures Before(a, c)
    decreases |a|
  {
    if a != "" && a[0] == b[0] && b[0] == c[0] {
      BeforeIsTransitive(a[1..], b[1..], c[1..]);
    }
  }

  predicate IsLeast(x: string, names: set<string>) {
    x in names && forall y | y in names :: y == x || Before(x, y)
  }

  lemma {:induction false} LeastExists(names: set<string>)
    requires names != {}
    ensures exists x :: IsLeast(x, names)
    decreases |names|
  {
    var x :| x in names;
    if names == {x} {
      assert IsLeast(x, names);
    } else {
      var rest := names - {x};
      assert names == {x} + rest;
      LeastExists(rest);
      var least :| IsLeast(least, rest);
      OneIsBefore(x, least);
      if Before(least, x) {
        assert IsLeast(least, names);
      } else {
        forall y | y in names
          ensures y == x || Before(x, y)
        {
          if y != x && y != least {
            BeforeIsTransitive(x, least, y);
          }
        }
        assert IsLeast(x, names);
      }
    }
  }

  lemma LeastIsOne(x: string, y: string, names: set<string>)
    requires IsLeast(x, names) && IsLeast(y, names)
    ensures x == y
  {
    OneIsBefore(x, y);
  }

  function Least(names: set<string>): (x: string)
    requires names != {}
    ensures IsLeast(x, names)
  {
    LeastExists(names);
    assert forall x, y | IsLeast(x, names) && IsLeast(y, names) :: x == y by {
      forall x, y | IsLeast(x, names) && IsLeast(y, names)
        ensures x == y
      {
        LeastIsOne(x, y, names);
      }
    }
    var x :| x in names && IsLeast(x, names);
    x
  }

  /** sort.Strings of a set of names. */
  function Sorted(names: set<string>): (out: seq<string>)
    ensures forall n :: n in out <==> n in names
    ensures |out| == |names|
    decreases |names|
  {
    if names == {} then []
    else
      var x := Least(names);
      [x] + Sorted(names - {x})
  }

  /** Each name comes before the ones after it. */
  lemma {:induction false} SortedIsIncreasing(names: set<string>)
    ensures forall i, j | 0 <= i < j < |Sorted(names)| :: Before(Sorted(names)[i], Sorted(names)[j])
    decreases |names|
  {
    if names != {} {
      var x := Least(names);
      var rest := Sorted(names - {x});
      SortedIsIncreasing(names - {x});
      forall i, j | 0 <= i < j < |Sorted(names)|
        ensures Before(Sorted(names)[i], Sorted(names)[j])
      {
        if i == 0 {
          assert Sorted(names)[j] == rest[j - 1] && rest[j - 1] in rest;
        } else {
          assert Sorted(names)[i] == rest[i - 1] && Sorted(names)[j] == rest[j - 1];
        }
      }
    }
  }
}
