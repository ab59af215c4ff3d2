/** Python's `sorted` on a set of strings: code-point order, lexicographically. */
module SortedKeys {

  predicate Before(a: string, b: string) {
    a == "" || (b != "" && (a[0] < b[0] || (a[0] == b[0] && Before(a[1..], b[1..]))))
  }

  /** One text is the beginning of the other, or has the smaller character where they first differ. */
  lemma {:induction false} BeforeIff(a: string, b: string)
    ensures Before(a, b) <==> exists n :: Differ(a, b, n)
  {
    if a == "" {
      assert Differ(a, b, 0);
    } else if b != "" && a[0] == b[0] {
      BeforeIff(a[1..], b[1..]);
      if n :| Differ(a[1..], b[1..], n) {
        assert Differ(a, b, n + 1) by {
          assert forall i :: 0 < i < n + 1 ==> a[i] == a[1..][i - 1] && b[i] == b[1..][i - 1];
        }
      }
      if n :| Differ(a, b, n) {
        assert n > 0;
        assert Differ(a[1..], b[1..], n - 1);
      }
    } else if b != "" && a[0] < b[0] {
      assert Differ(a, b, 0);
    }
  }

  /** The first n characters agree, and then `a` ends or goes on with a smaller character. */
  predicate Differ(a: string, b: string, n: int) {
    && 0 <= n <= |a| && n <= |b| && (forall i :: 0 <= i < n ==> a[i] == b[i])
    && (n == |a| || (n < |b| && a[n] < b[n]))
  }

  lemma {:induction false} BeforeReflexive(a: string)
    ensures Before(a, a)
  {
    if a != "" { BeforeReflexive(a[1..]); }
  }

  lemma {:induction false} BeforeAntisymmetric(a: string, b: string)
    requires Before(a, b) && Before(b, a)
    ensures a == b
  {
    if a != "" && b != "" {
      BeforeAntisymmetric(a[1..], b[1..]);
      assert a == [a[0]] + a[1..] && b == [b[0]] + b[1..];
    }
  }

  lemma {:induction false} BeforeTransitive(a: string, b: string, c: string)
    requires Before(a, b) && Before(b, c)
    ensures Before(a, c)
  {
    if a != "" && b != "" && c != "" && a[0] == b[0] == c[0] {
      BeforeTransitive(a[1..], b[1..], c[1..]);
    }
  }

  lemma {:induction false} BeforeTotal(a: string, b: string)
    ensures Before(a, b) || Before(b, a)
  {
    if a != "" && b != "" && a[0] == b[0] {
      BeforeTotal(a[1..], b[1..]);
    }
  }

  ghost predicate IsFirst(k: string, keys: set<string>) {
    k in keys && forall x :: x in keys ==> Before(k, x)
  }

  lemma {:induction false} FirstExists(keys: set<string>)
    requires keys != {}
    ensures exists k :: IsFirst(k, keys)
  {
    var x :| x in keys;
    BeforeReflexive(x);
    var rest := keys - {x};
    if rest == {} {
      assert keys == {x} && IsFirst(x, keys);
    } else {
      FirstExists(rest);
      var k :| IsFirst(k, rest);
      BeforeTotal(x, k);
      if Before(x, k) {
        forall y | y in keys ensures Before(x, y) {
          if y != x { BeforeTransitive(x, k, y); }
        }
        assert IsFirst(x, keys);
      } else {
        assert IsFirst(k, keys);
      }
    }
  }

  lemma FirstIsUnique(keys: set<string>, j: string, k: string)
    requires IsFirst(j, keys) && IsFirst(k, keys)
    ensures j == k
  {
    BeforeAntisymmetric(j, k);
  }

  function First(keys: set<string>): (k: string)
    requires keys != {}
    ensures IsFirst(k, keys)
  {
    FirstExists(keys);
    assert forall j, k | IsFirst(j, keys) && IsFirst(k, keys) :: j == k by {
      forall j, k | IsFirst(j, keys) && IsFirst(k, keys) ensures j == k { FirstIsUnique(keys, j, k); }
    }
    assert forall k :: IsFirst(k, keys) <==> k in keys && forall x | x in keys :: Before(k, x);
    var k :| k in keys && forall x | x in keys :: Before(k, x);
    k
  }

  /** Each key once, in order. */
  function Sorted(keys: set<string>): (r: seq<string>)
    ensures forall k :: k in r <==> k in keys
    ensures forall i, j :: 0 <= i < j < |r| ==> Before(r[i], r[j]) && r[i] != r[j]
    decreases keys
  {
    if keys == {} then [] else [First(keys)] + Sorted(keys - {First(keys)})
  }
}
