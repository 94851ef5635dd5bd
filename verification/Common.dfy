/** Small shared vocabulary: results of code that may raise, and finite-set and string-order facts. */
module Common {

  /** The result of code that either completes or raises an exception. */
  datatype Outcome<+T> = Raised | Done(value: T) {
    predicate IsFailure() {
      Raised?
    }

    function PropagateFailure<U>(): Outcome<U>
      requires Raised?
    {
      Raised
    }

    function Extract(): T
      requires Done?
    {
      value
    }
  }

  datatype Option<+T> = None | Some(value: T)

  ghost predicate NoDuplicates<T>(s: seq<T>) {
    forall i, j :: 0 <= i < j < |s| ==> s[i] != s[j]
  }

  lemma SubsetCardinality<T>(a: set<T>, b: set<T>)
    requires a <= b
    ensures |a| <= |b|
    ensures a != b ==> |a| < |b|
  {
    assert b == a + (b - a);
  }

  lemma TakeNext<T>(s: seq<T>, i: nat)
    requires i < |s|
    ensures s[..i + 1] == s[..i] + [s[i]]
  {
  }

  lemma ConcatAssociates<T>(a: seq<T>, b: seq<T>, c: seq<T>)
    ensures (a + b) + c == a + (b + c)
  {
  }

  lemma MergeThenUpdate<K, V>(a: map<K, V>, b: map<K, V>, k: K, x: V)
    ensures (a + b)[k := x] == a + b[k := x]
  {
  }

  // ---------- Python's order on strings ----------

  /** `a <= b` for Python strings: lexicographic by code point. */
  predicate StringLeq(a: string, b: string) {
    a == [] || (b != [] && (a[0] < b[0] || (a[0] == b[0] && StringLeq(a[1..], b[1..]))))
  }

  lemma StringLeqTotal(a: string, b: string)
    ensures StringLeq(a, b) || StringLeq(b, a)
    ensures StringLeq(a, b) && StringLeq(b, a) ==> a == b
  {
    if a != [] && b != [] && a[0] == b[0] {
      StringLeqTotal(a[1..], b[1..]);
      assert a == [a[0]] + a[1..] && b == [b[0]] + b[1..];
    }
  }

  lemma StringLeqTransitive(a: string, b: string, c: string)
    requires StringLeq(a, b) && StringLeq(b, c)
    ensures StringLeq(a, c)
  {
    if a != [] && b != [] && c != [] && a[0] == b[0] == c[0] {
      StringLeqTransitive(a[1..], b[1..], c[1..]);
    }
  }

  lemma LeastStringExists(s: set<string>)
    requires s != {}
    ensures exists k :: k in s && forall j :: j in s ==> StringLeq(k, j)
  {
    var x :| x in s;
    if s == {x} {
      StringLeqTotal(x, x);
    } else {
      LeastStringExists(s - {x});
      var k :| k in s - {x} && forall j :: j in s - {x} ==> StringLeq(k, j);
      StringLeqTotal(x, k);
      StringLeqTotal(x, x);
      var least := if StringLeq(x, k) then x else k;
      forall j | j in s ensures StringLeq(least, j) {
        if least == x && j != x {
          StringLeqTransitive(x, k, j);
        }
      }
    }
  }

  /** The least element of a non-empty set of strings. */
  function LeastString(s: set<string>): (k: string)
    requires s != {}
    ensures k in s && forall j :: j in s ==> StringLeq(k, j)
  {
    LeastStringExists(s);
    assert forall k, l |
      && k in s && (forall j :: j in s ==> StringLeq(k, j))
      && l in s && (forall j :: j in s ==> StringLeq(l, j)) :: k == l
    by {
      forall k, l |
        && k in s && (forall j :: j in s ==> StringLeq(k, j))
        && l in s && (forall j :: j in s ==> StringLeq(l, j))
        ensures k == l
      {
        StringLeqTotal(k, l);
      }
    }
    var k :| k in s && forall j :: j in s ==> StringLeq(k, j);
    k
  }

  /** `sorted(keys)`. */
  function Sorted(s: set<string>): (r: seq<string>)
    ensures forall k :: k in r <==> k in s
    ensures |r| == |s| && NoDuplicates(r)
    ensures forall i, j :: 0 <= i < j < |r| ==> StringLeq(r[i], r[j])
  {
    if s == {} then [] else
      var k := LeastString(s);
      var rest := Sorted(s - {k});
      [k] + rest
  }
}
