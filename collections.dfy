/** Small vocabulary shared by the model of the parser and of the clustering:
    Java's nullable references and the iteration order of hash-based collections. */
module Collections {

  /** A Java reference that may be null. */
  datatype Option<T> = None | Some(value: T)

  /** No element occurs twice in `order`. */
  predicate NoDuplicates<T(==)>(order: seq<T>)
  {
    forall p, q :: 0 <= p < q < |order| ==> order[p] != order[q]
  }

  /** `order` visits every element of `s` exactly once: the (unspecified) order
      in which a `HashMap` or `HashSet` hands out its keys. */
  predicate IsEnumeration<T(==)>(order: seq<T>, s: set<T>)
  {
    && NoDuplicates(order)
    && (forall x :: x in s ==> x in order)
    && (forall k :: 0 <= k < |order| ==> order[k] in s)
  }

  /** An enumeration has exactly one position per element. */
  lemma {:induction false} EnumerationSize<T>(order: seq<T>, s: set<T>)
    requires IsEnumeration(order, s)
    ensures |order| == |s|
    decreases |order|
  {
    if order == [] {
      assert s == {};
    } else {
      var n := |order| - 1;
      var last, init := order[n], order[..n];
      forall x | x in s - {last} ensures x in init {
        var t :| 0 <= t < |order| && order[t] == x;
        assert t != n && init[t] == x;
      }
      forall t | 0 <= t < |init| ensures init[t] in s - {last} {
        assert init[t] == order[t] && order[t] != order[n];
      }
      assert IsEnumeration(init, s - {last});
      EnumerationSize(init, s - {last});
    }
  }

  /** `List.remove(Object)`: drops the first element equal to `x`, if any. */
  function RemoveFirst<T(==)>(s: seq<T>, x: T): (r: seq<T>)
    ensures x !in s ==> r == s
    ensures x in s ==> |r| == |s| - 1
    ensures forall y :: y in r ==> y in s
  {
    if s == [] then []
    else if s[0] == x then s[1..]
    else [s[0]] + RemoveFirst(s[1..], x)
  }

  /** In a list without duplicates, removing the element at `k` removes
      exactly position `k`. */
  lemma {:induction false} RemoveFirstAt<T>(s: seq<T>, k: nat)
    requires k < |s| && NoDuplicates(s)
    ensures RemoveFirst(s, s[k]) == s[..k] + s[k + 1..]
  {
    if k > 0 {
      var tail := s[1..];
      assert s[0] != s[k];
      assert tail[k - 1] == s[k];
      assert NoDuplicates(tail) by {
        forall p, q | 0 <= p < q < |tail| ensures tail[p] != tail[q] {
          assert tail[p] == s[p + 1] && tail[q] == s[q + 1];
        }
      }
      RemoveFirstAt(tail, k - 1);
      calc {
        RemoveFirst(s, s[k]);
        [s[0]] + RemoveFirst(tail, s[k]);
        [s[0]] + (tail[..k - 1] + tail[k..]);
        { assert tail[..k - 1] == s[1..k] && tail[k..] == s[k + 1..]; }
        [s[0]] + (s[1..k] + s[k + 1..]);
        { assert [s[0]] + s[1..k] == s[..k]; }
        s[..k] + s[k + 1..];
      }
    }
  }
}
