/** Lists without duplicates: removing an element, and the order of the others. */
module Lists {

  function Without<T(==)>(list: seq<T>, j: T): (r: seq<T>)
    ensures |r| <= |list|
  {
    if list == [] then [] else if list[0] == j then Without(list[1..], j) else [list[0]] + Without(list[1..], j)
  }

  predicate NoDup<T(==)>(list: seq<T>) {
    list == [] || (list[0] !in list[1..] && NoDup(list[1..]))
  }

  /** `j` and `k` are in the list, and `j` comes before `k`. */
  predicate Above<T(==)>(list: seq<T>, j: T, k: T) {
    list != [] && if list[0] == j then k != j && k in list else list[0] != k && Above(list[1..], j, k)
  }

  lemma {:induction false} WithoutMembers<T(!new)>(list: seq<T>, j: T)
    requires NoDup(list)
    ensures NoDup(Without(list, j))
    ensures forall k :: k in Without(list, j) <==> k in list && k != j
  {
    if list != [] {
      WithoutMembers(list[1..], j);
      assert list == [list[0]] + list[1..];
      if list[0] != j {
        var r := [list[0]] + Without(list[1..], j);
        assert r[0] == list[0] && r[1..] == Without(list[1..], j);
      }
    }
  }

  /** Removing another element does not change the order of two. */
  lemma {:induction false} WithoutAbove<T(!new)>(list: seq<T>, x: T, j: T, k: T)
    requires NoDup(list) && Above(list, j, k) && x != j && x != k
    ensures Above(Without(list, x), j, k)
  {
    WithoutMembers(list, x);
    if list[0] != j {
      WithoutAbove(list[1..], x, j, k);
    }
    if list[0] != x {
      var r := [list[0]] + Without(list[1..], x);
      assert r[0] == list[0] && r[1..] == Without(list[1..], x);
    }
  }

  lemma {:induction false} AboveMembers<T(!new)>(list: seq<T>, j: T, k: T)
    requires Above(list, j, k)
    ensures j in list && k in list && j != k
  {
    if list[0] != j {
      AboveMembers(list[1..], j, k);
    }
  }

  lemma TailMembers<T>(list: seq<T>, x: T)
    requires list != []
    ensures x in list[1..] ==> x in list
    ensures NoDup(list) ==> NoDup(list[1..]) && (x in list <==> x == list[0] || x in list[1..])
  {
    assert list == [list[0]] + list[1..];
  }

  /** Removing an element puts no two others into an order that they did not have. */
  lemma {:induction false} AboveWithout<T(!new)>(list: seq<T>, x: T, j: T, k: T)
    requires NoDup(list) && Above(Without(list, x), j, k)
    ensures Above(list, j, k)
  {
    if list != [] {
      var rest := Without(list[1..], x);
      WithoutMembers(list[1..], x);
      if list[0] == x {
        AboveWithout(list[1..], x, j, k);
        AboveMembers(list[1..], j, k);
      } else {
        assert ([list[0]] + rest)[1..] == rest;
        if list[0] != j {
          AboveWithout(list[1..], x, j, k);
        }
      }
    }
  }

  lemma AboveTail<T(!new)>(list: seq<T>, j: T, k: T)
    requires NoDup(list) && list != [] && Above(list[1..], j, k)
    ensures Above(list, j, k)
  {
    AboveMembers(list[1..], j, k);
  }

  lemma {:induction false} AboveSnoc<T(!new)>(list: seq<T>, x: T, j: T, k: T)
    requires Above(list + [x], j, k) && x !in list
    ensures Above(list, j, k) || (k == x && j in list)
  {
    var r := list + [x];
    if list != [] && list[0] != j {
      assert r[1..] == list[1..] + [x];
      AboveSnoc(list[1..], x, j, k);
    }
  }

  lemma {:induction false} NoDupSnoc<T>(list: seq<T>, x: T)
    requires NoDup(list) && x !in list
    ensures NoDup(list + [x])
  {
    if list != [] {
      NoDupSnoc(list[1..], x);
      assert (list + [x])[1..] == list[1..] + [x];
    }
  }

  lemma {:induction false} WithoutAbsent<T>(list: seq<T>, x: T)
    ensures x !in list ==> Without(list, x) == list
    ensures x !in Without(list, x)
  {
    if list != [] {
      WithoutAbsent(list[1..], x);
    }
  }

  /** A list without duplicates has as many elements as it is long. */
  lemma {:induction false} NoDupSize<T>(list: seq<T>)
    requires NoDup(list)
    ensures |set x | x in list| == |list|
  {
    if list != [] {
      NoDupSize(list[1..]);
      assert (set x | x in list) == (set x | x in list[1..]) + {list[0]};
    }
  }

  lemma {:induction false} WithoutSize<T>(list: seq<T>, x: T)
    requires NoDup(list) && x in list
    ensures |Without(list, x)| == |list| - 1
  {
    if list[0] == x {
      WithoutAbsent(list[1..], x);
    } else {
      WithoutSize(list[1..], x);
    }
  }

  lemma SubsetSize<T>(a: set<T>, b: set<T>)
    requires a <= b
    ensures |a| <= |b|
    ensures |a| == |b| ==> a == b
  {
    assert b == a + (b - a);
    assert |b| == |a| + |b - a|;
  }
}
