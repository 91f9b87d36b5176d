/** A stable sort from the highest key to the lowest: what Python's `sorted`
    with `reverse=True` does, since reversing keeps equal elements in their
    original order. */
module StableSort {

  /** `s` runs from the highest key to the lowest. */
  predicate SortedDesc<T>(s: seq<T>, key: T -> real) {
    forall i, j :: 0 <= i < j < |s| ==> key(s[i]) >= key(s[j])
  }

  /** The elements of `s` whose key is `v`, in their order in `s`. Two
      sequences whose key classes all agree order every tie alike. */
  function KeyClass<T>(s: seq<T>, key: T -> real, v: real): seq<T>
    decreases |s|
  {
    if |s| == 0 then [] else (if key(s[0]) == v then [s[0]] else []) + KeyClass(s[1..], key, v)
  }

  /** Inserts `x` before the first element whose key is not above its own. */
  function Insert<T>(x: T, s: seq<T>, key: T -> real): (r: seq<T>)
    ensures multiset(r) == multiset(s) + multiset{x}
    ensures |r| == |s| + 1 && (r[0] == x || (|s| > 0 && r[0] == s[0]))
    decreases |s|
  {
    if |s| == 0 || key(s[0]) <= key(x) then
      [x] + s
    else
      assert s == [s[0]] + s[1..];
      [s[0]] + Insert(x, s[1..], key)
  }

  /** Insertion keeps a descending sequence descending. */
  lemma {:induction false} InsertSorted<T>(x: T, s: seq<T>, key: T -> real)
    requires SortedDesc(s, key)
    ensures SortedDesc(Insert(x, s, key), key)
    decreases |s|
  {
    if |s| > 0 && key(s[0]) > key(x) {
      var rest := Insert(x, s[1..], key);
      InsertSorted(x, s[1..], key);
      assert key(s[0]) >= key(rest[0]);
      assert Insert(x, s, key) == [s[0]] + rest;
    }
  }

  /** Insertion sort: from the highest key to the lowest, a permutation of `s`. */
  function SortDesc<T>(s: seq<T>, key: T -> real): (r: seq<T>)
    ensures multiset(r) == multiset(s)
    ensures SortedDesc(r, key)
    decreases |s|
  {
    if |s| == 0 then
      []
    else
      assert s == [s[0]] + s[1..];
      InsertSorted(s[0], SortDesc(s[1..], key), key);
      Insert(s[0], SortDesc(s[1..], key), key)
  }

  lemma {:induction false} KeyClassMembers<T>(s: seq<T>, key: T -> real, v: real, y: T)
    ensures y in KeyClass(s, key, v) <==> y in s && key(y) == v
    decreases |s|
  {
    if |s| > 0 {
      KeyClassMembers(s[1..], key, v, y);
      assert s == [s[0]] + s[1..];
    }
  }

  /** The key class of a sequence with a given head. */
  lemma KeyClassCons<T>(y: T, t: seq<T>, key: T -> real, v: real)
    ensures KeyClass([y] + t, key, v) == (if key(y) == v then [y] else []) + KeyClass(t, key, v)
  {
    assert ([y] + t)[0] == y && ([y] + t)[1..] == t;
  }

  /** Inserting `x` puts it ahead of every element of its key class. */
  lemma {:induction false} InsertKeyClass<T>(x: T, s: seq<T>, key: T -> real, v: real)
    ensures KeyClass(Insert(x, s, key), key, v) == (if key(x) == v then [x] else []) + KeyClass(s, key, v)
    decreases |s|
  {
    if |s| == 0 || key(s[0]) <= key(x) {
      assert Insert(x, s, key) == [x] + s;
      KeyClassCons(x, s, key, v);
    } else {
      var rest := Insert(x, s[1..], key);
      assert Insert(x, s, key) == [s[0]] + rest;
      InsertKeyClass(x, s[1..], key, v);
      KeyClassPassOver(x, s[0], rest, s[1..], key, v);
      assert s == [s[0]] + s[1..];
    }
  }

  /** `x` passed over `y` (a higher key) into `rest`, which gives `x` ahead of
      the class of `t`: then `y` followed by `rest` gives `x` ahead of the
      class of `y` followed by `t`. */
  lemma KeyClassPassOver<T>(x: T, y: T, rest: seq<T>, t: seq<T>, key: T -> real, v: real)
    requires key(y) > key(x)
    requires KeyClass(rest, key, v) == (if key(x) == v then [x] else []) + KeyClass(t, key, v)
    ensures KeyClass([y] + rest, key, v) == (if key(x) == v then [x] else []) + KeyClass([y] + t, key, v)
  {
    KeyClassCons(y, rest, key, v);
    KeyClassCons(y, t, key, v);
    if key(x) == v {
      assert key(y) != v;
    } else {
      assert KeyClass(rest, key, v) == KeyClass(t, key, v);
    }
  }

  /** The sort is stable: every key class keeps its order. */
  lemma {:induction false} SortDescIsStable<T>(s: seq<T>, key: T -> real, v: real)
    ensures KeyClass(SortDesc(s, key), key, v) == KeyClass(s, key, v)
    decreases |s|
  {
    if |s| > 0 {
      SortDescIsStable(s[1..], key, v);
      InsertKeyClass(s[0], SortDesc(s[1..], key), key, v);
    }
  }

  /** A descending order with given key classes is unique: two sequences,
      both ordered from the highest key to the lowest, whose key classes all
      agree, are equal. */
  lemma {:induction false} SortedWithSameClassesAreEqual<T>(a: seq<T>, b: seq<T>, key: T -> real)
    requires SortedDesc(a, key) && SortedDesc(b, key)
    requires forall v :: KeyClass(a, key, v) == KeyClass(b, key, v)
    ensures a == b
    decreases |a|
  {
    if |a| > 0 {
      assert KeyClass(a, key, key(a[0])) == KeyClass(b, key, key(a[0]));
      SameClassesSameTopKey(a, b, key);
    }
    if |b| > 0 {
      assert KeyClass(b, key, key(b[0])) == KeyClass(a, key, key(b[0]));
      SameClassesSameTopKey(b, a, key);
    }
    if |a| > 0 {
      SameTopKeySameHead(a, b, key);
      SameClassesSameTail(a, b, key);
      SortedWithSameClassesAreEqual(a[1..], b[1..], key);
      assert a == [a[0]] + a[1..] && b == [b[0]] + b[1..];
    }
  }

  /** An element with the highest key of one side shows up on the other
      side, so neither side can be empty alone and their heads have the same
      key. */
  lemma SameClassesSameTopKey<T>(a: seq<T>, b: seq<T>, key: T -> real)
    requires SortedDesc(b, key) && |a| > 0
    requires KeyClass(a, key, key(a[0])) == KeyClass(b, key, key(a[0]))
    ensures |b| > 0 && key(a[0]) <= key(b[0])
  {
    var m := key(a[0]);
    KeyClassMembers(a, key, m, a[0]);
    var y := KeyClass(b, key, m)[0];
    KeyClassMembers(b, key, m, y);
    var j :| 0 <= j < |b| && b[j] == y;
  }

  /** Heads with the same key whose key class agrees are the same element:
      each is the first of that class. */
  lemma SameTopKeySameHead<T>(a: seq<T>, b: seq<T>, key: T -> real)
    requires |a| > 0 && |b| > 0 && key(a[0]) == key(b[0])
    requires KeyClass(a, key, key(a[0])) == KeyClass(b, key, key(a[0]))
    ensures a[0] == b[0]
  {
    var m := key(a[0]);
    assert KeyClass(a, key, m) == [a[0]] + KeyClass(a[1..], key, m);
    assert KeyClass(b, key, m) == [b[0]] + KeyClass(b[1..], key, m);
  }

  /** Removing a common head keeps the key classes in agreement. */
  lemma SameClassesSameTail<T>(a: seq<T>, b: seq<T>, key: T -> real)
    requires |a| > 0 && |b| > 0 && a[0] == b[0]
    requires forall v :: KeyClass(a, key, v) == KeyClass(b, key, v)
    ensures forall v :: KeyClass(a[1..], key, v) == KeyClass(b[1..], key, v)
  {
    forall v
      ensures KeyClass(a[1..], key, v) == KeyClass(b[1..], key, v)
    {
      var h := if key(a[0]) == v then [a[0]] else [];
      assert KeyClass(a, key, v) == h + KeyClass(a[1..], key, v);
      assert KeyClass(b, key, v) == h + KeyClass(b[1..], key, v);
      assert KeyClass(a[1..], key, v) == KeyClass(a, key, v)[|h|..];
    }
  }

  /** The elements of `s` that `keep` accepts, in their order in `s`. */
  function Filter<T(!new)>(s: seq<T>, keep: T -> bool): (r: seq<T>)
    ensures forall i :: 0 <= i < |r| ==> keep(r[i])
    ensures forall x :: multiset(r)[x] == if keep(x) then multiset(s)[x] else 0
    decreases |s|
  {
    if |s| == 0 then
      []
    else
      assert s == [s[0]] + s[1..];
      (if keep(s[0]) then [s[0]] else []) + Filter(s[1..], keep)
  }

  /** The head of a descending sequence has the highest key. */
  lemma SortedHeadIsMax<T>(s: seq<T>, key: T -> real, y: T)
    requires SortedDesc(s, key) && y in s
    ensures key(y) <= key(s[0])
  {
    var i :| 0 <= i < |s| && s[i] == y;
  }

  /** The key class of a filtered sequence, one element at a time. */
  lemma FilteredClassStep<T(!new)>(s: seq<T>, keep: T -> bool, key: T -> real, v: real)
    requires |s| > 0
    ensures KeyClass(Filter(s, keep), key, v)
            == (if keep(s[0]) && key(s[0]) == v then [s[0]] else []) + KeyClass(Filter(s[1..], keep), key, v)
  {
    var f, tail := Filter(s, keep), Filter(s[1..], keep);
    if keep(s[0]) {
      assert f == [s[0]] + tail;
      assert f[1..] == tail;
    } else {
      assert f == tail;
    }
  }

  /** The first element of a key class of a filtered sequence is the first
      element of the original sequence that passes the filter and has that
      key. */
  lemma {:induction false} FirstOfFilteredClass<T(!new)>(s: seq<T>, keep: T -> bool, key: T -> real, v: real)
      returns (k: nat)
    requires |KeyClass(Filter(s, keep), key, v)| > 0
    ensures k < |s| && s[k] == KeyClass(Filter(s, keep), key, v)[0]
    ensures keep(s[k]) && key(s[k]) == v
    ensures forall j :: 0 <= j < k ==> !(keep(s[j]) && key(s[j]) == v)
    decreases |s|
  {
    FilteredClassStep(s, keep, key, v);
    if keep(s[0]) && key(s[0]) == v {
      k := 0;
    } else {
      var k' := FirstOfFilteredClass(s[1..], keep, key, v);
      NoneBeforeShift(s, keep, key, v, k');
      k := k' + 1;
    }
  }

  /** No element of `s[1..]` before index `k` qualifies, nor does `s[0]`: so
      no element of `s` before index `k + 1` does. */
  lemma NoneBeforeShift<T>(s: seq<T>, keep: T -> bool, key: T -> real, v: real, k: nat)
    requires k < |s| - 1 && !(keep(s[0]) && key(s[0]) == v)
    requires forall j :: 0 <= j < k ==> !(keep(s[1..][j]) && key(s[1..][j]) == v)
    ensures forall j :: 0 <= j < k + 1 ==> !(keep(s[j]) && key(s[j]) == v)
  {
    forall j | 0 < j < k + 1 ensures !(keep(s[j]) && key(s[j]) == v) {
      assert s[j] == s[1..][j - 1];
    }
  }
}
