/** The registry sorts twice, with the same in-place insertion sort over two keys
    (a call's channels by CreatedAt, a snapshot's calls by StartedAt).  The sort is
    specified by what it keeps: for every key value, the elements with that key, in order. */
module StableSort {

  /** The elements of s whose key is k, in their order in s. */
  function WithKey<T>(s: seq<T>, key: T -> int, k: int): seq<T> {
    if s == [] then []
    else if key(s[0]) == k then [s[0]] + WithKey(s[1..], key, k)
    else WithKey(s[1..], key, k)
  }

  ghost predicate Sorted<T>(s: seq<T>, key: T -> int) {
    forall i, j :: 0 <= i < j < |s| ==> key(s[i]) <= key(s[j])
  }

  ghost predicate SameByKey<T>(s: seq<T>, t: seq<T>, key: T -> int) {
    forall k :: WithKey(s, key, k) == WithKey(t, key, k)
  }

  ghost predicate StablySorted<T>(out: seq<T>, input: seq<T>, key: T -> int) {
    Sorted(out, key) && SameByKey(out, input, key)
  }

  lemma {:induction false} WithKeyConcat<T>(s: seq<T>, t: seq<T>, key: T -> int, k: int)
    ensures WithKey(s + t, key, k) == WithKey(s, key, k) + WithKey(t, key, k)
  {
    if s == [] {
      assert s + t == t;
    } else {
      assert (s + t)[1..] == s[1..] + t && (s + t)[0] == s[0];
      WithKeyConcat(s[1..], t, key, k);
    }
  }

  /** A key occurs in s exactly if its elements are not none. */
  lemma {:induction false} WithKeyNonEmpty<T>(s: seq<T>, key: T -> int, k: int)
    ensures WithKey(s, key, k) != [] <==> exists i :: 0 <= i < |s| && key(s[i]) == k
  {
    if s == [] {
    } else {
      WithKeyNonEmpty(s[1..], key, k);
      if i :| 0 <= i < |s[1..]| && key(s[1..][i]) == k {
        assert key(s[i + 1]) == k;
      }
      if i :| 0 <= i < |s| && key(s[i]) == k {
        assert i > 0 ==> s[i] == s[1..][i - 1];
      }
    }
  }

  lemma SameByKeyHead<T>(s: seq<T>, t: seq<T>, key: T -> int)
    requires StablySorted(s, t, key) && Sorted(t, key) && s != []
    ensures t != [] && s[0] == t[0] && SameByKey(s[1..], t[1..], key)
  {
    WithKeyNonEmpty(s, key, key(s[0]));
    WithKeyNonEmpty(t, key, key(s[0]));
    WithKeyNonEmpty(s, key, key(t[0]));
    WithKeyNonEmpty(t, key, key(t[0]));
    assert key(s[0]) == key(t[0]);
    assert WithKey(s, key, key(s[0]))[0] == s[0];
    assert WithKey(t, key, key(t[0]))[0] == t[0];
    forall k
      ensures WithKey(s[1..], key, k) == WithKey(t[1..], key, k)
    {
      var head := if k == key(s[0]) then [s[0]] else [];
      assert WithKey(s, key, k) == head + WithKey(s[1..], key, k);
      assert WithKey(t, key, k) == head + WithKey(t[1..], key, k);
      assert WithKey(s[1..], key, k) == WithKey(s, key, k)[|head|..];
      assert WithKey(t[1..], key, k) == WithKey(t, key, k)[|head|..];
    }
  }

  lemma {:induction false} SortedSameIsEqual<T>(s: seq<T>, t: seq<T>, key: T -> int)
    requires Sorted(s, key) && Sorted(t, key) && SameByKey(s, t, key)
    ensures s == t
  {
    if s == [] {
      if t != [] {
        SameByKeyHead(t, s, key);
      }
    } else {
      SameByKeyHead(s, t, key);
      SortedSameIsEqual(s[1..], t[1..], key);
      assert s == [s[0]] + s[1..];
      assert t == [t[0]] + t[1..];
    }
  }

  /** There is only one stably sorted version of a sequence. */
  lemma {:induction false} StablySortedUnique<T>(s: seq<T>, t: seq<T>, input: seq<T>, key: T -> int)
    requires StablySorted(s, input, key) && StablySorted(t, input, key)
    ensures s == t
  {
    SortedSameIsEqual(s, t, key);
  }

  lemma {:induction false} WithKeyMultiplicity<T>(s: seq<T>, key: T -> int, x: T)
    ensures multiset(s)[x] == multiset(WithKey(s, key, key(x)))[x]
  {
    if s == [] {
    } else {
      assert s == [s[0]] + s[1..];
      WithKeyMultiplicity(s[1..], key, x);
    }
  }

  /** A stable sort loses and invents nothing. */
  lemma {:induction false} SameByKeyIsPermutation<T>(s: seq<T>, t: seq<T>, key: T -> int)
    requires SameByKey(s, t, key)
    ensures multiset(s) == multiset(t)
  {
    forall x
      ensures multiset(s)[x] == multiset(t)[x]
    {
      WithKeyMultiplicity(s, key, x);
      WithKeyMultiplicity(t, key, x);
      assert WithKey(s, key, key(x)) == WithKey(t, key, key(x));
    }
  }

  function Insert<T>(x: T, s: seq<T>, key: T -> int): seq<T> {
    if s == [] || key(x) < key(s[0]) then [x] + s else [s[0]] + Insert(x, s[1..], key)
  }

  /** The stably sorted version of a sequence. */
  function Sort<T>(s: seq<T>, key: T -> int): seq<T> {
    if s == [] then [] else Insert(s[|s| - 1], Sort(s[..|s| - 1], key), key)
  }

  lemma {:induction false} InsertAtLeast<T>(x: T, s: seq<T>, key: T -> int, low: int)
    requires low <= key(x) && forall i :: 0 <= i < |s| ==> low <= key(s[i])
    ensures forall i :: 0 <= i < |Insert(x, s, key)| ==> low <= key(Insert(x, s, key)[i])
  {
    if s == [] {
    } else {
      InsertAtLeast(x, s[1..], key, low);
    }
  }

  lemma {:induction false} InsertKeeps<T>(x: T, s: seq<T>, key: T -> int)
    requires Sorted(s, key)
    ensures StablySorted(Insert(x, s, key), s + [x], key)
  {
    if s == [] || key(x) < key(s[0]) {
      forall k
        ensures WithKey([x] + s, key, k) == WithKey(s + [x], key, k)
      {
        WithKeyConcat([x], s, key, k);
        WithKeyConcat(s, [x], key, k);
        if k == key(x) {
          WithKeyNonEmpty(s, key, k);
        }
      }
    } else {
      assert s == [s[0]] + s[1..];
      InsertKeeps(x, s[1..], key);
      var r := Insert(x, s[1..], key);
      InsertAtLeast(x, s[1..], key, key(s[0]));
      assert Sorted([s[0]] + r, key);
      assert (s + [x])[1..] == s[1..] + [x];
      forall k
        ensures WithKey([s[0]] + r, key, k) == WithKey(s + [x], key, k)
      {
        assert ([s[0]] + r)[1..] == r;
        assert WithKey(r, key, k) == WithKey(s[1..] + [x], key, k);
      }
    }
  }

  lemma {:induction false} SortIsStable<T>(s: seq<T>, key: T -> int)
    ensures StablySorted(Sort(s, key), s, key)
    ensures multiset(Sort(s, key)) == multiset(s)
  {
    if s == [] {
    } else {
      var n := |s| - 1;
      SortIsStable(s[..n], key);
      InsertKeeps(s[n], Sort(s[..n], key), key);
      assert s == s[..n] + [s[n]];
      forall k
        ensures WithKey(Sort(s, key), key, k) == WithKey(s, key, k)
      {
        WithKeyConcat(s[..n], [s[n]], key, k);
        WithKeyConcat(Sort(s[..n], key), [s[n]], key, k);
        assert WithKey(Sort(s, key), key, k) == WithKey(Sort(s[..n], key) + [s[n]], key, k);
        assert WithKey(Sort(s[..n], key), key, k) == WithKey(s[..n], key, k);
      }
    }
    SameByKeyIsPermutation(Sort(s, key), s, key);
  }

  /** Swapping two neighbours with different keys moves nothing within a key. */
  lemma SwapKeepsKeys<T>(s: seq<T>, t: seq<T>, j: nat, key: T -> int)
    requires 0 < j < |s| && key(s[j]) != key(s[j - 1])
    requires t == s[j := s[j - 1]][j - 1 := s[j]]
    ensures SameByKey(t, s, key)
  {
    var a, b, c, d := s[..j - 1], s[j - 1], s[j], s[j + 1..];
    assert s == a + [b] + [c] + d;
    assert t == a + [c] + [b] + d;
    forall k
      ensures WithKey(t, key, k) == WithKey(s, key, k)
    {
      WithKeyConcat(a + [b] + [c], d, key, k);
      WithKeyConcat(a + [b], [c], key, k);
      WithKeyConcat(a, [b], key, k);
      WithKeyConcat(a + [c] + [b], d, key, k);
      WithKeyConcat(a + [c], [b], key, k);
      WithKeyConcat(a, [c], key, k);
      assert WithKey([b], key, k) == [] || WithKey([c], key, k) == [];
    }
  }

  /** In-place insertion sort by strictly-smaller neighbour swaps. */
  method InsertionSort<T>(a: array<T>, key: T -> int)
    modifies a
    ensures StablySorted(a[..], old(a[..]), key)
    ensures a[..] == Sort(old(a[..]), key)
  {
    var i := 1;
    while i < a.Length
      invariant 1 <= i
      invariant forall p, q :: 0 <= p < q < i && q < a.Length ==> key(a[p]) <= key(a[q])
      invariant SameByKey(a[..], old(a[..]), key)
    {
      var j := i;
      while j > 0 && key(a[j]) < key(a[j - 1])
        invariant 0 <= j <= i
        invariant forall p, q :: 0 <= p < q <= i && q != j ==> key(a[p]) <= key(a[q])
        invariant SameByKey(a[..], old(a[..]), key)
      {
        ghost var before := a[..];
        a[j], a[j - 1] := a[j - 1], a[j];
        SwapKeepsKeys(before, a[..], j, key);
        j := j - 1;
      }
      i := i + 1;
    }
    SortIsStable(old(a[..]), key);
    StablySortedUnique(a[..], Sort(old(a[..]), key), old(a[..]), key);
  }

  /** Sorts a freshly made slice. */
  method SortedCopy<T>(s: seq<T>, key: T -> int) returns (out: seq<T>)
    ensures out == Sort(s, key) && StablySorted(out, s, key) && multiset(out) == multiset(s)
  {
    var a := new T[|s|](k requires 0 <= k < |s| => s[k]);
    assert a[..] == s;
    InsertionSort(a, key);
    SortIsStable(s, key);
    out := a[..];
  }
}
