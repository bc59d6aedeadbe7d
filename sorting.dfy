/** Python's `list.sort(key=..., reverse=True)` and `sorted(..., reverse=True)`:
    a stable sort into descending key order. Stability means that elements with
    equal keys keep their relative order, which is what makes the score ordering
    of the scripts deterministic. */
module Sorting {

  /** Keys never increase from left to right. */
  ghost predicate SortedDesc<T>(s: seq<T>, key: T -> real) {
    forall i, j :: 0 <= i < j < |s| ==> key(s[i]) >= key(s[j])
  }

  /** The elements of `s` whose key is `v`, in their order in `s`. */
  function WithKey<T>(s: seq<T>, key: T -> real, v: real): (r: seq<T>)
    ensures |r| <= |s|
    ensures forall y :: y in r ==> y in s && key(y) == v
  {
    if s == [] then []
    else (if key(s[0]) == v then [s[0]] else []) + WithKey(s[1..], key, v)
  }

  /** Places `x` before the first element whose key is not larger than its own. */
  function Insert<T>(x: T, s: seq<T>, key: T -> real): seq<T>
  {
    if s == [] || key(s[0]) <= key(x) then [x] + s
    else [s[0]] + Insert(x, s[1..], key)
  }

  /** Insertion sort; the source's sorts are those of the Python library. */
  function SortDesc<T>(s: seq<T>, key: T -> real): seq<T>
  {
    if s == [] then [] else Insert(s[0], SortDesc(s[1..], key), key)
  }

  lemma {:induction false} InsertMultiset<T>(x: T, s: seq<T>, key: T -> real)
    ensures multiset(Insert(x, s, key)) == multiset(s) + multiset{x}
    ensures |Insert(x, s, key)| == |s| + 1
  {
    if s != [] && key(s[0]) > key(x) {
      InsertMultiset(x, s[1..], key);
      assert s == [s[0]] + s[1..];
    }
  }

  lemma {:induction false} InsertSorted<T>(x: T, s: seq<T>, key: T -> real)
    requires SortedDesc(s, key)
    ensures SortedDesc(Insert(x, s, key), key)
  {
    if s != [] && key(s[0]) > key(x) {
      assert SortedDesc(s[1..], key);
      InsertSorted(x, s[1..], key);
      InsertMultiset(x, s[1..], key);
      var t := Insert(x, s[1..], key);
      var r := [s[0]] + t;
      forall i, j | 0 <= i < j < |r| ensures key(r[i]) >= key(r[j]) {
        if i == 0 {
          assert r[j] == t[j - 1];
          assert t[j - 1] in multiset(t);
          assert r[j] == x || r[j] in multiset(s[1..]);
          if r[j] != x {
            var k :| 0 <= k < |s[1..]| && s[1..][k] == r[j];
            assert s[k + 1] == r[j];
          }
        }
      }
    }
  }

  lemma {:induction false} InsertWithKey<T>(x: T, s: seq<T>, key: T -> real, v: real)
    ensures WithKey(Insert(x, s, key), key, v)
      == (if key(x) == v then [x] else []) + WithKey(s, key, v)
  {
    var here := if key(x) == v then [x] else [];
    if s == [] || key(s[0]) <= key(x) {
      assert ([x] + s)[1..] == s;
      assert WithKey([x] + s, key, v) == here + WithKey(s, key, v);
    } else {
      var t := Insert(x, s[1..], key);
      var first := if key(s[0]) == v then [s[0]] else [];
      var rest := WithKey(s[1..], key, v);
      assert WithKey(t, key, v) == here + rest by {
        InsertWithKey(x, s[1..], key, v);
      }
      assert WithKey([s[0]] + t, key, v) == first + WithKey(t, key, v) by {
        assert ([s[0]] + t)[1..] == t;
      }
      assert WithKey(s, key, v) == first + rest;
      assert first == [] || here == [];
      assert first + (here + rest) == here + (first + rest);
    }
  }

  lemma {:induction false} SortDescSorted<T>(s: seq<T>, key: T -> real)
    ensures SortedDesc(SortDesc(s, key), key)
  {
    if s != [] {
      SortDescSorted(s[1..], key);
      InsertSorted(s[0], SortDesc(s[1..], key), key);
    }
  }

  lemma {:induction false} SortDescPermutation<T>(s: seq<T>, key: T -> real)
    ensures multiset(SortDesc(s, key)) == multiset(s)
    ensures |SortDesc(s, key)| == |s|
  {
    if s != [] {
      SortDescPermutation(s[1..], key);
      InsertMultiset(s[0], SortDesc(s[1..], key), key);
      assert s == [s[0]] + s[1..];
    }
  }

  lemma {:induction false} SortDescStable<T>(s: seq<T>, key: T -> real, v: real)
    ensures WithKey(SortDesc(s, key), key, v) == WithKey(s, key, v)
  {
    if s != [] {
      SortDescStable(s[1..], key, v);
      InsertWithKey(s[0], SortDesc(s[1..], key), key, v);
    }
  }

  /** The sort yields a descending permutation of its input that keeps the
      input order among equal keys. */
  lemma SortDescCorrect<T>(s: seq<T>, key: T -> real)
    ensures SortedDesc(SortDesc(s, key), key)
    ensures multiset(SortDesc(s, key)) == multiset(s)
    ensures |SortDesc(s, key)| == |s|
    ensures forall v :: WithKey(SortDesc(s, key), key, v) == WithKey(s, key, v)
  {
    SortDescSorted(s, key);
    SortDescPermutation(s, key);
    forall v ensures WithKey(SortDesc(s, key), key, v) == WithKey(s, key, v) {
      SortDescStable(s, key, v);
    }
  }

  /** A descending, stable permutation is unique: any two sequences that agree
      on every key class and are both sorted are equal. This is why the score
      order is fully determined by the inputs. */
  lemma {:induction false} SortedStableUnique<T>(a: seq<T>, b: seq<T>, key: T -> real)
    requires SortedDesc(a, key) && SortedDesc(b, key)
    requires forall v :: WithKey(a, key, v) == WithKey(b, key, v)
    ensures a == b
    decreases |a|
  {
    if a == [] || b == [] {
      if a != [] { WithKeyHead(a, key); }
      if b != [] { WithKeyHead(b, key); }
    } else {
      assert a[0] == b[0] by {
        HeadsEqual(a, b, key);
      }
      assert a[1..] == b[1..] by {
        TailsAgree(a, b, key);
        assert SortedDesc(a[1..], key) && SortedDesc(b[1..], key);
        SortedStableUnique(a[1..], b[1..], key);
      }
      assert a == [a[0]] + a[1..] && b == [b[0]] + b[1..];
    }
  }

  lemma WithKeyHead<T>(s: seq<T>, key: T -> real)
    requires s != []
    ensures WithKey(s, key, key(s[0])) == [s[0]] + WithKey(s[1..], key, key(s[0]))
  {
  }

  lemma {:induction false} HeadsEqual<T>(a: seq<T>, b: seq<T>, key: T -> real)
    requires a != [] && b != []
    requires SortedDesc(a, key) && SortedDesc(b, key)
    requires forall v :: WithKey(a, key, v) == WithKey(b, key, v)
    ensures a[0] == b[0]
  {
    var ka, kb := key(a[0]), key(b[0]);
    WithKeyHead(a, key);
    WithKeyHead(b, key);
    if ka > kb {
      WithKeyBelow(b, key, ka);
    } else if ka < kb {
      WithKeyBelow(a, key, kb);
    } else {
      assert WithKey(a, key, ka) == WithKey(b, key, ka);
      assert WithKey(a, key, ka)[0] == a[0];
    }
  }

  lemma TailsAgree<T>(a: seq<T>, b: seq<T>, key: T -> real)
    requires a != [] && b != [] && a[0] == b[0]
    requires forall v :: WithKey(a, key, v) == WithKey(b, key, v)
    ensures forall v :: WithKey(a[1..], key, v) == WithKey(b[1..], key, v)
  {
    forall v ensures WithKey(a[1..], key, v) == WithKey(b[1..], key, v) {
      var pre := if key(a[0]) == v then [a[0]] else [];
      assert WithKey(a, key, v) == pre + WithKey(a[1..], key, v);
      assert WithKey(b, key, v) == pre + WithKey(b[1..], key, v);
      assert (pre + WithKey(a[1..], key, v))[|pre|..] == WithKey(a[1..], key, v);
      assert (pre + WithKey(b[1..], key, v))[|pre|..] == WithKey(b[1..], key, v);
    }
  }

  /** In a descending sequence whose head has a key below `v`, nothing has key `v`. */
  lemma {:induction false} WithKeyBelow<T>(s: seq<T>, key: T -> real, v: real)
    requires s != [] && SortedDesc(s, key) && key(s[0]) < v
    ensures WithKey(s, key, v) == []
    decreases |s|
  {
    if |s| > 1 {
      assert key(s[1]) <= key(s[0]);
      assert SortedDesc(s[1..], key);
      WithKeyBelow(s[1..], key, v);
    }
  }

  lemma AppendAssoc<T>(a: seq<T>, b: seq<T>, c: seq<T>)
    ensures (a + b) + c == a + (b + c)
  {
  }

  /** The elements of `s` that satisfy `p`, in order (a list comprehension with
      an `if`). */
  function Filter<T>(s: seq<T>, p: T -> bool): (r: seq<T>)
    ensures |r| <= |s|
  {
    if s == [] then []
    else (if p(s[0]) then [s[0]] else []) + Filter(s[1..], p)
  }

  /** The filter keeps exactly the elements that satisfy the predicate. */
  lemma {:induction false} FilterMembers<T>(s: seq<T>, p: T -> bool)
    ensures forall y :: y in Filter(s, p) <==> y in s && p(y)
  {
    if s != [] {
      FilterMembers(s[1..], p);
      assert s == [s[0]] + s[1..];
    }
  }

  lemma {:induction false} FilterAppend<T>(a: seq<T>, b: seq<T>, p: T -> bool)
    ensures Filter(a + b, p) == Filter(a, p) + Filter(b, p)
  {
    if a != [] {
      var pre := if p(a[0]) then [a[0]] else [];
      assert (a + b)[1..] == a[1..] + b;
      assert (a + b)[0] == a[0];
      FilterAppend(a[1..], b, p);
      calc {
        Filter(a + b, p);
        pre + Filter(a[1..] + b, p);
        pre + (Filter(a[1..], p) + Filter(b, p));
        (pre + Filter(a[1..], p)) + Filter(b, p);
        Filter(a, p) + Filter(b, p);
      }
    } else {
      assert a + b == b;
    }
  }

  /** A filter and its complement split a sequence's length. */
  lemma {:induction false} FilterComplementLength<T>(s: seq<T>, p: T -> bool)
    ensures |Filter(s, p)| + |Filter(s, y => !p(y))| == |s|
  {
    if s != [] {
      FilterComplementLength(s[1..], p);
    }
  }

  /** Filtering by two predicates that never both hold gives, together, what
      filtering by their disjunction gives. */
  lemma {:induction false} FilterUnion<T>(s: seq<T>, p: T -> bool, q: T -> bool, r: T -> bool)
    requires forall x :: !(p(x) && q(x)) && r(x) == (p(x) || q(x))
    ensures multiset(Filter(s, p)) + multiset(Filter(s, q)) == multiset(Filter(s, r))
    ensures |Filter(s, p)| + |Filter(s, q)| == |Filter(s, r)|
  {
    if s != [] {
      FilterUnion(s[1..], p, q, r);
    }
  }

  /** A filter that accepts every element keeps the sequence. */
  lemma {:induction false} FilterAll<T>(s: seq<T>, p: T -> bool)
    requires forall k :: 0 <= k < |s| ==> p(s[k])
    ensures Filter(s, p) == s
  {
    if s != [] {
      assert Filter(s, p) == [s[0]] + Filter(s[1..], p) by {
        assert p(s[0]);
      }
      assert forall k :: 0 <= k < |s[1..]| ==> s[1..][k] == s[k + 1];
      FilterAll(s[1..], p);
      assert s == [s[0]] + s[1..];
    }
  }

  /** A filter that rejects every element is empty. */
  lemma {:induction false} FilterNone<T>(s: seq<T>, p: T -> bool)
    requires forall k :: 0 <= k < |s| ==> !p(s[k])
    ensures Filter(s, p) == []
  {
    if s != [] {
      assert !p(s[0]);
      assert forall k :: 0 <= k < |s[1..]| ==> s[1..][k] == s[k + 1];
      FilterNone(s[1..], p);
    }
  }

  /** A filter that rejects some element is strictly shorter than its input. */
  lemma {:induction false} FilterMissesOne<T>(s: seq<T>, p: T -> bool, i: nat)
    requires i < |s| && !p(s[i])
    ensures |Filter(s, p)| < |s|
  {
    if i == 0 {
      assert |Filter(s[1..], p)| <= |s[1..]|;
    } else {
      FilterMissesOne(s[1..], p, i - 1);
    }
  }
}
