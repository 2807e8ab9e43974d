/** Small value-level building blocks shared by the scene-graph caption model:
    failure-carrying results, sums, index gathers, and the stable descending
    sort that both the frequency re-ranking and the beam ranking rely on. */
module Common {

  datatype Option<T> = None | Some(value: T)

  datatype Result<T, E> = Ok(value: T) | Err(error: E)

  /** Sum of a sequence of counts. */
  function Sum(s: seq<nat>): nat
  {
    if s == [] then 0 else Sum(s[..|s| - 1]) + s[|s| - 1]
  }

  lemma {:induction false} SumAppend(s: seq<nat>, x: nat)
    ensures Sum(s + [x]) == Sum(s) + x
  {
    assert (s + [x])[..|s + [x]| - 1] == s;
  }

  /** Sum of the elements of a real vector (a column of a tensor). */
  function SumReal(s: seq<real>): real
  {
    if s == [] then 0.0 else SumReal(s[..|s| - 1]) + s[|s| - 1]
  }

  /** `xs[idx]` for an index tensor `idx`: one gathered element per index. */
  function Gather<T>(xs: seq<T>, idx: seq<nat>): (r: seq<T>)
    requires forall k :: 0 <= k < |idx| ==> idx[k] < |xs|
    ensures |r| == |idx|
    ensures forall k :: 0 <= k < |idx| ==> r[k] == xs[idx[k]]
  {
    seq(|idx|, k requires 0 <= k < |idx| => xs[idx[k]])
  }

  /** The indices 0 .. n-1 in increasing order (numpy's arange). */
  function Range(n: nat): (r: seq<nat>)
    ensures |r| == n
    ensures forall i :: 0 <= i < n ==> r[i] == i
  {
    seq(n, i => i)
  }

  /** `order` lists every index below n exactly once. */
  predicate IsPermutation(order: seq<nat>, n: nat)
  {
    |order| == n &&
    (forall i :: 0 <= i < |order| ==> order[i] < n) &&
    (forall i, j :: 0 <= i < j < |order| ==> order[i] != order[j])
  }

  /** Elements of `s` in non-increasing `key` order. */
  predicate SortedDesc<T>(s: seq<T>, key: T -> real)
  {
    forall i, j :: 0 <= i < j < |s| ==> key(s[i]) >= key(s[j])
  }

  /** Inserts `x` into the non-increasing `s` in front of the first element whose
      key is not larger than x's, so that x stays ahead of every element with an
      equal key: this is what makes `SortDesc` stable. */
  function Insert<T>(x: T, s: seq<T>, key: T -> real): (r: seq<T>)
    requires SortedDesc(s, key)
    ensures |r| == |s| + 1
    ensures multiset(r) == multiset(s) + multiset{x}
    ensures SortedDesc(r, key)
    decreases |s|
  {
    if s == [] || key(s[0]) <= key(x) then [x] + s
    else
      var rest := Insert(x, s[1..], key);
      assert s == [s[0]] + s[1..];
      HeadDominates(s, x, rest, key);
      [s[0]] + rest
  }

  /** The head of a descending sequence is at least every element of the rest
      with x inserted, when it is at least x. */
  lemma HeadDominates<T>(s: seq<T>, x: T, rest: seq<T>, key: T -> real)
    requires s != [] && SortedDesc(s, key) && key(s[0]) >= key(x)
    requires multiset(rest) == multiset(s[1..]) + multiset{x}
    ensures forall k :: 0 <= k < |rest| ==> key(s[0]) >= key(rest[k])
  {
    forall k | 0 <= k < |rest| ensures key(s[0]) >= key(rest[k]) {
      assert rest[k] in multiset(rest);
      if rest[k] != x {
        assert rest[k] in s[1..];
      }
    }
  }

  /** The elements of `s` whose key is `v`, in their order in `s`. */
  function WithKey<T>(s: seq<T>, key: T -> real, v: real): (r: seq<T>)
    ensures |r| <= |s|
    ensures forall x :: x in r ==> x in s && key(x) == v
  {
    if s == [] then []
    else (if key(s[0]) == v then [s[0]] else []) + WithKey(s[1..], key, v)
  }

  /** Inserting `x` puts it ahead of every element with its key and leaves the
      order of each key's elements otherwise unchanged. */
  lemma {:induction false} InsertWithKey<T>(x: T, s: seq<T>, key: T -> real)
    requires SortedDesc(s, key)
    ensures forall v :: WithKey(Insert(x, s, key), key, v) ==
                        (if key(x) == v then [x] else []) + WithKey(s, key, v)
    decreases |s|
  {
    var r := Insert(x, s, key);
    if s == [] || key(s[0]) <= key(x) {
      assert r[1..] == s;
    } else {
      var rest := Insert(x, s[1..], key);
      assert r == [s[0]] + rest && r[1..] == rest;
      InsertWithKey(x, s[1..], key);
    }
  }

  /** A prefix keeps a prefix of each key's elements. */
  lemma {:induction false} WithKeyPrefix<T>(s: seq<T>, m: nat, key: T -> real)
    requires m <= |s|
    ensures forall v :: WithKey(s[..m], key, v) <= WithKey(s, key, v)
    decreases m
  {
    if m > 0 {
      assert s[..m][1..] == s[1..][..m - 1];
      WithKeyPrefix(s[1..], m - 1, key);
    }
  }

  /** A prefix keeps some of the elements, the order of each key's elements,
      and a descending order. */
  lemma PrefixKeeps<T>(s: seq<T>, m: nat, key: T -> real)
    requires m <= |s|
    ensures multiset(s[..m]) <= multiset(s)
    ensures forall v :: WithKey(s[..m], key, v) <= WithKey(s, key, v)
    ensures SortedDesc(s, key) ==> SortedDesc(s[..m], key)
  {
    assert s == s[..m] + s[m..];
    WithKeyPrefix(s, m, key);
  }

  /** Stable sort by descending key, as Python's `sorted(xs, key=lambda v: -k(v))`:
      a permutation of the input whose keys never increase; elements with equal
      keys keep their input order. */
  function SortDesc<T>(s: seq<T>, key: T -> real): (r: seq<T>)
    ensures |r| == |s|
    ensures multiset(r) == multiset(s)
    ensures SortedDesc(r, key)
    ensures forall v :: WithKey(r, key, v) == WithKey(s, key, v)
    decreases |s|
  {
    if s == [] then []
    else
      assert s == [s[0]] + s[1..];
      var rest := SortDesc(s[1..], key);
      InsertWithKey(s[0], rest, key);
      Insert(s[0], rest, key)
  }

  /** The first element of `s` with the highest key (see `MaxFirstIsFirstMax`). */
  function MaxFirst<T>(s: seq<T>, key: T -> real): (m: T)
    requires s != []
    ensures m in s
    decreases |s|
  {
    if |s| == 1 then s[0]
    else
      var m := MaxFirst(s[1..], key);
      if key(m) <= key(s[0]) then s[0] else m
  }

  /** No element has a higher key than `MaxFirst`, and every element ahead of
      its position `i` has a lower one. */
  lemma {:induction false} MaxFirstIsFirstMax<T>(s: seq<T>, key: T -> real) returns (i: nat)
    requires s != []
    ensures forall x :: x in s ==> key(x) <= key(MaxFirst(s, key))
    ensures i < |s| && s[i] == MaxFirst(s, key)
    ensures forall j :: 0 <= j < i ==> key(s[j]) < key(MaxFirst(s, key))
    decreases |s|
  {
    var m := MaxFirst(s, key);
    if |s| == 1 {
      i := 0;
    } else {
      assert s == [s[0]] + s[1..];
      var i' := MaxFirstIsFirstMax(s[1..], key);
      var m' := MaxFirst(s[1..], key);
      if key(m') <= key(s[0]) {
        i := 0;
        forall x | x in s ensures key(x) <= key(m) {
          if x != s[0] {
            assert x in s[1..];
          }
        }
      } else {
        i := i' + 1;
        assert forall j :: 0 < j < i ==> s[j] == s[1..][j - 1];
      }
    }
  }

  /** The head of the stable descending sort is the first element with the
      highest key. */
  lemma {:induction false} SortDescHead<T>(s: seq<T>, key: T -> real)
    requires s != []
    ensures SortDesc(s, key)[0] == MaxFirst(s, key)
    decreases |s|
  {
    if |s| > 1 {
      SortDescHead(s[1..], key);
    }
  }

  /** `order` is a valid result of a descending argsort of `keys`: a permutation of
      the indices whose keys never increase. Ties may appear in any order. */
  predicate IsDescendingOrder(order: seq<nat>, keys: seq<real>)
  {
    IsPermutation(order, |keys|) &&
    forall i, j :: 0 <= i < j < |order| ==> keys[order[i]] >= keys[order[j]]
  }

  lemma {:induction false} RangeCount(n: nat, x: nat)
    ensures multiset(Range(n))[x] == if x < n then 1 else 0
  {
    if n > 0 {
      RangeCount(n - 1, x);
      assert Range(n) == Range(n - 1) + [n - 1];
    }
  }

  /** A sequence with the same elements as `Range(n)` lists each index once. */
  lemma MultisetRangeIsPermutation(order: seq<nat>, n: nat)
    requires multiset(order) == multiset(Range(n))
    ensures IsPermutation(order, n)
  {
    assert |order| == n by {
      assert |multiset(order)| == |order|;
    }
    forall i | 0 <= i < |order| ensures order[i] < n {
      assert order[i] in multiset(order);
      RangeCount(n, order[i]);
    }
    forall i, j | 0 <= i < j < |order| ensures order[i] != order[j] {
      if order[i] == order[j] {
        var x := order[i];
        assert order == order[..j] + [order[j]] + order[j + 1..];
        assert x in multiset(order[..j]);
        assert multiset(order)[x] == multiset(order[..j])[x] + 1 + multiset(order[j + 1..])[x];
        RangeCount(n, x);
        assert false;
      }
    }
  }

  /** Key of index i in `keys`; indices outside the sequence never occur in a sort of
      `Range(|keys|)` but the key function must be total. */
  function KeyAt(keys: seq<real>): nat -> real
  {
    (i: nat) => if i < |keys| then keys[i] else 0.0
  }

  /** Descending argsort (`np.argsort(-keys)`, `torch.sort(..., descending=True)`),
      computed by the stable sort of the index range. */
  function ArgsortDesc(keys: seq<real>): (order: seq<nat>)
    ensures IsDescendingOrder(order, keys)
  {
    var order := SortDesc(Range(|keys|), KeyAt(keys));
    MultisetRangeIsPermutation(order, |keys|);
    order
  }

  /** A row of a feature tensor; a tensor is a sequence of rows. */
  type Row = seq<real>

  predicate Width(m: seq<Row>, w: nat)
  {
    forall i :: 0 <= i < |m| ==> |m[i]| == w
  }

  function MapRows(f: Row -> Row, m: seq<Row>): (r: seq<Row>)
    ensures |r| == |m|
    ensures forall i :: 0 <= i < |m| ==> r[i] == f(m[i])
  {
    seq(|m|, i requires 0 <= i < |m| => f(m[i]))
  }

  /** The rows of a two-dimensional array. */
  function ToRows(m: array2<real>): (rows: seq<Row>)
    reads m
    ensures |rows| == m.Length0 && Width(rows, m.Length1)
  {
    seq(m.Length0, o reads m requires 0 <= o < m.Length0 =>
      seq(m.Length1, r reads m requires 0 <= r < m.Length1 => m[o, r]))
  }
}
