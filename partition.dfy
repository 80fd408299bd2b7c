/** Work splitting: `chunkify(lst, n)` deals the page URLs round-robin over `n` workers. */
module Partition {
  import opened Common

  /** `lst[i::n]` for `n >= 1`: the elements at `i`, `i + n`, `i + 2n`, ... */
  function Stride<T>(lst: seq<T>, i: nat, n: nat): seq<T>
    requires n > 0
    decreases |lst| - i
  {
    if i >= |lst| then [] else [lst[i]] + Stride(lst, i + n, n)
  }

  /** The index in `lst` of element `j` of chunk `i` when dealing over `n` chunks. */
  function Slot(i: nat, j: nat, n: nat): nat
  {
    i + j * n
  }

  /** `[lst[i::n] for i in range(n)]`; no chunk at all when `n` is 0. */
  function Chunkify<T>(lst: seq<T>, n: nat): (chunks: seq<seq<T>>)
    ensures |chunks| == n
  {
    seq(n, i requires 0 <= i < n => Stride(lst, i, n))
  }

  /** Position `j` of the stride from `i` exists exactly when `i + j*n` is an index of
      `lst`, and holds that element. */
  lemma {:induction false} StrideAt<T>(lst: seq<T>, i: nat, n: nat, j: nat)
    requires n > 0
    ensures j < |Stride(lst, i, n)| <==> Slot(i, j, n) < |lst|
    ensures j < |Stride(lst, i, n)| ==> Stride(lst, i, n)[j] == lst[Slot(i, j, n)]
    decreases |lst| - i
  {
    if i < |lst| && j > 0 {
      StrideAt(lst, i + n, n, j - 1);
      assert Slot(i + n, j - 1, n) == Slot(i, j, n);
    }
  }

  /** Euclidean division is unique: `q*n + i` with `0 <= i < n` has quotient `q` and
      remainder `i`. */
  lemma {:induction false} DivModUnique(m: nat, n: nat, q: nat, i: nat)
    requires 0 <= i < n && m == q * n + i
    ensures m / n == q && m % n == i
  {
    var q', i' := m / n, m % n;
    assert m == q' * n + i';
    if q' > q {
      assert (q' - q) * n == q' * n - q * n;
      MulAtLeast(q' - q, n);
    } else if q > q' {
      assert (q - q') * n == q * n - q' * n;
      MulAtLeast(q - q', n);
    }
  }

  /** Euclidean division splits `m` into whole multiples of `n` and a remainder below `n`. */
  lemma {:induction false} DivModSplit(m: nat, n: nat)
    requires n > 0
    ensures m == (m / n) * n + m % n && 0 <= m % n < n
  {
  }

  lemma {:induction false} MulAtLeast(a: nat, n: nat)
    requires a >= 1
    ensures a * n >= n
  {
    assert a * n == (a - 1) * n + n;
  }

  /** Element `k` of `lst` is at position `k div n` of chunk `k mod n`. */
  lemma {:induction false} PlacementAt<T>(lst: seq<T>, n: nat, k: nat)
    requires n > 0 && k < |lst|
    ensures k / n < |Chunkify(lst, n)[k % n]| && Chunkify(lst, n)[k % n][k / n] == lst[k]
  {
    DivModSplit(k, n);
    var i, j := k % n, k / n;
    assert Slot(i, j, n) == k;
    StrideAt(lst, i, n, j);
    assert Chunkify(lst, n)[i] == Stride(lst, i, n);
  }

  /** Chunk `k mod n` holds element `k` of `lst` at position `k div n`, and every element of
      every chunk comes from `lst` that way: a round-robin deal. */
  lemma {:induction false} ChunkifyPlacement<T>(lst: seq<T>, n: nat)
    requires n > 0
    ensures forall k :: 0 <= k < |lst| ==>
      k / n < |Chunkify(lst, n)[k % n]| && Chunkify(lst, n)[k % n][k / n] == lst[k]
    ensures forall i, j :: 0 <= i < n && 0 <= j < |Chunkify(lst, n)[i]| ==>
      Slot(i, j, n) < |lst| && Chunkify(lst, n)[i][j] == lst[Slot(i, j, n)]
  {
    forall k | 0 <= k < |lst|
      ensures k / n < |Chunkify(lst, n)[k % n]| && Chunkify(lst, n)[k % n][k / n] == lst[k]
    {
      PlacementAt(lst, n, k);
    }
    forall i, j | 0 <= i < n && 0 <= j < |Chunkify(lst, n)[i]|
      ensures Slot(i, j, n) < |lst| && Chunkify(lst, n)[i][j] == lst[Slot(i, j, n)]
    {
      assert Chunkify(lst, n)[i] == Stride(lst, i, n);
      StrideAt(lst, i, n, j);
    }
  }

  /** With `1 <= n <= len(lst)` no chunk is empty: chunk `i` holds at least `lst[i]`. */
  lemma {:induction false} ChunksNonEmpty<T>(lst: seq<T>, n: nat)
    requires 1 <= n <= |lst|
    ensures forall i :: 0 <= i < n ==> Chunkify(lst, n)[i] != []
  {
    forall i | 0 <= i < n ensures Chunkify(lst, n)[i] != [] {
      StrideAt(lst, i, n, 0);
    }
  }

  /** Taking `n` away does not change the remainder modulo `n`. */
  lemma {:induction false} ModShift(a: nat, n: nat)
    requires 0 < n <= a
    ensures a % n == (a - n) % n
  {
    DivModSplit(a - n, n);
    var q, r := (a - n) / n, (a - n) % n;
    assert a == (q + 1) * n + r;
    DivModUnique(a, n, q + 1, r);
  }

  /** Appending one element to `lst` appends it to the one stride that reaches its index. */
  lemma {:induction false} StrideAppend<T>(lst: seq<T>, x: T, i: nat, n: nat)
    requires n > 0
    ensures Stride(lst + [x], i, n)
      == Stride(lst, i, n) + (if i <= |lst| && (|lst| - i) % n == 0 then [x] else [])
    decreases |lst| - i
  {
    var ext := lst + [x];
    if i < |lst| {
      StrideAppend(lst, x, i + n, n);
      assert ext[i] == lst[i];
      if i + n <= |lst| {
        ModShift(|lst| - i, n);
      } else {
        DivModUnique(|lst| - i, n, 0, |lst| - i);
      }
    } else if i == |lst| {
      assert ext[i] == x;
      assert Stride(ext, i + n, n) == [];
    }
  }

  /** For `0 <= i < n`, index `len` is reached by the stride from `i` exactly when `i` is
      `len mod n`. */
  lemma {:induction false} StrideReaches(len: nat, n: nat, i: nat)
    requires 0 <= i < n
    ensures (i <= len && (len - i) % n == 0) <==> i == len % n
  {
    if i <= len && (len - i) % n == 0 {
      DivModSplit(len - i, n);
      DivModUnique(len, n, (len - i) / n, i);
    }
    if i == len % n {
      DivModSplit(len, n);
      DivModUnique(len - i, n, len / n, 0);
    }
  }

  /** Chunk `i` after appending `x`: `x` joins it exactly when `i == len(lst) mod n`. */
  lemma {:induction false} ChunkAppendAt<T>(lst: seq<T>, x: T, n: nat, i: nat)
    requires 0 <= i < n
    ensures Chunkify(lst + [x], n)[i]
      == Chunkify(lst, n)[i] + (if i == |lst| % n then [x] else [])
  {
    assert Chunkify(lst + [x], n)[i] == Stride(lst + [x], i, n);
    assert Chunkify(lst, n)[i] == Stride(lst, i, n);
    StrideAppend(lst, x, i, n);
    StrideReaches(|lst|, n, i);
  }

  /** Appending one element to the list appends it to chunk `len(lst) mod n` and leaves the
      other chunks alone. */
  lemma {:induction false} ChunkifyAppend<T>(lst: seq<T>, x: T, n: nat)
    requires n > 0
    ensures var c := Chunkify(lst, n);
      Chunkify(lst + [x], n) == c[|lst| % n := c[|lst| % n] + [x]]
  {
    var c := Chunkify(lst, n);
    var r := |lst| % n;
    var c' := c[r := c[r] + [x]];
    forall i | 0 <= i < n ensures Chunkify(lst + [x], n)[i] == c'[i] {
      ChunkAppendAt(lst, x, n, i);
    }
  }

  /** The chunks together hold every element of `lst` exactly once, so their lengths sum
      to `len(lst)`. */
  lemma {:induction false} ChunkifyPermutation<T>(lst: seq<T>, n: nat)
    requires n > 0
    ensures multiset(Flatten(Chunkify(lst, n))) == multiset(lst)
    ensures TotalLength(Chunkify(lst, n)) == |lst|
    decreases |lst|
  {
    if lst == [] {
      EmptyChunks(Chunkify(lst, n));
    } else {
      var init, x := lst[..|lst| - 1], lst[|lst| - 1];
      assert lst == init + [x];
      ChunkifyPermutation(init, n);
      ChunkifyAppend(init, x, n);
      FlattenMultisetUpdate(Chunkify(init, n), |init| % n, [x]);
      TotalLengthUpdate(Chunkify(init, n), |init| % n, x);
    }
  }

  lemma {:induction false} EmptyChunks<T>(xss: seq<seq<T>>)
    requires forall i :: 0 <= i < |xss| ==> xss[i] == []
    ensures Flatten(xss) == [] && TotalLength(xss) == 0
  {
    if xss != [] {
      EmptyChunks(xss[1..]);
    }
  }
}
