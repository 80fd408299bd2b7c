/** Small shared vocabulary: optional values, flattening and sums over sequences. */
module Common {

  /** A lookup that may fail: `None` stands for an absent element or a call that raised. */
  datatype Option<+T> = None | Some(value: T)

  /** Concatenation of a sequence of sequences, in order (Python's nested comprehension
      `[x for sub in xss for x in sub]`). */
  function Flatten<T>(xss: seq<seq<T>>): seq<T>
  {
    if xss == [] then [] else xss[0] + Flatten(xss[1..])
  }

  /** Sum of the lengths of the parts. */
  function TotalLength<T>(xss: seq<seq<T>>): nat
  {
    if xss == [] then 0 else |xss[0]| + TotalLength(xss[1..])
  }

  /** Where element `j` of part `i` lands once the parts are flattened. */
  function Offset<T>(xss: seq<seq<T>>, i: nat, j: nat): nat
    requires i <= |xss|
  {
    TotalLength(xss[..i]) + j
  }

  function Min(a: int, b: int): int
  {
    if a <= b then a else b
  }

  function Max(a: int, b: int): int
  {
    if a >= b then a else b
  }

  /** Flattening keeps every element: the length is the sum of the parts' lengths. */
  lemma {:induction false} FlattenLength<T>(xss: seq<seq<T>>)
    ensures |Flatten(xss)| == TotalLength(xss)
  {
    if xss != [] {
      FlattenLength(xss[1..]);
    }
  }

  /** Flattening distributes over concatenation of the outer sequence. */
  lemma {:induction false} FlattenAppend<T>(a: seq<seq<T>>, b: seq<seq<T>>)
    ensures Flatten(a + b) == Flatten(a) + Flatten(b)
  {
    if a == [] {
      assert a + b == b;
    } else {
      assert (a + b)[1..] == a[1..] + b;
      FlattenAppend(a[1..], b);
    }
  }

  /** Element `j` of part `i` sits in the flattened sequence at the offset of part `i`
      plus `j`: flattening keeps the order of the parts and the order inside each part. */
  lemma {:induction false} FlattenAt<T>(xss: seq<seq<T>>, i: nat, j: nat)
    requires i < |xss| && j < |xss[i]|
    ensures Offset(xss, i, j) < |Flatten(xss)|
    ensures Flatten(xss)[Offset(xss, i, j)] == xss[i][j]
  {
    FlattenLength(xss);
    if i == 0 {
      assert xss[..0] == [];
    } else {
      assert xss[1..][..i - 1] == xss[..i][1..];
      FlattenAt(xss[1..], i - 1, j);
    }
  }

  /** Multiset view: appending `ys` to one part adds exactly the elements of `ys` to the
      flattened whole. */
  lemma {:induction false} FlattenMultisetUpdate<T>(xss: seq<seq<T>>, r: nat, ys: seq<T>)
    requires r < |xss|
    ensures multiset(Flatten(xss[r := xss[r] + ys])) == multiset(Flatten(xss)) + multiset(ys)
  {
    if r == 0 {
      assert xss[r := xss[r] + ys][1..] == xss[1..];
    } else {
      assert xss[r := xss[r] + ys][1..] == xss[1..][r - 1 := xss[r] + ys];
      FlattenMultisetUpdate(xss[1..], r - 1, ys);
    }
  }

  /** Appending to one part adds one to the total length. */
  lemma {:induction false} TotalLengthUpdate<T>(xss: seq<seq<T>>, r: nat, x: T)
    requires r < |xss|
    ensures TotalLength(xss[r := xss[r] + [x]]) == TotalLength(xss) + 1
  {
    if r == 0 {
      assert xss[r := xss[r] + [x]][1..] == xss[1..];
    } else {
      assert xss[r := xss[r] + [x]][1..] == xss[1..][r - 1 := xss[r] + [x]];
      TotalLengthUpdate(xss[1..], r - 1, x);
    }
  }
}
