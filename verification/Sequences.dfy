/** Slices of concatenations. */
module Sequences {

  lemma Associative<T>(x: seq<T>, y: seq<T>, z: seq<T>)
    ensures x + (y + z) == x + y + z
  {}

  lemma Cut<T>(x: seq<T>, y: seq<T>)
    ensures (x + y)[..|x|] == x && (x + y)[|x|..] == y
  {}

  lemma SuffixAppend<T>(x: seq<T>, y: seq<T>, i: nat)
    requires i <= |x|
    ensures (x + y)[i..] == x[i..] + y
  {}

  lemma PrefixAppend<T>(x: seq<T>, y: seq<T>, n: nat)
    requires n <= |x|
    ensures (x + y)[..n] == x[..n]
  {}

  lemma SliceAppend<T>(x: seq<T>, y: seq<T>, i: nat, j: nat)
    requires i <= j <= |x|
    ensures (x + y)[i..j] == x[i..j]
  {}

  lemma SliceBehind<T>(x: seq<T>, y: seq<T>, i: nat, j: nat)
    requires i <= j <= |y|
    ensures (x + y)[|x| + i..|x| + j] == y[i..j]
  {}

  lemma SliceInSuffix<T>(x: seq<T>, n: nat, i: nat, j: nat)
    requires i <= j && n + j <= |x|
    ensures x[n..][i..j] == x[n + i..n + j]
  {}

  lemma SliceOfSuffix<T>(x: seq<T>, i: nat, n: nat)
    requires i + n <= |x|
    ensures x[i..][..n] == x[i..i + n]
  {}

  lemma SuffixOfSuffix<T>(x: seq<T>, i: nat, n: nat)
    requires i + n <= |x|
    ensures x[i..][n..] == x[i + n..]
  {}

  lemma UpdateLeft<T>(x: seq<T>, y: seq<T>, k: nat, v: T)
    requires k < |x|
    ensures (x + y)[k := v] == x[k := v] + y
  {}

  lemma UpdateRight<T>(x: seq<T>, y: seq<T>, k: nat, v: T)
    requires k < |y|
    ensures (x + y)[|x| + k := v] == x + y[k := v]
  {}

  lemma SplitSuffix<T>(x: seq<T>, i: nat, n: nat)
    requires i + n <= |x|
    ensures x[i..] == x[i..i + n] + x[i + n..]
  {}

  lemma SplitHead<T>(x: seq<T>, n: nat)
    requires n < |x|
    ensures x == [x[0]] + x[1..][..n] + x[1..][n..]
  {}

  lemma SplitThree<T>(x: seq<T>, i: nat, j: nat)
    requires i <= j <= |x|
    ensures x == x[..i] + x[i..j] + x[j..]
  {}

  lemma SuffixOfAppended<T>(x: seq<T>, v: T, i: nat)
    requires i <= |x|
    ensures (x + [v])[i..] == x[i..] + [v]
  {}

  lemma SliceOfPrefix<T>(x: seq<T>, n: nat, a: nat, b: nat)
    requires a <= b <= n <= |x|
    ensures x[..n][a..b] == x[a..b]
  {}

  lemma GrowSlice<T>(x: seq<T>, a: nat, b: nat)
    requires a <= b < |x|
    ensures x[a..b + 1] == x[a..b] + [x[b]]
  {}

  /** All chunks one behind the other. */
  function Flatten<T>(chunks: seq<seq<T>>): seq<T> {
    if chunks == [] then [] else chunks[0] + Flatten(chunks[1..])
  }

  lemma {:induction false} FlattenAppend<T>(a: seq<seq<T>>, b: seq<seq<T>>)
    ensures Flatten(a + b) == Flatten(a) + Flatten(b)
  {
    if a == [] {
      assert a + b == b;
    } else {
      FlattenAppend(a[1..], b);
      SuffixAppend(a, b, 1);
      Associative(a[0], Flatten(a[1..]), Flatten(b));
    }
  }

  lemma FlattenOne<T>(chunk: seq<T>)
    ensures Flatten([chunk]) == chunk
  {}

  lemma FlattenPush<T>(a: seq<seq<T>>, chunk: seq<T>)
    ensures Flatten(a + [chunk]) == Flatten(a) + chunk
  {
    FlattenAppend(a, [chunk]);
    FlattenOne(chunk);
  }
}
