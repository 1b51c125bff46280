/** Bitwise conjunction of naturals, and why a power-of-two capacity lets it stand for the remainder. */
module Bitmask {

  function And(a: nat, b: nat): (r: nat)
    decreases a
  {
    if a == 0 then 0 else 2 * And(a / 2, b / 2) + (if a % 2 == 1 && b % 2 == 1 then 1 else 0)
  }

  function Power2(k: nat): (r: nat)
    ensures r > 0
  {
    if k == 0 then 1 else 2 * Power2(k - 1)
  }

  ghost predicate IsPower2(n: nat) {
    exists k :: n == Power2(k)
  }

  lemma AndOdd(pos: nat, n: nat)
    requires n > 0
    ensures And(pos, 2 * n - 1) == 2 * And(pos / 2, n - 1) + pos % 2
  {
    var odd := 2 * n - 1;
    assert odd == 2 * (n - 1) + 1;
    assert odd / 2 == n - 1 && odd % 2 == 1;
  }

  lemma {:induction false} AndMaskRec(pos: nat, k: nat)
    ensures And(pos, Power2(k) - 1) == pos % Power2(k)
    decreases k
  {
    if k == 0 {
      AndZero(pos);
    } else {
      var n := Power2(k - 1);
      assert Power2(k) == 2 * n;
      hide And, Power2;
      AndMaskRec(pos / 2, k - 1);
      AndOdd(pos, n);
      HalveRemainder(pos, n);
    }
  }

  lemma {:induction false} AndZero(a: nat)
    ensures And(a, 0) == 0
  {
    if a > 0 {
      AndZero(a / 2);
    }
  }

  lemma HalveRemainder(pos: nat, n: nat)
    requires n > 0
    ensures 2 * (pos / 2 % n) + pos % 2 == pos % (2 * n)
  {
    var q, r := pos / 2 / n, pos / 2 % n;
    assert pos / 2 == q * n + r;
    assert pos == 2 * (q * n + r) + pos % 2;
    assert pos == q * (2 * n) + (2 * r + pos % 2);
    RemainderUnique(pos, 2 * n, q, 2 * r + pos % 2);
  }

  lemma Multiple(n: int, d: int)
    requires n >= 0
    ensures d >= 1 ==> n * d >= n
    ensures d <= -1 ==> n * d <= -n
  {}

  lemma Distribute(n: nat, x: int, y: int)
    ensures n * (x - y) == n * x - n * y
  {}

  lemma RemainderUnique(a: nat, n: nat, q: nat, r: nat)
    requires n > 0 && a == q * n + r && r < n
    ensures a % n == r && a / n == q
  {
    var x, y := a / n, a % n;
    assert a == n * x + y;
    Distribute(n, x, q);
    Multiple(n, x - q);
  }

  lemma MaskIsRemainder(pos: nat, capacity: nat)
    requires IsPower2(capacity)
    ensures And(pos, capacity - 1) == pos % capacity
  {
    var k :| capacity == Power2(k);
    AndMaskRec(pos, k);
  }

  lemma {:induction false} AndSelf(a: nat)
    ensures And(a, a) == a
  {
    if a > 0 {
      AndSelf(a / 2);
    }
  }

  /** Only a power of two shares no bit with its predecessor. */
  lemma {:induction false} DisjointFromPredecessor(n: nat)
    requires n > 0 && And(n, n - 1) == 0
    ensures IsPower2(n)
  {
    var half := n / 2;
    if n == 1 {
      assert 1 == Power2(0);
    } else if n % 2 == 1 {
      AndSelf(half);
      assert false;
    } else {
      assert And(n, n - 1) == 2 * And(half, half - 1);
      DisjointFromPredecessor(half);
      var k: nat :| half == Power2(k);
      assert n == Power2(k + 1);
    }
  }

  /** `pos & (capacity - 1)` is the remainder for all positions exactly if the capacity is a power of two. */
  lemma MaskIsRemainderIff(capacity: nat)
    requires capacity > 0
    ensures IsPower2(capacity) <==> forall pos: nat :: And(pos, capacity - 1) == pos % capacity
  {
    if IsPower2(capacity) {
      forall pos: nat ensures And(pos, capacity - 1) == pos % capacity {
        MaskIsRemainder(pos, capacity);
      }
    }
    if forall pos: nat :: And(pos, capacity - 1) == pos % capacity {
      RemainderUnique(capacity, capacity, 1, 0);
      assert And(capacity, capacity - 1) == 0;
      DisjointFromPredecessor(capacity);
    }
  }

  /** Positions that share a slot of the ring are whole laps apart. */
  lemma SameSlot(capacity: nat, p: nat, q: nat)
    requires capacity > 0 && p % capacity == q % capacity && p < q
    ensures p + capacity <= q
  {
    var x, y := q / capacity, p / capacity;
    assert q == capacity * x + q % capacity && p == capacity * y + p % capacity;
    Distribute(capacity, x, y);
    Multiple(capacity, x - y);
  }

  lemma NextLap(capacity: nat, p: nat)
    requires capacity > 0
    ensures (p + capacity) % capacity == p % capacity
  {
    var q, r := p / capacity, p % capacity;
    assert p == capacity * q + r;
    Distribute(capacity, q + 1, 1);
    RemainderUnique(p + capacity, capacity, q + 1, r);
  }
}
