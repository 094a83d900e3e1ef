/** The rolling history of energy samples: a `deque` with a `maxlen`, fed by
    `appendleft`, so the newest sample is at the front and, once the deque
    is full, every push drops the oldest sample at the back. */
module RollingHistory {

  function Min(a: int, b: int): int
  {
    if a < b then a else b
  }

  /** The contents after `appendleft(x)` on a deque holding `s` with
      `maxlen == cap`: `x` in front, then the old contents in order, of which
      only the oldest is lost, and only when the deque was full. */
  function Pushed(s: seq<real>, x: real, cap: nat): (r: seq<real>)
    requires |s| <= cap
    ensures |r| == Min(|s| + 1, cap)
    ensures cap > 0 ==> r[0] == x && r[1..] == s[..|r| - 1]
  {
    if cap == 0 then [] else ([x] + s)[..Min(|s| + 1, cap)]
  }

  /** The contents after pushing the samples `xs` one by one, oldest first. */
  function PushedAll(s: seq<real>, xs: seq<real>, cap: nat): (r: seq<real>)
    requires |s| <= cap
    ensures |r| == Min(|s| + |xs|, cap)
    decreases |xs|
  {
    if xs == [] then s else Pushed(PushedAll(s, xs[..|xs| - 1], cap), xs[|xs| - 1], cap)
  }

  /** Pushing a sequence pushes its last sample onto the result of pushing the rest. */
  lemma PushedAllLast(s: seq<real>, xs: seq<real>, cap: nat)
    requires |s| <= cap
    requires xs != []
    ensures PushedAll(s, xs, cap) == Pushed(PushedAll(s, xs[..|xs| - 1], cap), xs[|xs| - 1], cap)
  {
  }

  /** The samples newest first. */
  function Reversed(xs: seq<real>): (r: seq<real>)
    ensures |r| == |xs|
    decreases |xs|
  {
    if xs == [] then [] else [xs[|xs| - 1]] + Reversed(xs[..|xs| - 1])
  }

  /** The i-th newest element is the i-th sample from the end. */
  lemma {:induction false} ReversedAt(xs: seq<real>, i: nat)
    requires i < |xs|
    ensures Reversed(xs)[i] == xs[|xs| - 1 - i]
    decreases |xs|
  {
    if i > 0 {
      ReversedAt(xs[..|xs| - 1], i - 1);
    }
  }

  /** Starting empty, the history holds the last `cap` samples pushed (all of
      them while fewer were pushed), newest first. */
  lemma {:induction false} PushedAllIsNewestFirst(xs: seq<real>, cap: nat)
    ensures PushedAll([], xs, cap) == Reversed(xs)[..Min(|xs|, cap)]
    decreases |xs|
  {
    if xs != [] {
      var n := |xs|;
      var xs' := xs[..n - 1];
      PushedAllIsNewestFirst(xs', cap);
      if cap > 0 {
        var w' := PushedAll([], xs', cap);
        var r := PushedAll([], xs, cap);
        var k := Min(n, cap);
        assert Reversed(xs) == [xs[n - 1]] + Reversed(xs');
        assert |r| == k;
        forall i | 0 <= i < k
          ensures r[i] == Reversed(xs)[i]
        {
          if i > 0 {
            assert r[i] == r[1..][i - 1] == w'[i - 1];
          }
        }
      }
    }
  }

  /** With capacity 3, pushing 1, 2, 3, 4 leaves [4, 3, 2]: 1 was evicted. */
  lemma PushedAllExample()
    ensures PushedAll([], [1.0, 2.0, 3.0, 4.0], 3) == [4.0, 3.0, 2.0]
  {
  }

  /** The deque object itself. */
  class History {
    const capacity: nat
    var items: seq<real>

    ghost predicate Valid()
      reads this
    {
      |items| <= capacity
    }

    /** `deque([], maxlen=capacity)` */
    constructor (capacity: nat)
      ensures Valid()
      ensures this.capacity == capacity && items == []
    {
      this.capacity := capacity;
      items := [];
    }

    /** `appendleft(x)`: insert at the front, then evict from the back
        while over capacity. */
    method AppendLeft(x: real)
      requires Valid()
      modifies this
      ensures Valid()
      ensures items == Pushed(old(items), x, capacity)
    {
      if capacity == 0 {
        return;
      }
      items := [x] + items;
      if |items| > capacity {
        items := items[..capacity];
      }
    }
  }
}
