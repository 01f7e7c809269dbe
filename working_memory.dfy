/**
 * The per-session working memory: a bounded FIFO queue that evicts its oldest
 * entry when a push finds it full.
 */
module WorkingMemory {

  /** What a queue created with `maxSize` can hold: a push always leaves the new item, so at least one. */
  function Capacity(maxSize: int): nat {
    if maxSize >= 1 then maxSize else 1
  }

  /** The last `n` elements of `s` (all of them when there are fewer). */
  function LastN<T>(s: seq<T>, n: nat): (r: seq<T>)
    ensures |r| == if |s| <= n then |s| else n
  {
    if |s| <= n then s else s[|s| - n..]
  }

  /** The contents after one `push(x)`: shift when the length has reached maxSize, then append. */
  function PushOne<T>(items: seq<T>, maxSize: int, x: T): seq<T> {
    // shift() on an empty array changes nothing
    (if |items| >= maxSize && items != [] then items[1..] else items) + [x]
  }

  /** The contents after pushing every element of `xs`, first to last. */
  function PushAll<T>(items: seq<T>, maxSize: int, xs: seq<T>): seq<T>
    decreases |xs|
  {
    if xs == [] then items else PushAll(PushOne(items, maxSize, xs[0]), maxSize, xs[1..])
  }

  /**
   * A push keeps the length within capacity and makes the pushed item last;
   * below capacity nothing is removed, and at capacity exactly the former
   * first item is removed while the others keep their order.
   */
  lemma PushOneSpec<T>(items: seq<T>, maxSize: int, x: T)
    requires |items| <= Capacity(maxSize)
    ensures |PushOne(items, maxSize, x)| <= Capacity(maxSize)
    ensures PushOne(items, maxSize, x)[|PushOne(items, maxSize, x)| - 1] == x
    ensures |items| < Capacity(maxSize) ==> PushOne(items, maxSize, x) == items + [x]
    ensures |items| == Capacity(maxSize) ==> PushOne(items, maxSize, x) == items[1..] + [x]
  {
  }

  /** Taking the last n twice, with more appended in between, is taking the last n once. */
  lemma LastNAppend<T>(a: seq<T>, b: seq<T>, n: nat)
    ensures LastN(LastN(a, n) + b, n) == LastN(a + b, n)
  {
    if |a| > n {
      var la := a[|a| - n..];
      if |la + b| > n {
        assert (la + b)[|la + b| - n..] == (a + b)[|a + b| - n..];
      }
    }
  }

  /** One push keeps exactly the last Capacity(maxSize) items of the old contents followed by the item. */
  lemma PushOneIsLastN<T>(items: seq<T>, maxSize: int, x: T)
    requires |items| <= Capacity(maxSize)
    ensures PushOne(items, maxSize, x) == LastN(items + [x], Capacity(maxSize))
  {
  }

  /**
   * Pushing any sequence into a queue within capacity leaves exactly the last
   * Capacity(maxSize) items of the old contents followed by the pushed ones,
   * oldest first.
   */
  lemma {:induction false} PushAllIsLastN<T>(items: seq<T>, maxSize: int, xs: seq<T>)
    requires |items| <= Capacity(maxSize)
    ensures PushAll(items, maxSize, xs) == LastN(items + xs, Capacity(maxSize))
    decreases |xs|
  {
    if xs != [] {
      var c := Capacity(maxSize);
      var next := PushOne(items, maxSize, xs[0]);
      PushOneIsLastN(items, maxSize, xs[0]);
      PushOneSpec(items, maxSize, xs[0]);
      PushAllIsLastN(next, maxSize, xs[1..]);
      LastNAppend(items + [xs[0]], xs[1..], c);
      assert items + [xs[0]] + xs[1..] == items + xs;
    }
  }

  /** From an empty queue, pushing n items leaves the last min(n, maxSize) of them, oldest first. */
  lemma PushAllFromEmpty<T>(maxSize: int, xs: seq<T>)
    requires maxSize >= 1
    ensures PushAll([], maxSize, xs) == if |xs| <= maxSize then xs else xs[|xs| - maxSize..]
  {
    PushAllIsLastN([], maxSize, xs);
    assert [] + xs == xs;
  }

  /** `FixedSizeQueue<T>`: a bounded FIFO whose `items` array is shifted and pushed in place. */
  class FixedSizeQueue<T> {
    var items: seq<T>
    const maxSize: int

    ghost predicate Valid()
      reads this
    {
      |items| <= Capacity(maxSize)
    }

    constructor (maxSize: int)
      ensures Valid()
      ensures this.maxSize == maxSize && items == []
    {
      this.maxSize := maxSize;
      items := [];
    }

    method Push(item: T)
      requires Valid()
      modifies this
      ensures Valid()
      ensures items == PushOne(old(items), maxSize, item)
    {
      if |items| >= maxSize && items != [] {
        items := items[1..];
      }
      items := items + [item];
    }

    /** A copy of the contents, oldest first; the queue is left as it was. */
    method ToArray() returns (r: seq<T>)
      ensures r == items
    {
      r := items;
    }
  }
}
