/** circular_q: a ring buffer that drops its oldest item when one is pushed into a full one. */
module CircularQueue {

  /** The last n items of s. */
  function Newest<T>(s: seq<T>, n: nat): (r: seq<T>)
    ensures |r| == if |s| <= n then |s| else n
  {
    if |s| <= n then s else s[|s|-n..]
  }

  /** The slot i places after head in a ring of m slots. */
  function Slot(head: nat, i: nat, m: nat): nat {
    if head + i < m then head + i else head + i - m
  }

  /** The n items from slot head on. */
  function Ring<T>(vs: seq<T>, head: nat, n: nat): (r: seq<T>)
    requires head < |vs| && n <= |vs|
    ensures |r| == n && forall i :: 0 <= i < n ==> r[i] == vs[Slot(head, i, |vs|)]
  {
    seq(n, i requires 0 <= i < n => vs[Slot(head, i, |vs|)])
  }

  lemma ModOnce(x: nat, m: nat)
    requires 0 < m <= x < 2 * m
    ensures x % m == x - m
  {
    var q := x / m;
    assert x == q * m + x % m;
    if q >= 2 { AtLeast(q, 2, m); }
  }

  lemma AtLeast(a: nat, b: nat, m: nat)
    requires a >= b
    ensures a * m >= b * m
  {
  }

  /** The index arithmetic of the ring: (i + k) % m. */
  function Wrapped(i: nat, k: nat, m: nat): nat
    requires m > 0
  {
    (i + k) % m
  }

  lemma ModSlot(head: nat, i: nat, m: nat)
    requires head < m && i <= m
    ensures Wrapped(head, i, m) == Slot(head, i, m) < m
  {
    if head + i >= m { ModOnce(head + i, m); }
  }

  /** How far the tail is ahead of the head. */
  function Distance(head: nat, tail: nat, m: nat): (n: nat)
    requires head < m && tail < m
    ensures n < m
  {
    if tail >= head then tail - head else m - (head - tail)
  }

  lemma Distances(head: nat, tail: nat, m: nat)
    requires head < m && tail < m
    ensures var n, t := Distance(head, tail, m), Slot(tail, 1, m);
      && t < m && tail == Slot(head, n, m)
      && (if t == head then n == m - 1 && Slot(head, 1, m) < m && Distance(Slot(head, 1, m), t, m) == n
          else n + 1 < m && Distance(head, t, m) == n + 1)
    ensures head != tail ==> var h := Slot(head, 1, m); h < m && Distance(h, tail, m) + 1 == Distance(head, tail, m)
    ensures Distance(head, tail, m) == 0 <==> head == tail
  {
  }

  /** Writing the slot after the last item appends to the ring. */
  lemma RingAppend<T>(vs: seq<T>, head: nat, n: nat, x: T)
    requires head < |vs| && n < |vs|
    ensures Slot(head, n, |vs|) < |vs| && Ring(vs[Slot(head, n, |vs|) := x], head, n + 1) == Ring(vs, head, n) + [x]
  {
  }

  /** Moving the head on drops the oldest item. */
  lemma RingDrop<T>(vs: seq<T>, head: nat, n: nat)
    requires head < |vs| && 0 < n <= |vs|
    ensures Slot(head, 1, |vs|) < |vs| && Ring(vs, Slot(head, 1, |vs|), n - 1) == Ring(vs, head, n)[1..]
  {
  }

  class Queue<T> {
    var maxItems: nat
    var head: nat
    var tail: nat
    var overrunCounter: nat
    const v: array<T>

    /** One slot is kept free as the marker of a full queue. A queue without slots is disabled. */
    ghost predicate Valid()
      reads this
    {
      v.Length == maxItems && (if maxItems == 0 then head == 0 && tail == 0 else head < maxItems && tail < maxItems)
    }

    ghost function Capacity(): nat
      reads this
    {
      if maxItems == 0 then 0 else maxItems - 1
    }

    ghost function Stored(): (n: nat)
      requires Valid()
      reads this
      ensures n <= Capacity()
    {
      if maxItems == 0 then 0 else Distance(head, tail, maxItems)
    }

    /** The items from the oldest to the newest. */
    ghost function Contents(): (s: seq<T>)
      requires Valid()
      reads this, v
      ensures |s| == Stored()
    {
      if maxItems == 0 then [] else Ring(v[..], head, Stored())
    }

    /** A disabled queue. */
    constructor Disabled()
      ensures Valid() && Capacity() == 0 && maxItems == 0 && Contents() == [] && overrunCounter == 0 && fresh(v)
    {
      maxItems, head, tail, overrunCounter := 0, 0, 0, 0;
      v := new T[0];
    }

    constructor (items: nat, filler: T)
      ensures Valid() && maxItems == items + 1 && Capacity() == items && Contents() == [] && overrunCounter == 0 && fresh(v)
    {
      maxItems, head, tail, overrunCounter := items + 1, 0, 0, 0;
      v := new T[items + 1](_ => filler);
    }

    /** push_back: the newest items that fit remain; what no longer fits is counted. A disabled queue ignores it. */
    method PushBack(item: T)
      requires Valid()
      modifies this`head, this`tail, this`overrunCounter, v
      ensures Valid() && maxItems == old(maxItems)
      ensures maxItems == 0 ==> Contents() == old(Contents()) && overrunCounter == old(overrunCounter)
      ensures maxItems > 0 ==> Contents() == Newest(old(Contents()) + [item], Capacity())
      ensures maxItems > 0 ==> overrunCounter == old(overrunCounter) + (if |old(Contents())| == Capacity() then 1 else 0)
    {
      if maxItems > 0 {
        hide Ring, Slot, Distance, Wrapped;
        ghost var vs, n, h := v[..], Stored(), head;
        Distances(h, tail, maxItems);
        RingAppend(vs, h, n, item);
        ModSlot(tail, 1, maxItems);
        ModSlot(h, 1, maxItems);
        v[tail] := item;
        assert v[..] == vs[tail := item];
        tail := Wrapped(tail, 1, maxItems);
        if tail == head {
          RingDrop(v[..], h, n + 1);
          head := Wrapped(head, 1, maxItems);
          overrunCounter := overrunCounter + 1;
        }
      }
    }

    method Front() returns (x: T)
      requires Valid() && Contents() != []
      ensures x == Contents()[0]
    {
      x := v[head];
    }

    method PopFront()
      requires Valid() && Contents() != []
      modifies this`head
      ensures Valid() && Contents() == old(Contents())[1..]
    {
      hide Ring, Slot, Distance, Wrapped;
      Distances(head, tail, maxItems);
      RingDrop(v[..], head, Stored());
      ModSlot(head, 1, maxItems);
      head := Wrapped(head, 1, maxItems);
    }

    method ResetOverrunCounter()
      requires Valid()
      modifies this`overrunCounter
      ensures Valid() && Contents() == old(Contents()) && overrunCounter == 0
    {
      overrunCounter := 0;
    }

    method Size() returns (n: nat)
      requires Valid()
      ensures n == |Contents()|
    {
      if tail >= head { n := tail - head; } else { n := maxItems - (head - tail); }
    }

    method At(i: nat) returns (x: T)
      requires Valid() && i < |Contents()|
      ensures x == Contents()[i]
    {
      ModSlot(head, i, maxItems);
      x := v[Wrapped(head, i, maxItems)];
    }

    method Empty() returns (b: bool)
      requires Valid()
      ensures b <==> Contents() == []
    {
      b := tail == head;
    }

    /** A disabled queue is never full. */
    method Full() returns (b: bool)
      requires Valid()
      ensures b <==> maxItems > 0 && |Contents()| == Capacity()
    {
      if maxItems > 0 {
        ModSlot(tail, 1, maxItems);
        Distances(head, tail, maxItems);
      }
      b := maxItems > 0 && Wrapped(tail, 1, maxItems) == head;
    }
  }
}
