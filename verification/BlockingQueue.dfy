/** mpmc_blocking_q: a queue shared by several threads. Every operation holds the lock from its test to its change,
    so a run of the threads is a sequence of these operations; an operation whose wait is not over changes nothing. */
module BlockingQueue {
  import opened Schema
  import opened CircularQueue

  /** s is what is left of t when some of its items are taken out. */
  ghost predicate Subsequence<T>(s: seq<T>, t: seq<T>) {
    s == [] || (t != [] && (
      || (s[|s|-1] == t[|t|-1] && Subsequence(s[..|s|-1], t[..|t|-1]))
      || Subsequence(s, t[..|t|-1])))
  }

  lemma {:induction false} SubsequenceMore<T>(s: seq<T>, t: seq<T>, x: T)
    requires Subsequence(s, t)
    ensures Subsequence(s, t + [x]) && Subsequence(s + [x], t + [x])
  {
    assert (t + [x])[..|t|] == t && (s + [x])[..|s|] == s;
  }

  /** What was pushed has been dequeued, is stored, or was overrun; what is stored is the newest part, in order;
      and what was dequeued came out in the order it was pushed. */
  ghost predicate History<T>(pushed: seq<T>, taken: seq<T>, items: seq<T>, lost: nat) {
    && |pushed| == |taken| + |items| + lost
    && items == pushed[|pushed| - |items|..]
    && Subsequence(taken, pushed[..|pushed| - |items|])
    && (lost == 0 ==> taken + items == pushed)
  }

  class Mpmc<T> {
    const q: Queue<T>
    var discardCounter: nat
    ghost var pushed: seq<T>
    ghost var taken: seq<T>
    ghost var lost: nat

    ghost function Repr(): set<object>
      reads this
    {
      {this, q, q.v}
    }

    ghost predicate Valid()
      reads Repr()
    {
      q.Valid() && q.maxItems > 0 && History(pushed, taken, q.Contents(), lost) && q.overrunCounter <= lost
    }

    constructor (items: nat, filler: T)
      ensures Valid() && fresh(Repr()) && q.Capacity() == items && pushed == [] && taken == [] && lost == 0
    {
      q := new Queue(items, filler);
      discardCounter, pushed, taken, lost := 0, [], [], 0;
    }

    /** enqueue: it waits as long as the queue is full, and never overruns. */
    method Enqueue(item: T) returns (done: bool)
      requires Valid()
      modifies Repr()
      ensures Valid() && q.Capacity() == old(q.Capacity()) && lost == old(lost) && taken == old(taken)
      ensures q.overrunCounter == old(q.overrunCounter) && discardCounter == old(discardCounter)
      ensures done <==> |old(q.Contents())| < q.Capacity()
      ensures q.Contents() == old(q.Contents()) + (if done then [item] else [])
      ensures pushed == old(pushed) + (if done then [item] else [])
    {
      hide History, Newest;
      var full := q.Full();
      if full { return false; }
      NewestAll(q.Contents() + [item], q.Capacity());
      HistoryPush(pushed, taken, q.Contents(), lost, item);
      q.PushBack(item);
      pushed := pushed + [item];
      return true;
    }

    /** enqueue_nowait: a full queue loses its oldest item. */
    method EnqueueNowait(item: T)
      requires Valid()
      modifies Repr()
      ensures Valid() && q.Capacity() == old(q.Capacity()) && taken == old(taken)
      ensures q.Contents() == Newest(old(q.Contents()) + [item], q.Capacity())
      ensures lost == old(lost) + (if |old(q.Contents())| == q.Capacity() then 1 else 0)
      ensures q.overrunCounter - old(q.overrunCounter) == lost - old(lost) && discardCounter == old(discardCounter)
      ensures pushed == old(pushed) + [item]
    {
      hide History, Newest;
      ghost var was := q.Contents();
      if |was| == q.Capacity() {
        HistoryOver(pushed, taken, was, lost, item);
        lost := lost + 1;
      } else {
        NewestAll(was + [item], q.Capacity());
        HistoryPush(pushed, taken, was, lost, item);
      }
      q.PushBack(item);
      pushed := pushed + [item];
    }

    /** enqueue_if_have_room: a full queue discards the new item. */
    method EnqueueIfHaveRoom(item: T)
      requires Valid()
      modifies Repr()
      ensures Valid() && q.Capacity() == old(q.Capacity()) && lost == old(lost) && taken == old(taken)
      ensures q.overrunCounter == old(q.overrunCounter)
      ensures var room := |old(q.Contents())| < q.Capacity();
        && q.Contents() == old(q.Contents()) + (if room then [item] else [])
        && pushed == old(pushed) + (if room then [item] else [])
        && discardCounter == old(discardCounter) + (if room then 0 else 1)
    {
      hide History, Newest;
      var full := q.Full();
      if full {
        discardCounter := discardCounter + 1;
      } else {
        NewestAll(q.Contents() + [item], q.Capacity());
        HistoryPush(pushed, taken, q.Contents(), lost, item);
        q.PushBack(item);
        pushed := pushed + [item];
      }
    }

    /** dequeue and dequeue_for: the oldest item, or nothing while the queue is empty. */
    method Dequeue() returns (r: Option<T>)
      requires Valid()
      modifies Repr()
      ensures Valid() && q.Capacity() == old(q.Capacity()) && lost == old(lost) && pushed == old(pushed)
      ensures q.overrunCounter == old(q.overrunCounter) && discardCounter == old(discardCounter)
      ensures r.None? <==> old(q.Contents()) == []
      ensures r.None? ==> q.Contents() == [] && taken == old(taken)
      ensures r.Some? ==> [r.value] + q.Contents() == old(q.Contents()) && taken == old(taken) + [r.value]
    {
      hide History, Newest;
      var empty := q.Empty();
      if empty { return None; }
      var x := q.Front();
      HistoryTake(pushed, taken, q.Contents(), lost);
      q.PopFront();
      taken := taken + [x];
      return Some(x);
    }

    /** reset_overrun_counter: the count starts over, but what was lost stays lost. */
    method ResetOverrunCounter()
      requires Valid()
      modifies q`overrunCounter
      ensures Valid() && q.Contents() == old(q.Contents()) && q.overrunCounter == 0
    {
      q.ResetOverrunCounter();
    }
  }

  lemma NewestAll<T>(s: seq<T>, n: nat)
    requires |s| <= n
    ensures Newest(s, n) == s
  {
  }

  lemma Split<T>(pushed: seq<T>, items: seq<T>) returns (front: seq<T>)
    requires |items| <= |pushed| && items == pushed[|pushed| - |items|..]
    ensures pushed == front + items && front == pushed[..|pushed| - |items|]
  {
    front := pushed[..|pushed| - |items|];
  }

  lemma MakeHistory<T>(front: seq<T>, taken: seq<T>, items: seq<T>, lost: nat)
    requires |front| == |taken| + lost && Subsequence(taken, front) && (lost == 0 ==> taken == front)
    ensures History(front + items, taken, items, lost)
  {
    assert (front + items)[..|front|] == front && (front + items)[|front|..] == items;
  }

  lemma HistoryParts<T>(pushed: seq<T>, taken: seq<T>, items: seq<T>, lost: nat) returns (front: seq<T>)
    requires History(pushed, taken, items, lost)
    ensures pushed == front + items && |front| == |taken| + lost && Subsequence(taken, front) && (lost == 0 ==> taken == front)
  {
    front := Split(pushed, items);
    if lost == 0 {
      assert taken == (taken + items)[..|taken|];
      assert front == (front + items)[..|front|];
    }
  }

  lemma HistoryPush<T>(pushed: seq<T>, taken: seq<T>, items: seq<T>, lost: nat, x: T)
    requires History(pushed, taken, items, lost)
    ensures History(pushed + [x], taken, items + [x], lost)
  {
    var front := HistoryParts(pushed, taken, items, lost);
    hide History, Subsequence;
    assert pushed + [x] == front + (items + [x]);
    MakeHistory(front, taken, items + [x], lost);
  }

  lemma HistoryOver<T>(pushed: seq<T>, taken: seq<T>, items: seq<T>, lost: nat, x: T)
    requires History(pushed, taken, items, lost)
    ensures History(pushed + [x], taken, Newest(items + [x], |items|), lost + 1)
  {
    var front := HistoryParts(pushed, taken, items, lost);
    hide History, Subsequence;
    var more := items + [x];
    assert Newest(more, |items|) == more[1..];
    assert pushed + [x] == (front + [more[0]]) + more[1..];
    SubsequenceMore(taken, front, more[0]);
    MakeHistory(front + [more[0]], taken, more[1..], lost + 1);
  }

  lemma HistoryTake<T>(pushed: seq<T>, taken: seq<T>, items: seq<T>, lost: nat)
    requires History(pushed, taken, items, lost) && items != []
    ensures History(pushed, taken + [items[0]], items[1..], lost)
  {
    var front := HistoryParts(pushed, taken, items, lost);
    hide History, Subsequence;
    assert pushed == (front + [items[0]]) + items[1..];
    SubsequenceMore(taken, front, items[0]);
    MakeHistory(front + [items[0]], taken + [items[0]], items[1..], lost);
  }

}
