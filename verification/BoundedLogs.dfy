/** Bounded logs: the newest entries of a history, kept by popping before or draining after each push. */
module BoundedLogs {
  import opened Prelude

  /** Room is made first; a capacity of 0 therefore still holds one entry. */
  function PopPush<T>(entries: seq<T>, capacity: nat, x: T): seq<T> {
    (if |entries| >= capacity && entries != [] then entries[1..] else entries) + [x]
  }

  function PushDrain<T>(entries: seq<T>, limit: nat, x: T): seq<T> {
    Last(entries + [x], limit)
  }

  function AllPopPush<T>(capacity: nat, items: seq<T>): seq<T> {
    if items == [] then [] else PopPush(AllPopPush(capacity, items[..|items| - 1]), capacity, items[|items| - 1])
  }

  function AllPushDrain<T>(limit: nat, items: seq<T>): seq<T> {
    if items == [] then [] else PushDrain(AllPushDrain(limit, items[..|items| - 1]), limit, items[|items| - 1])
  }

  lemma LastOfLast<T>(s: seq<T>, a: nat, b: nat)
    ensures Last(Last(s, a), b) == Last(s, Min(a, b))
  {
  }

  /** Dropping before or after the next write is the same. */
  lemma LastThenPush<T>(s: seq<T>, n: nat, x: T)
    ensures Last(Last(s, n) + [x], n) == Last(s + [x], n)
  {
    assert |s| > n ==> (s + [x])[|s| + 1 - n..] == (s[|s| - n..] + [x])[1..];
  }

  lemma PopPushKeeps<T>(history: seq<T>, capacity: nat, x: T)
    ensures PopPush(Last(history, Max(capacity, 1)), capacity, x) == Last(history + [x], Max(capacity, 1))
  {
    var n := Max(capacity, 1);
    var e := Last(history, n);
    if |history| >= n {
      assert e[1..] + [x] == (history + [x])[|history| + 1 - n..];
    }
  }

  /** Popping first keeps exactly the newest entries of the whole history. */
  lemma {:induction false} PopPushIsLast<T>(capacity: nat, items: seq<T>)
    ensures AllPopPush(capacity, items) == Last(items, Max(capacity, 1))
  {
    if items != [] {
      var n := |items| - 1;
      PopPushIsLast(capacity, items[..n]);
      PopPushKeeps(items[..n], capacity, items[n]);
      assert items == items[..n] + [items[n]];
    }
  }

  /** Draining afterwards keeps the same entries, for every positive limit. */
  lemma {:induction false} PushDrainIsLast<T>(limit: nat, items: seq<T>)
    ensures AllPushDrain(limit, items) == Last(items, limit)
    ensures limit > 0 ==> AllPushDrain(limit, items) == AllPopPush(limit, items)
  {
    PopPushIsLast(limit, items);
    if items != [] {
      var n := |items| - 1;
      PushDrainIsLast(limit, items[..n]);
      LastThenPush(items[..n], limit, items[n]);
      assert items == items[..n] + [items[n]];
    }
  }

  function Reversed<T>(s: seq<T>): (r: seq<T>)
    ensures |r| == |s| && forall i :: 0 <= i < |s| ==> r[i] == s[|s| - 1 - i]
  {
    seq(|s|, i requires 0 <= i < |s| => s[|s| - 1 - i])
  }

  /** Taking the newest from the back and turning them round gives the newest in order. */
  lemma TakeFromBack<T>(s: seq<T>, n: nat)
    requires n <= |s|
    ensures Reversed(Reversed(s)[..n]) == Last(s, n)
  {
  }

  lemma NewestFirst<T>(s: seq<T>, n: nat)
    ensures Reversed(s)[..Min(n, |s|)] == Reversed(Last(s, n))
  {
  }
}
