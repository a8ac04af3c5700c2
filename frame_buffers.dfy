/**
  * The frame buffers of the pipeline: Python `collections.deque` objects,
  * created with `deque(maxlen=buffer_size)` by the camera services and the
  * face detector and with `deque()` (no bound) by the detector service.
  *
  * `append` on a bounded deque that is full drops the leftmost (oldest)
  * element; the stream service additionally evicts by hand before appending;
  * every reader takes the leftmost element, or `None` when the deque is empty.
  */
module FrameBuffers {
  import opened Wrappers

  /** The deque invariant: a bounded deque never holds more than `maxlen` items. */
  predicate Fits<T>(s: seq<T>, maxlen: Option<nat>)
  {
    maxlen.None? || |s| <= maxlen.value
  }

  /** `r` is what is left of `t` after dropping some of its oldest (leftmost) items. */
  ghost predicate IsSuffix<T>(r: seq<T>, t: seq<T>)
  {
    |r| <= |t| && r == t[|t| - |r|..]
  }

  /** What a deque with the given bound retains of `s`: its most recent elements. */
  function Bounded<T>(s: seq<T>, maxlen: Option<nat>): (r: seq<T>)
    ensures Fits(r, maxlen)
    ensures maxlen.None? ==> r == s
    ensures maxlen.Some? ==> |r| == if |s| <= maxlen.value then |s| else maxlen.value
    ensures IsSuffix(r, s)
  {
    if maxlen.Some? && |s| > maxlen.value then s[|s| - maxlen.value..] else s
  }

  /** `deque.append(x)`: `x` goes to the right end, and a full bounded deque drops its leftmost item. */
  function Appended<T>(s: seq<T>, x: T, maxlen: Option<nat>): (r: seq<T>)
    ensures Fits(r, maxlen)
    ensures maxlen != Some(0) ==> |r| > 0 && r[|r| - 1] == x
    ensures IsSuffix(r, s + [x])
    // below capacity nothing is dropped; at capacity exactly the oldest item is
    ensures Fits(s, maxlen) && (maxlen.None? || |s| < maxlen.value) ==> r == s + [x]
    ensures maxlen.Some? && |s| == maxlen.value > 0 ==> r == s[1..] + [x]
  {
    var r := Bounded(s + [x], maxlen);
    assert maxlen.Some? && |s| == maxlen.value > 0 ==> r == s[1..] + [x] by {
      if maxlen.Some? && |s| == maxlen.value > 0 {
        assert (s + [x])[1..] == s[1..] + [x];
      }
    }
    r
  }

  /**
    * The capture loop's append in `stream_service`: when the length exceeds
    * `bound`, `popleft()` once, then `append`.
    */
  function EvictedThenAppended<T>(s: seq<T>, x: T, bound: nat, maxlen: Option<nat>): (r: seq<T>)
    ensures maxlen != Some(0) ==> |r| > 0 && r[|r| - 1] == x
    ensures IsSuffix(r, s + [x])
    ensures Fits(s, maxlen) ==> Fits(r, maxlen)
    ensures |s| <= bound + 1 ==> |r| <= bound + 1
    ensures maxlen.None? && |s| > bound ==> r == s[1..] + [x]
    // when the check does not fire and the deque has room, every retained frame is kept
    ensures Fits(s, maxlen) && |s| <= bound && (maxlen.None? || |s| < maxlen.value) ==> r == s + [x]
  {
    if |s| > bound then
      var r := Appended(s[1..], x, maxlen);
      assert IsSuffix(r, s + [x]) by {
        SuffixOfTail(r, s + [x]);
      }
      r
    else
      Appended(s, x, maxlen)
  }

  /** A suffix of the tail of `t` is a suffix of `t`. */
  lemma SuffixOfTail<T>(r: seq<T>, t: seq<T>)
    requires t != [] && IsSuffix(r, t[1..])
    ensures IsSuffix(r, t)
  {
    assert t[1..][|t| - 1 - |r|..] == t[|t| - |r|..];
  }

  /**
    * One `popleft()` guarded by a length check, as every `get_frame` does it:
    * the oldest item and the rest, or `None` and the sequence unchanged.
    */
  function PopOldestOf<T>(s: seq<T>): (r: (Option<T>, seq<T>))
    ensures s == [] ==> r == (None, s)
    ensures s != [] ==> r.0 == Some(s[0]) && [s[0]] + r.1 == s
  {
    if |s| > 0 then (Some(s[0]), s[1..]) else (None, s)
  }

  /** The deque after `append`ing every element of `xs` in order. */
  function PushAll<T>(s: seq<T>, xs: seq<T>, maxlen: Option<nat>): (r: seq<T>)
    decreases |xs|
  {
    if xs == [] then s else Appended(PushAll(s, xs[..|xs| - 1], maxlen), xs[|xs| - 1], maxlen)
  }

  /** The deque after the stream service's evict-then-append of every element of `xs` in order. */
  function EvictAppendAll<T>(s: seq<T>, xs: seq<T>, bound: nat, maxlen: Option<nat>): (r: seq<T>)
    decreases |xs|
  {
    if xs == [] then s
    else EvictedThenAppended(EvictAppendAll(s, xs[..|xs| - 1], bound, maxlen), xs[|xs| - 1], bound, maxlen)
  }

  /** The values returned by `k` successive pop-oldest-or-None reads, and what is left. */
  function PopMany<T>(s: seq<T>, k: nat): (r: (seq<Option<T>>, seq<T>))
  {
    if k == 0 then ([], s)
    else
      var (x, rest) := PopOldestOf(s);
      var (xs, left) := PopMany(rest, k - 1);
      ([x] + xs, left)
  }

  /** A `collections.deque` of frames, optionally bounded by `maxlen`. */
  class FrameDeque<T> {
    var items: seq<T>
    const maxlen: Option<nat>

    ghost predicate Valid()
      reads this
    {
      Fits(items, maxlen)
    }

    /** `deque(maxlen=...)`, or `deque()` when `maxlen` is `None`. */
    constructor (maxlen: Option<nat>)
      ensures Valid() && items == [] && this.maxlen == maxlen
    {
      items := [];
      this.maxlen := maxlen;
    }

    /** `append(x)`. */
    method Push(x: T)
      requires Valid()
      modifies this
      ensures Valid()
      ensures items == Appended(old(items), x, maxlen)
    {
      if maxlen.Some? && |items| == maxlen.value {
        if maxlen.value == 0 {
          // a deque with maxlen 0 discards every appended item
          return;
        }
        items := items[1..];
      }
      items := items + [x];
    }

    /** `if len(buf) > bound: buf.popleft()` followed by `buf.append(x)`. */
    method PushEvicting(x: T, bound: nat)
      requires Valid()
      modifies this
      ensures Valid()
      ensures items == EvictedThenAppended(old(items), x, bound, maxlen)
    {
      if |items| > bound {
        items := items[1..];
      }
      Push(x);
    }

    /** `buf.popleft() if len(buf) > 0 else None`. */
    method PopOldest() returns (r: Option<T>)
      requires Valid()
      modifies this
      ensures Valid()
      ensures old(items) == [] ==> r.None? && items == []
      ensures old(items) != [] ==> r == Some(old(items)[0]) && items == old(items)[1..]
      ensures (r, items) == PopOldestOf(old(items))
    {
      if |items| > 0 {
        r := Some(items[0]);
        items := items[1..];
      } else {
        r := None;
      }
    }
  }

  /** Splitting off the last element of `xs` commutes with putting `s` in front. */
  lemma AppendLast<T>(s: seq<T>, xs: seq<T>)
    requires xs != []
    ensures s + xs[..|xs| - 1] + [xs[|xs| - 1]] == s + xs
  {
    assert xs == xs[..|xs| - 1] + [xs[|xs| - 1]];
  }

  /** Trimming to the bound twice is trimming once: later appends see only the most recent items. */
  lemma BoundedAbsorbs<T>(t: seq<T>, u: seq<T>, maxlen: Option<nat>)
    ensures Bounded(Bounded(t, maxlen) + u, maxlen) == Bounded(t + u, maxlen)
  {
    if maxlen.Some? {
      var n := maxlen.value;
      var b := Bounded(t, maxlen);
      var a := |t| - |b|;
      assert b + u == (t + u)[a..];
      if |b + u| > n {
        assert (t + u)[a..][|b + u| - n..] == (t + u)[|t + u| - n..];
      } else if a > 0 {
        assert u == [];
      } else {
        assert (t + u)[a..] == t + u;
      }
    }
  }


  /**
    * A bounded deque that started within its bound holds, after any number of
    * appends, exactly the most recent `maxlen` of all the items it has seen.
    */
  lemma {:induction false} PushAllKeepsMostRecent<T>(s: seq<T>, xs: seq<T>, maxlen: Option<nat>)
    requires Fits(s, maxlen)
    ensures PushAll(s, xs, maxlen) == Bounded(s + xs, maxlen)
    decreases |xs|
  {
    if xs == [] {
      assert s + xs == s;
    } else {
      var init, last := xs[..|xs| - 1], xs[|xs| - 1];
      assert PushAll(s, xs, maxlen) == Bounded(Bounded(s + init, maxlen) + [last], maxlen) by {
        PushAllKeepsMostRecent(s, init, maxlen);
      }
      assert Bounded(Bounded(s + init, maxlen) + [last], maxlen) == Bounded(s + xs, maxlen) by {
        BoundedAbsorbs(s + init, [last], maxlen);
        AppendLast(s, xs);
      }
    }
  }

  /**
    * Under the camera services' own `deque(maxlen=buffer_size)` the stream
    * service's explicit `len > buffer_size` check never fires: its sequence of
    * evict-then-appends is the sequence of plain appends.
    */
  lemma {:induction false} EvictCheckRedundantUnderMaxlen<T>(s: seq<T>, xs: seq<T>, bound: nat)
    requires Fits(s, Some(bound))
    ensures EvictAppendAll(s, xs, bound, Some(bound)) == PushAll(s, xs, Some(bound))
    ensures Fits(EvictAppendAll(s, xs, bound, Some(bound)), Some(bound))
    decreases |xs|
  {
    if xs != [] {
      EvictCheckRedundantUnderMaxlen(s, xs[..|xs| - 1], bound);
    }
  }

  /**
    * Without the deque's own bound the explicit `>` check alone lets the
    * buffer reach `bound + 1` items, and no more.
    */
  lemma {:induction false} EvictCheckAloneAllowsOneExtra<T>(s: seq<T>, xs: seq<T>, bound: nat)
    requires |s| <= bound + 1
    ensures |EvictAppendAll(s, xs, bound, None)| <= bound + 1
    ensures |s| == bound + 1 && xs != [] ==> |EvictAppendAll(s, xs, bound, None)| == bound + 1
    ensures s == [] ==> |EvictAppendAll(s, xs, bound, None)| == if |xs| <= bound + 1 then |xs| else bound + 1
    decreases |xs|
  {
    if xs != [] {
      EvictCheckAloneAllowsOneExtra(s, xs[..|xs| - 1], bound);
    }
  }

  /** `k` reads of a deque holding at least `k` items return its first `k` items, oldest first. */
  lemma {:induction false} PopManyInOrder<T>(s: seq<T>, k: nat)
    requires k <= |s|
    ensures |PopMany(s, k).0| == k
    ensures forall i :: 0 <= i < k ==> PopMany(s, k).0[i] == Some(s[i])
    ensures PopMany(s, k).1 == s[k..]
  {
    if k > 0 {
      PopManyInOrder(s[1..], k - 1);
    }
  }

  /** An empty deque of capacity `n` holds, after appending `xs`, the most recent `n` of them. */
  lemma PushAllFromEmpty<T>(xs: seq<T>, n: nat)
    ensures PushAll([], xs, Some(n)) == Bounded(xs, Some(n))
  {
    PushAllKeepsMostRecent([], xs, Some(n));
    assert [] + xs == xs;
  }

  /** The most recent `n` items of `xs` are its last `min(|xs|, n)` items. */
  lemma BoundedIsTail<T>(xs: seq<T>, n: nat, k: nat)
    requires k == if |xs| <= n then |xs| else n
    ensures Bounded(xs, Some(n)) == xs[|xs| - k..]
  {
  }

  /**
    * Round trip: appending `xs` to an empty deque of capacity `n` and then
    * reading `min(|xs|, n)` times returns the most recent items in the order
    * they were appended and empties the deque. With `|xs| <= n` that is all of
    * `xs`; with `n + K` items it is the last `n`, the oldest `K` evicted.
    */
  lemma PushThenPopInOrder<T>(xs: seq<T>, n: nat, k: nat)
    requires k == if |xs| <= n then |xs| else n
    ensures |PopMany(PushAll([], xs, Some(n)), k).0| == k
    ensures forall i :: 0 <= i < k ==> PopMany(PushAll([], xs, Some(n)), k).0[i] == Some(xs[|xs| - k + i])
    ensures PopMany(PushAll([], xs, Some(n)), k).1 == []
  {
    PushAllFromEmpty(xs, n);
    BoundedIsTail(xs, n, k);
    PopManyInOrder(xs[|xs| - k..], k);
  }

}
