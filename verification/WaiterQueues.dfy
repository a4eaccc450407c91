/** The queue of suspended ops shared by `res_queue` and `res_pool`: a deque of op pointers in which a
    cancelled op leaves a null entry (a tombstone) behind. */
module WaiterQueues {
  import opened Base
  import opened Sequences

  /** The ops still waiting, oldest first: the entries, from `i` on, that are not tombstones. */
  function LiveFrom<W>(entries: seq<Option<W>>, i: nat): seq<W>
    requires i <= |entries|
    decreases |entries| - i
  {
    if i == |entries| then []
    else if entries[i].None? then LiveFrom(entries, i + 1)
    else [entries[i].value] + LiveFrom(entries, i + 1)
  }

  function Live<W>(entries: seq<Option<W>>): seq<W> { LiveFrom(entries, 0) }

  lemma {:induction false} LiveOfPush<W>(entries: seq<Option<W>>, w: W, i: nat)
    requires i <= |entries|
    ensures LiveFrom(entries + [Some(w)], i) == LiveFrom(entries, i) + [w]
    decreases |entries| - i
  {
    if i < |entries| { LiveOfPush(entries, w, i + 1); }
  }

  lemma {:induction false} LiveOfTail<W>(entries: seq<Option<W>>, i: nat)
    requires i < |entries|
    ensures LiveFrom(entries[1..], i) == LiveFrom(entries, i + 1)
    decreases |entries| - i
  {
    if i + 1 < |entries| { LiveOfTail(entries, i + 1); }
  }

  lemma {:induction false} LiveUnchanged<W>(a: seq<Option<W>>, b: seq<Option<W>>, i: nat)
    requires |a| == |b| && i <= |a| && forall k :: i <= k < |a| ==> a[k] == b[k]
    ensures LiveFrom(a, i) == LiveFrom(b, i)
    decreases |a| - i
  {
    if i < |a| { LiveUnchanged(a, b, i + 1); }
  }

  /** Marking the first entry of `w` as deleted removes exactly that op from the live ones. */
  lemma {:induction false} TombstoneRemoves<W>(entries: seq<Option<W>>, i: nat, j: nat)
    requires j <= i < |entries| && entries[i].Some?
    requires forall k :: j <= k < i ==> entries[k] != entries[i]
    ensures LiveFrom(entries[i := None], j) == Without(LiveFrom(entries, j), entries[i].value)
    decreases i - j
  {
    var live := LiveFrom(entries, j + 1);
    if j == i {
      LiveUnchanged(entries, entries[i := None], i + 1);
      assert ([entries[i].value] + live)[1..] == live;
    } else {
      TombstoneRemoves(entries, i, j + 1);
      if entries[j].Some? { assert ([entries[j].value] + live)[1..] == live; }
    }
  }

  lemma {:induction false} LiveMember<W>(entries: seq<Option<W>>, w: W, i: nat)
    requires i <= |entries|
    ensures w in LiveFrom(entries, i) <==> Some(w) in entries[i..]
    decreases |entries| - i
  {
    if i < |entries| {
      LiveMember(entries, w, i + 1);
      assert entries[i..] == [entries[i]] + entries[i + 1..];
    }
  }

  class WaiterQueue<W(==)> {
    var entries: seq<Option<W>>
    ghost var live: seq<W>

    ghost predicate Valid() reads this { live == Live(entries) }

    constructor ()
      ensures Valid() && entries == []
    {
      entries, live := [], [];
    }

    method Add(w: W)
      requires Valid()
      modifies this
      ensures Valid() && entries == old(entries) + [Some(w)]
      ensures live == old(live) + [w]
    {
      LiveOfPush(entries, w, 0);
      entries := entries + [Some(w)];
      live := live + [w];
    }

    /** Pops tombstones until a live op is found; the deque is left empty when there is none. */
    method TakeOldest() returns (w: Option<W>)
      requires Valid()
      modifies this
      ensures Valid()
      ensures old(live) == [] ==> w == None && entries == []
      ensures old(live) != [] ==> w == Some(old(live)[0]) && live == old(live)[1..]
    {
      while entries != [] && entries[0].None?
        invariant Valid() && live == old(live)
        decreases |entries|
      {
        LiveOfTail(entries, 0);
        entries := entries[1..];
      }
      if entries == [] {
        return None;
      }
      w := entries[0];
      LiveOfTail(entries, 0);
      entries, live := entries[1..], live[1..];
    }

    /** The whole deque, tombstones included, leaving it empty. */
    method TakeAll() returns (all: seq<Option<W>>)
      requires Valid()
      modifies this
      ensures Valid() && all == old(entries) && entries == []
    {
      all := entries;
      entries, live := [], [];
    }

    /** Linear search for `w`; a found entry becomes a tombstone, so the deque keeps its length. */
    method Erase(w: W) returns (found: bool)
      requires Valid()
      modifies this
      ensures Valid() && |entries| == |old(entries)|
      ensures found <==> w in old(live)
      ensures live == if found then Without(old(live), w) else old(live)
    {
      var i := 0;
      while i < |entries| && entries[i] != Some(w)
        invariant 0 <= i <= |entries|
        invariant forall k :: 0 <= k < i ==> entries[k] != Some(w)
      {
        i := i + 1;
      }
      LiveMember(entries, w, 0);
      assert entries[0..] == entries;
      found := i < |entries|;
      if found {
        TombstoneRemoves(entries, i, 0);
        entries, live := entries[i := None], Without(live, w);
      }
    }
  }
}
