/** The bounded, view-ordered buffer for messages of future views. */
module MessageBuffer {
  import opened Types
  import opened Buffering

  const U64_MAX: nat := 0xFFFF_FFFF_FFFF_FFFF

  /** What is stored, together with the bytes that were consumed and are still counted, fits the capacity; or a single
      message is stored. */
  ghost predicate Fits(keySize: nat, capacity: nat, consumed: nat, s: seq<Entry>) {
    consumed + TotalSize(keySize, s) <= capacity || |s| <= 1
  }

  /** The contents after an insertion into a buffer that believes to hold `size` bytes. */
  function Inserted(keySize: nat, capacity: nat, size: nat, s: seq<Entry>, e: Entry): seq<Entry> {
    var requested := EntrySize(keySize, e);
    Placed(if size + requested > capacity then s[..Cut(keySize, s, requested)] else s, e)
  }

  lemma InsertedFits(keySize: nat, capacity: nat, consumed: nat, s: seq<Entry>, e: Entry)
    requires keySize > 0 && Fits(keySize, capacity, consumed, s)
    ensures Fits(keySize, capacity, consumed, Inserted(keySize, capacity, consumed + TotalSize(keySize, s), s, e))
  {
    var requested := EntrySize(keySize, e);
    if consumed + TotalSize(keySize, s) + requested > capacity {
      var n := Cut(keySize, s, requested);
      CutDropsJustEnough(keySize, s, requested);
      CutSplitsTotalSize(keySize, s, n);
      PlacedTotalSize(keySize, s[..n], e);
      assert s[|s|..] == [];
    } else {
      PlacedTotalSize(keySize, s, e);
    }
  }

  /** An insertion drops messages exactly when the new message does not fit, from the high end, and just enough
      of them: the dropped ones make room for the message, unless all are dropped, and without the last one
      dropped they would not. The message then goes behind those of its view and of lower ones. */
  lemma InsertedDropsJustEnough(keySize: nat, capacity: nat, size: nat, s: seq<Entry>, e: Entry)
      returns (n: nat, i: nat)
    requires keySize > 0 && InViewOrder(s)
    ensures i <= n <= |s| && Inserted(keySize, capacity, size, s, e) == s[..i] + [e] + s[i..n]
    ensures forall j | 0 <= j < n :: s[j].message.view <= e.message.view <==> j < i
    ensures size + keySize + e.message.size <= capacity ==> n == |s|
    ensures size + keySize + e.message.size > capacity ==>
      && (n == 0 || TotalSize(keySize, s[n..]) >= keySize + e.message.size)
      && (n < |s| ==> TotalSize(keySize, s[n + 1..]) < keySize + e.message.size)
  {
    var requested := EntrySize(keySize, e);
    n := if size + requested > capacity then Cut(keySize, s, requested) else |s|;
    CutDropsJustEnough(keySize, s, requested);
    assert s[..|s|] == s;
    i := PlacedInOrder(s[..n], e);
    assert s[..n][..i] == s[..i] && s[..n][i..] == s[i..n];
    forall j | 0 <= j < n ensures s[j].message.view <= e.message.view <==> j < i {
      assert s[j] == s[..n][j];
    }
  }

  /** The 64-bit size field overflows in an insertion if and only if the bytes that were taken or expired, and are still
      counted, exceed 2^64 - 1 together with the new message: evicted messages always make enough room for it. */
  lemma SizeOverflowsExactlyWhen(keySize: nat, capacity: nat, size: nat, s: seq<Entry>, e: Entry)
    requires TotalSize(keySize, s) <= size <= U64_MAX && capacity <= U64_MAX
    ensures
      var drift, requested := size - TotalSize(keySize, s), EntrySize(keySize, e);
      var after := drift + TotalSize(keySize, Inserted(keySize, capacity, size, s, e));
      after > U64_MAX <==> drift + requested > U64_MAX
  {
    var requested := EntrySize(keySize, e);
    if size + requested > capacity {
      var n := Cut(keySize, s, requested);
      CutDropsJustEnough(keySize, s, requested);
      CutSplitsTotalSize(keySize, s, n);
      PlacedTotalSize(keySize, s[..n], e);
      assert s[..0] == [];
    } else {
      PlacedTotalSize(keySize, s, e);
    }
  }

  lemma CutPastLast(keySize: nat, s: seq<Entry>, last: Entry, bytes: int)
    requires bytes > 0
    ensures Cut(keySize, s + [last], bytes) == Cut(keySize, s, bytes - EntrySize(keySize, last))
    ensures TotalSize(keySize, s + [last]) == TotalSize(keySize, s) + EntrySize(keySize, last)
  {
    assert (s + [last])[..|s|] == s;
  }

  /** `now` is what is left of `all` after dropping `removed` bytes from the end, on the way to `bytes`. */
  ghost predicate Evicting(keySize: nat, all: seq<Entry>, bytes: nat, now: seq<Entry>, removed: nat) {
    && now <= all && removed + TotalSize(keySize, now) == TotalSize(keySize, all)
    && Cut(keySize, all, bytes) == Cut(keySize, now, bytes - removed)
  }

  lemma EvictOne(
      keySize: nat, all: seq<Entry>, bytes: nat, q: Queues, view: nat, front: seq<Entry>, last: Entry, removed: nat)
    requires Evicting(keySize, all, bytes, Contents(q), removed) && removed < bytes
    requires view in q && q[view] == front + [last] && DrainedAbove(q, view)
    ensures Evicting(keySize, all, bytes, Contents(q[view := front]), removed + EntrySize(keySize, last))
  {
    PopHighest(q, view, front, last);
    CutPastLast(keySize, Contents(q[view := front]), last, bytes - removed);
  }

  /** Where the eviction loop stands: `pending` are the views not reached yet, `gone` those found or left empty.
      Only the last view reached can be neither, once enough has been removed. */
  ghost predicate Scan(before: Queues, now: Queues, pending: set<nat>, gone: set<nat>, enough: bool) {
    && now.Keys == before.Keys && pending <= now.Keys && gone <= now.Keys && pending !! gone
    && (forall v | v in pending :: now[v] == before[v])
    && (forall v | v in gone :: now[v] == [])
    && (forall v, w | v in pending && w in now && w !in pending :: v < w)
    && (forall w | w in now && w !in pending && w !in gone :: enough && now[w] != [] && forall v | v in gone :: w < v)
  }

  lemma ScanStep(
      before: Queues, now: Queues, pending: set<nat>, gone: set<nat>, view: nat, queue: seq<Entry>, enough: bool)
    requires Scan(before, now, pending, gone, false)
    requires view in pending && (forall v | v in pending :: v <= view) && (!enough ==> queue == [])
    ensures DrainedAbove(now, view)
    ensures Scan(before, now[view := queue], pending - {view}, if queue == [] then gone + {view} else gone, enough)
  {
  }

  lemma ScanEnds(before: Queues, now: Queues, pending: set<nat>, gone: set<nat>, enough: bool)
    requires Scan(before, now, pending, gone, enough)
    ensures forall v, w | v in before && v !in now - gone && w in now - gone :: w < v
    ensures forall v | v in now - gone :: v in before && ((now - gone)[v] == [] ==> before[v] == [])
    ensures !enough && pending == {} ==> now - gone == map[]
    ensures Contents(now - gone) == Contents(now)
  {
    RemoveAllDrained(now, gone);
  }

  class ProgressMessageBuffer {
    /** Size of a verifying key in memory. */
    const keySize: nat
    const capacity: nat
    var buffer: Queues
    var size: nat
    /** Bytes of all messages that were taken or have expired since the start. */
    ghost var consumed: nat

    ghost function Messages(): seq<Entry>
      reads this
    {
      Contents(buffer)
    }

    ghost function Stored(): nat
      reads this
    {
      TotalSize(keySize, Messages())
    }

    /** `size` still counts what was consumed, so the capacity leaks: what is stored fits the capacity less everything
        ever consumed, or is a single message. */
    ghost predicate Valid()
      reads this
    {
      && keySize > 0 && capacity <= U64_MAX
      && Labelled(buffer)
      && size == Stored() + consumed
      && Fits(keySize, capacity, consumed, Messages())
    }

    constructor (keySize: nat, capacity: nat)
      requires keySize > 0 && capacity <= U64_MAX
      ensures Valid() && Messages() == [] && this.keySize == keySize && this.capacity == capacity
      ensures size == consumed == 0
    {
      this.keySize, this.capacity := keySize, capacity;
      buffer, size, consumed := map[], 0, 0;
    }

    /** The message goes in unless the buffer would be overloaded and its view is not below the highest buffered view.
        An overloaded buffer first drops just enough messages from the high end. */
    method Insert(message: Progress, sender: VerifyingKey) returns (inserted: bool)
      requires Valid()
      modifies this
      ensures Valid()
      ensures inserted <==>
        || old(size) + EntrySize(keySize, Entry(sender, message)) <= capacity
        || old(buffer) == map[] || message.view < Highest(old(buffer).Keys)
      ensures Messages() ==
        if inserted then Inserted(keySize, capacity, old(size), old(Messages()), Entry(sender, message))
        else old(Messages())
      ensures consumed == old(consumed)
      ensures !inserted ==> buffer == old(buffer)
    {
      var requested := keySize + message.size;
      var overloaded := size + requested > U64_MAX || size + requested > capacity;
      var worthCaching := buffer == map[] || message.view < Highest(buffer.Keys);
      inserted := !overloaded || worthCaching;
      ghost var all := Messages();
      InsertedFits(keySize, capacity, consumed, all, Entry(sender, message));
      if overloaded && worthCaching {
        RemoveHighestViewedMsgs(requested);
      }
      if inserted {
        ghost var kept := Messages();
        Append(Entry(sender, message));
        size := size + requested;
        PlacedTotalSize(keySize, kept, Entry(sender, message));
      }
    }

    method Append(e: Entry)
      requires Labelled(buffer)
      modifies this`buffer
      ensures Labelled(buffer) && Messages() == Placed(old(Messages()), e)
    {
      var view := e.message.view;
      if view !in buffer {
        ghost var before := buffer;
        buffer := buffer[view := []];
        assert buffer - {view} == before;
        RemoveDrained(buffer, view);
      }
      QueuedIsPlaced(buffer, e);
      buffer := buffer[view := buffer[view] + [e]];
    }

    /** The first message of `view` comes out; its queue stays behind, even if empty, and `size` is not lowered. */
    method GetMsg(view: nat) returns (r: Option<Entry>)
      requires Valid()
      modifies this
      ensures Valid() && size == old(size)
      ensures r.None? <==> forall i | 0 <= i < |old(Messages())| :: old(Messages())[i].message.view != view
      ensures r.None? ==> buffer == old(buffer)
      ensures r.Some? ==> exists i ::
        && 0 <= i < |old(Messages())| && old(Messages())[i] == r.value && r.value.message.view == view
        && (forall j | 0 <= j < i :: old(Messages())[j].message.view < view)
        && Messages() == old(Messages())[..i] + old(Messages())[i + 1..]
      ensures consumed == old(consumed) + if r.Some? then EntrySize(keySize, r.value) else 0
    {
      if view in buffer && buffer[view] != [] {
        r := Some(buffer[view][0]);
        ghost var i := PopFront(buffer, view);
        TakenSize(keySize, Messages(), i);
        assert old(Messages())[i].message.view == view;
        buffer := buffer[view := buffer[view][1..]];
        consumed := consumed + EntrySize(keySize, r.value);
      } else {
        r := None;
        NoneOfView(buffer, view);
      }
    }

    /** Drops messages from the highest views down, newest first within a view, until `bytes` bytes are free or
        nothing is left; the subtraction from `size` does not underflow. */
    method RemoveHighestViewedMsgs(bytes: nat)
      requires Labelled(buffer) && Stored() <= size
      modifies this`buffer, this`size
      ensures Labelled(buffer)
      ensures Messages() == old(Messages())[..Cut(keySize, old(Messages()), bytes)]
      ensures size - Stored() == old(size - Stored())
      ensures forall v, w | v in old(buffer) && v !in buffer && w in buffer :: w < v
      ensures forall v | v in buffer :: v in old(buffer) && (buffer[v] == [] ==> old(buffer)[v] == [])
    {
      var removed: nat := 0;
      var viewsRemoved: set<nat> := {};
      var pending := buffer.Keys;
      ghost var all := Messages();
      while removed < bytes && pending != {}
        invariant Scan(old(buffer), buffer, pending, viewsRemoved, removed >= bytes)
        invariant Labelled(buffer) && size == old(size)
        invariant Evicting(keySize, all, bytes, Messages(), removed)
        decreases |pending|
      {
        removed, pending, viewsRemoved := VisitHighest(bytes, removed, pending, viewsRemoved, old(buffer), all);
      }
      size := size - removed;
      ScanEnds(old(buffer), buffer, pending, viewsRemoved, removed >= bytes);
      buffer := buffer - viewsRemoved;
    }

    /** One round of the eviction loop: the highest view that is left. */
    method VisitHighest(
        bytes: nat, removedSoFar: nat, pending: set<nat>, gone: set<nat>, ghost before: Queues, ghost all: seq<Entry>)
        returns (removed: nat, pending': set<nat>, gone': set<nat>)
      requires Scan(before, buffer, pending, gone, false) && pending != {}
      requires Labelled(buffer) && Evicting(keySize, all, bytes, Messages(), removedSoFar)
      modifies this`buffer
      ensures Scan(before, buffer, pending', gone', removed >= bytes)
      ensures Labelled(buffer) && Evicting(keySize, all, bytes, Messages(), removed)
      ensures |pending'| < |pending|
    {
      var view: nat := Highest(pending);
      ScanStep(before, buffer, pending, gone, view, [], false);
      removed := PopFromView(view, bytes, removedSoFar, all);
      ScanStep(before, old(buffer), pending, gone, view, buffer[view], removed >= bytes);
      pending' := pending - {view};
      gone' := if buffer[view] == [] then gone + {view} else gone;
    }

    /** Pops messages of `view` from the back while more bytes are needed. */
    method PopFromView(view: nat, bytes: nat, removedSoFar: nat, ghost all: seq<Entry>) returns (removed: nat)
      requires Labelled(buffer) && view in buffer && DrainedAbove(buffer, view)
      requires Evicting(keySize, all, bytes, Messages(), removedSoFar)
      modifies this`buffer
      ensures view in buffer && buffer == old(buffer)[view := buffer[view]] && Labelled(buffer)
      ensures removed < bytes ==> buffer[view] == []
      ensures Evicting(keySize, all, bytes, Messages(), removed)
    {
      removed := removedSoFar;
      while removed < bytes && buffer[view] != []
        invariant view in buffer && buffer == old(buffer)[view := buffer[view]] && Labelled(buffer)
        invariant Evicting(keySize, all, bytes, Messages(), removed)
        decreases |buffer[view]|
      {
        var n := |buffer[view]| - 1;
        var front, last := buffer[view][..n], buffer[view][n];
        EvictOne(keySize, all, bytes, buffer, view, front, last, removed);
        removed := removed + keySize + last.message.size;
        buffer := buffer[view := front];
      }
    }

    method RemoveExpiredMsgs(curView: nat)
      requires Valid()
      modifies this
      ensures Valid() && size == old(size)
      ensures Messages() == From(old(Messages()), curView)
      ensures consumed == old(consumed) + (old(Stored()) - Stored())
    {
      SplitOffContents(buffer, curView);
      FromTotalSize(keySize, Messages(), curView);
      buffer := SplitOff(buffer, curView);
      consumed := consumed + (old(Stored()) - Stored());
    }
  }

  lemma {:induction false} RemoveAllDrained(q: Queues, views: set<nat>)
    requires forall v | v in views :: v in q && q[v] == []
    ensures Contents(q - views) == Contents(q)
    decreases |views|
  {
    if views == {} {
      assert q - views == q;
    } else {
      var v :| v in views;
      RemoveDrained(q, v);
      RemoveAllDrained(q - {v}, views - {v});
      assert (q - {v}) - (views - {v}) == q - views;
    }
  }

  lemma TakenSize(keySize: nat, s: seq<Entry>, i: nat)
    requires i < |s|
    ensures TotalSize(keySize, s[..i] + s[i + 1..]) + EntrySize(keySize, s[i]) == TotalSize(keySize, s)
  {
    CutSplitsTotalSize(keySize, s, i + 1);
    SizeOfConcatenation(keySize, s[..i], s[i + 1..]);
    assert s[..i + 1][..i] == s[..i];
  }

  lemma {:induction false} NoneOfView(q: Queues, view: nat)
    requires Labelled(q) && (view in q ==> q[view] == [])
    ensures forall i | 0 <= i < |Contents(q)| :: Contents(q)[i].message.view != view
    decreases |q|
  {
    if q != map[] {
      NoneOfView(q - {Highest(q.Keys)}, view);
    }
  }
}
