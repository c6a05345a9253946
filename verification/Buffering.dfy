/** The contents of the message buffer as one list in order of view and arrival, and what insertion and
    eviction do to it. */
module Buffering {
  import opened Types

  datatype Progress = Progress(view: nat, size: nat, payload: nat)
  datatype Entry = Entry(sender: VerifyingKey, message: Progress)
  type Queues = map<nat, seq<Entry>>

  ghost predicate IsGreatest(keys: set<nat>, m: nat) {
    m in keys && forall k | k in keys :: k <= m
  }

  lemma {:induction false} GreatestExists(keys: set<nat>)
    requires keys != {}
    ensures exists m :: IsGreatest(keys, m)
  {
    var k :| k in keys;
    var others := keys - {k};
    assert keys == others + {k};
    if others == {} {
      assert IsGreatest(keys, k);
    } else {
      GreatestExists(others);
      var g :| IsGreatest(others, g);
      assert IsGreatest(keys, if g < k then k else g);
    }
  }

  function Highest(keys: set<nat>): (m: nat)
    requires keys != {}
    ensures m in keys && forall k | k in keys :: k <= m
  {
    GreatestExists(keys);
    assert exists m :: m in keys && forall k | k in keys :: k <= m by {
      var m :| IsGreatest(keys, m);
      assert m in keys;
    }
    var m :| m in keys && forall k | k in keys :: k <= m;
    m
  }

  lemma HighestIs(keys: set<nat>, m: nat)
    requires m in keys && forall k | k in keys :: k <= m
    ensures Highest(keys) == m
  {
  }

  /** Lowest view first, and each view's messages in order of arrival. */
  function Contents(q: Queues): seq<Entry>
    decreases |q|
  {
    if q == map[] then []
    else
      var top: nat := Highest(q.Keys);
      Contents(q - {top}) + q[top]
  }

  /** Every message is queued under its view. */
  ghost predicate Labelled(q: Queues) {
    forall v, i | v in q && 0 <= i < |q[v]| :: q[v][i].message.view == v
  }

  ghost predicate InViewOrder(s: seq<Entry>) {
    forall i, j | 0 <= i <= j < |s| :: s[i].message.view <= s[j].message.view
  }

  lemma {:induction false} ContentsAreOrdered(q: Queues)
    requires Labelled(q)
    ensures InViewOrder(Contents(q))
    ensures forall i | 0 <= i < |Contents(q)| :: Contents(q)[i].message.view in q
    decreases |q|
  {
    if q != map[] {
      ContentsAreOrdered(q - {Highest(q.Keys)});
    }
  }

  // ---------------------------------------------------------------------------------------------------
  // Sizes

  function EntrySize(keySize: nat, e: Entry): nat {
    keySize + e.message.size
  }

  function TotalSize(keySize: nat, s: seq<Entry>): nat {
    if s == [] then 0 else TotalSize(keySize, s[..|s| - 1]) + EntrySize(keySize, s[|s| - 1])
  }

  lemma {:induction false} SizeOfConcatenation(keySize: nat, s: seq<Entry>, t: seq<Entry>)
    ensures TotalSize(keySize, s + t) == TotalSize(keySize, s) + TotalSize(keySize, t)
    decreases |t|
  {
    if t == [] {
      assert s + t == s;
    } else {
      SizeOfConcatenation(keySize, s, t[..|t| - 1]);
      assert (s + t)[..|s + t| - 1] == s + t[..|t| - 1];
    }
  }

  // ---------------------------------------------------------------------------------------------------
  // Eviction

  /** How many messages stay when messages are dropped from the end until `bytes` bytes are free. */
  function Cut(keySize: nat, s: seq<Entry>, bytes: int): (n: nat)
    ensures n <= |s|
  {
    if bytes <= 0 || s == [] then |s|
    else Cut(keySize, s[..|s| - 1], bytes - EntrySize(keySize, s[|s| - 1]))
  }

  lemma SizeOfSuffix(keySize: nat, s: seq<Entry>, n: nat)
    requires n < |s|
    ensures TotalSize(keySize, s[n..]) == TotalSize(keySize, s[..|s| - 1][n..]) + EntrySize(keySize, s[|s| - 1])
  {
    assert s[n..][..|s| - n - 1] == s[..|s| - 1][n..];
  }

  /** Just enough is dropped: the dropped messages free the bytes, unless all are dropped, and without the last one
      dropped they would not. */
  lemma {:induction false} CutDropsJustEnough(keySize: nat, s: seq<Entry>, bytes: int)
    ensures Cut(keySize, s, bytes) == 0 || TotalSize(keySize, s[Cut(keySize, s, bytes)..]) >= bytes
    ensures Cut(keySize, s, bytes) < |s| ==> TotalSize(keySize, s[Cut(keySize, s, bytes) + 1..]) < bytes
  {
    if bytes > 0 && s != [] {
      var n := Cut(keySize, s, bytes);
      var front := s[..|s| - 1];
      CutDropsJustEnough(keySize, front, bytes - EntrySize(keySize, s[|s| - 1]));
      SizeOfSuffix(keySize, s, n);
      if n < |front| {
        SizeOfSuffix(keySize, s, n + 1);
      }
    }
  }

  lemma CutSplitsTotalSize(keySize: nat, s: seq<Entry>, n: nat)
    requires n <= |s|
    ensures TotalSize(keySize, s) == TotalSize(keySize, s[..n]) + TotalSize(keySize, s[n..])
  {
    assert s == s[..n] + s[n..];
    SizeOfConcatenation(keySize, s[..n], s[n..]);
  }

  /** No message that stays in the buffer has a higher view than one that is dropped. */
  lemma EvictionPrefersHighViews(keySize: nat, q: Queues, bytes: int, i: nat, j: nat)
    requires Labelled(q) && i < Cut(keySize, Contents(q), bytes) <= j < |Contents(q)|
    ensures Contents(q)[i].message.view <= Contents(q)[j].message.view
  {
    ContentsAreOrdered(q);
  }

  /** All views above `v` are drained. */
  ghost predicate DrainedAbove(q: Queues, v: nat) {
    forall w | w in q && v < w :: q[w] == []
  }

  lemma {:induction false} RemoveDrained(q: Queues, v: nat)
    requires v in q && q[v] == []
    ensures Contents(q - {v}) == Contents(q)
    decreases |q|
  {
    var top: nat := Highest(q.Keys);
    if v != top {
      RemoveDrained(q - {top}, v);
      assert (q - {top}) - {v} == (q - {v}) - {top};
      HighestIs((q - {v}).Keys, top);
      assert (q - {v})[top] == q[top];
    }
  }

  /** Replacing a queue and setting the highest view aside commute. */
  lemma ReplaceBelow(q: Queues, v: nat, queue: seq<Entry>, top: nat)
    requires v in q
    ensures q[v := queue].Keys == q.Keys
    ensures q[v := queue] - {top} == if v == top then q - {top} else (q - {top})[v := queue]
  {
  }

  /** The contents, with the highest view's messages at the end. */
  lemma ContentsAre(q: Queues, top: nat)
    requires top in q && forall v | v in q :: v <= top
    ensures Contents(q) == Contents(q - {top}) + q[top]
  {
    HighestIs(q.Keys, top);
  }

  /** Popping the back of the highest view that is not drained pops the last message of the contents. */
  lemma {:induction false} PopHighest(q: Queues, v: nat, front: seq<Entry>, last: Entry)
    requires v in q && q[v] == front + [last] && DrainedAbove(q, v)
    ensures Contents(q) == Contents(q[v := front]) + [last]
    decreases |q|
  {
    var top: nat := Highest(q.Keys);
    ReplaceBelow(q, v, front, top);
    ContentsAre(q, top);
    ContentsAre(q[v := front], top);
    if v != top {
      PopHighest(q - {top}, v, front, last);
    }
  }

  // ---------------------------------------------------------------------------------------------------
  // Insertion

  /** `e` goes behind the messages of its own view and of lower views. */
  function Placed(s: seq<Entry>, e: Entry): seq<Entry> {
    if s == [] || s[|s| - 1].message.view <= e.message.view then s + [e]
    else Placed(s[..|s| - 1], e) + [s[|s| - 1]]
  }

  lemma {:induction false} PlacedTotalSize(keySize: nat, s: seq<Entry>, e: Entry)
    ensures |Placed(s, e)| == |s| + 1
    ensures TotalSize(keySize, Placed(s, e)) == TotalSize(keySize, s) + EntrySize(keySize, e)
  {
    if s == [] || s[|s| - 1].message.view <= e.message.view {
      assert (s + [e])[..|s|] == s;
    } else {
      PlacedTotalSize(keySize, s[..|s| - 1], e);
      assert (Placed(s[..|s| - 1], e) + [s[|s| - 1]])[..|s|] == Placed(s[..|s| - 1], e);
    }
  }

  /** A message goes right behind all messages of its view and of lower ones: messages of one view stay in the order in
      which they came. */
  lemma {:induction false} PlacedInOrder(s: seq<Entry>, e: Entry) returns (i: nat)
    requires InViewOrder(s)
    ensures i <= |s| && Placed(s, e) == s[..i] + [e] + s[i..]
    ensures forall j | 0 <= j < |s| :: s[j].message.view <= e.message.view <==> j < i
  {
    if s == [] || s[|s| - 1].message.view <= e.message.view {
      i := |s|;
    } else {
      var front := s[..|s| - 1];
      i := PlacedInOrder(front, e);
      assert s == front + [s[|s| - 1]];
      assert s[..i] == front[..i] && s[i..] == front[i..] + [s[|s| - 1]];
      forall j | 0 <= j < |s| ensures s[j].message.view <= e.message.view <==> j < i {
        assert j < |front| ==> s[j] == front[j];
      }
    }
  }

  /** Placing behind a block of messages of higher views. */
  lemma {:induction false} PlacedBelow(s: seq<Entry>, t: seq<Entry>, e: Entry)
    requires forall i | 0 <= i < |t| :: t[i].message.view > e.message.view
    ensures Placed(s + t, e) == Placed(s, e) + t
    decreases |t|
  {
    if t == [] {
      assert s + t == s;
    } else {
      PlacedBelow(s, t[..|t| - 1], e);
      assert (s + t)[..|s + t| - 1] == s + t[..|t| - 1];
      assert t == t[..|t| - 1] + [t[|t| - 1]];
    }
  }

  lemma AppendedLast(s: seq<Entry>, e: Entry)
    requires forall i | 0 <= i < |s| :: s[i].message.view <= e.message.view
    ensures Placed(s, e) == s + [e]
  {
  }

  /** Appending to the queue of its view places a message in the contents. */
  lemma {:induction false} QueuedIsPlaced(q: Queues, e: Entry)
    requires Labelled(q) && e.message.view in q
    ensures Contents(q[e.message.view := q[e.message.view] + [e]]) == Placed(Contents(q), e)
    decreases |q|
  {
    var v := e.message.view;
    var q' := q[v := q[v] + [e]];
    var top: nat := Highest(q.Keys);
    assert q'.Keys == q.Keys;
    if v == top {
      assert q' - {top} == q - {top};
      ContentsAreOrdered(q);
      AppendedLast(Contents(q), e);
    } else {
      QueuedIsPlaced(q - {top}, e);
      assert q' - {top} == (q - {top})[v := q[v] + [e]];
      PlacedBelow(Contents(q - {top}), q[top], e);
    }
  }

  /** Messages at or above `view`. */
  function From(s: seq<Entry>, view: nat): seq<Entry> {
    if s == [] then []
    else From(s[..|s| - 1], view) + if s[|s| - 1].message.view >= view then [s[|s| - 1]] else []
  }

  /** In view order, expiry cuts off a prefix: exactly the messages of lower views. */
  lemma {:induction false} FromIsSuffix(s: seq<Entry>, view: nat) returns (i: nat)
    requires InViewOrder(s)
    ensures i <= |s| && From(s, view) == s[i..]
    ensures forall j | 0 <= j < |s| :: s[j].message.view < view <==> j < i
  {
    if s == [] || s[|s| - 1].message.view < view {
      i := |s|;
      FromDropsAll(s, view);
    } else {
      var front := s[..|s| - 1];
      i := FromIsSuffix(front, view);
      assert s[i..] == front[i..] + [s[|s| - 1]];
      forall j | 0 <= j < |s| ensures s[j].message.view < view <==> j < i {
        assert j < |front| ==> s[j] == front[j];
      }
    }
  }

  lemma {:induction false} FromDropsAll(s: seq<Entry>, view: nat)
    requires forall j | 0 <= j < |s| :: s[j].message.view < view
    ensures From(s, view) == []
  {
    if s != [] {
      FromDropsAll(s[..|s| - 1], view);
    }
  }

  lemma {:induction false} FromConcatenation(s: seq<Entry>, t: seq<Entry>, view: nat)
    ensures From(s + t, view) == From(s, view) + From(t, view)
    decreases |t|
  {
    if t == [] {
      assert s + t == s;
    } else {
      FromConcatenation(s, t[..|t| - 1], view);
      assert (s + t)[..|s + t| - 1] == s + t[..|t| - 1];
    }
  }

  lemma {:induction false} FromUniform(s: seq<Entry>, v: nat, view: nat)
    requires forall i | 0 <= i < |s| :: s[i].message.view == v
    ensures From(s, view) == if v >= view then s else []
  {
    if s != [] {
      FromUniform(s[..|s| - 1], v, view);
    }
  }

  lemma {:induction false} FromTotalSize(keySize: nat, s: seq<Entry>, view: nat)
    ensures TotalSize(keySize, From(s, view)) <= TotalSize(keySize, s) && |From(s, view)| <= |s|
  {
    if s != [] {
      var front, last := s[..|s| - 1], s[|s| - 1];
      FromTotalSize(keySize, front, view);
      if last.message.view >= view {
        assert (From(front, view) + [last])[..|From(front, view)|] == From(front, view);
      } else {
        assert From(front, view) + [] == From(front, view);
      }
    }
  }

  /** `split_off`: the queues at or above `view`. */
  function SplitOff(q: Queues, view: nat): Queues {
    map v: nat | v in q && v >= view :: q[v]
  }

  lemma {:induction false} SplitOffContents(q: Queues, view: nat)
    requires Labelled(q)
    ensures Contents(SplitOff(q, view)) == From(Contents(q), view)
    decreases |q|
  {
    if q != map[] {
      var top: nat := Highest(q.Keys);
      var below := q - {top};
      SplitOffContents(below, view);
      FromConcatenation(Contents(below), q[top], view);
      FromUniform(q[top], top, view);
      var split := SplitOff(q, view);
      if top >= view {
        HighestIs(split.Keys, top);
        assert split - {top} == SplitOff(below, view);
      } else {
        assert split == SplitOff(below, view);
      }
    }
  }

  /** Popping the front of a queue takes out the first message of its view. */
  lemma {:induction false} PopFront(q: Queues, v: nat) returns (i: nat)
    requires Labelled(q) && v in q && q[v] != []
    ensures i < |Contents(q)| && Contents(q)[i] == q[v][0]
    ensures Contents(q[v := q[v][1..]]) == Contents(q)[..i] + Contents(q)[i + 1..]
    ensures forall j | 0 <= j < i :: Contents(q)[j].message.view < v
    decreases |q|
  {
    var top: nat := Highest(q.Keys);
    var below := q - {top};
    ReplaceBelow(q, v, q[v][1..], top);
    ContentsAre(q, top);
    ContentsAre(q[v := q[v][1..]], top);
    if v == top {
      ContentsAreOrdered(below);
      i := |Contents(below)|;
    } else {
      i := PopFront(below, v);
    }
  }
}
