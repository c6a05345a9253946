/** Block data in the key-value store: a length key and one key per datum. */
module BlockData {
  import opened Types

  /** The length key and the datum keys of one block. */
  datatype Stored = Stored(length: Option<nat>, data: map<nat, Bytes>)

  datatype Read = NoBlock | Data(data: seq<Bytes>) | DatumMissing

  function SetData(data: seq<Bytes>): Stored {
    Stored(Some(|data|), map i: nat | i < |data| :: data[i])
  }

  ghost predicate Complete(s: Stored) {
    s.length.Some? && forall i: nat | i < s.length.value :: i in s.data
  }

  /** `block_data`: the search for a missing datum consumes the iterator from which the data is then collected, so
      what is collected is the part after the point where the search stopped. */
  method ReadData(s: Stored) returns (r: Read)
    ensures s.length.None? <==> r.NoBlock?
    ensures Complete(s) <==> r == Data([])
    ensures s.length.Some? && !Complete(s) ==> r == DatumMissing
  {
    if s.length.None? {
      return NoBlock;
    }
    var next: nat := 0;
    var missing := false;
    while next < s.length.value && !missing
      invariant next <= s.length.value
      invariant missing ==> next > 0 && next - 1 !in s.data
      invariant !missing ==> forall i: nat | i < next :: i in s.data
      decreases s.length.value - next
    {
      missing := next !in s.data;
      next := next + 1;
    }
    if missing {
      return DatumMissing;
    }
    var data := CollectFrom(s, next);
    r := Data(data);
  }

  /** What is left in the iterator after its first `next` items. */
  method CollectFrom(s: Stored, next: nat) returns (data: seq<Bytes>)
    requires s.length.Some? && next <= s.length.value && forall i: nat | next <= i < s.length.value :: i in s.data
    ensures |data| == s.length.value - next
    ensures forall i: nat | i < |data| :: data[i] == s.data[next + i]
  {
    data := [];
    for i := next to s.length.value
      invariant |data| == i - next
      invariant forall j: nat | j < |data| :: data[j] == s.data[next + j]
    {
      data := data + [s.data[i]];
    }
  }

  /** Writing a block's data and reading it back returns the data if and only if there was none. */
  method RoundTrip(data: seq<Bytes>) returns (r: Read)
    ensures r == Data(data) <==> data == []
    ensures r == Data([])
  {
    var s := SetData(data);
    assert Complete(s);
    r := ReadData(s);
  }
}
