/** Update sets, and what applying them does to the app state and to a validator set. */
module UpdateSets {
  import opened Types
  import opened Quorums

  /** A set decoded from bytes may name a key in both fields. */
  datatype UpdateSet<K, V> = UpdateSet(inserts: map<K, V>, deletes: set<K>)

  type AppStateUpdates = UpdateSet<Bytes, Bytes>
  type ValidatorSetUpdates = UpdateSet<VerifyingKey, nat>

  /** Insertions first, then deletions. */
  function Applied<K, V>(m: map<K, V>, u: UpdateSet<K, V>): map<K, V> {
    (m + u.inserts) - u.deletes
  }

  predicate Ascending(s: seq<VerifyingKey>) {
    forall i, j | 0 <= i < j < |s| :: s[i] < s[j]
  }

  ghost predicate IsLeast(keys: set<VerifyingKey>, m: VerifyingKey) {
    m in keys && forall k | k in keys :: m <= k
  }

  function InOrder(keys: set<VerifyingKey>): (s: seq<VerifyingKey>)
    ensures Ascending(s)
    ensures forall k :: k in s <==> k in keys
  {
    if keys == {} then []
    else
      var least := Least(keys);
      [least] + InOrder(keys - {least})
  }

  function Least(keys: set<VerifyingKey>): (m: VerifyingKey)
    requires keys != {}
    ensures m in keys && forall k | k in keys :: m <= k
  {
    LeastExists(keys);
    assert exists m :: m in keys && forall k | k in keys :: m <= k by {
      var m :| IsLeast(keys, m);
      assert m in keys;
    }
    var m :| m in keys && forall k | k in keys :: m <= k;
    m
  }

  lemma {:induction false} LeastExists(keys: set<VerifyingKey>)
    requires keys != {}
    ensures exists m :: IsLeast(keys, m)
  {
    var k :| k in keys;
    var others := keys - {k};
    assert keys == others + {k};
    if others == {} {
      assert IsLeast(keys, k);
    } else {
      LeastExists(others);
      var l :| IsLeast(others, l);
      assert IsLeast(keys, if k < l then k else l);
    }
  }

  /** An ascending list is determined by its elements. */
  lemma {:induction false} AscendingIsUnique(s: seq<VerifyingKey>, t: seq<VerifyingKey>)
    requires Ascending(s) && Ascending(t)
    requires forall k :: k in s <==> k in t
    ensures s == t
  {
    assert s == [] <==> t == [] by {
      if s != [] { assert s[0] in s; }
      if t != [] { assert t[0] in t; }
    }
    if s != [] {
      assert s[0] in t;
      assert t[0] in s;
      assert s[0] == t[0];
      forall k ensures k in s[1..] <==> k in t[1..] {
        assert k in s <==> k == s[0] || k in s[1..];
        assert k in t <==> k == t[0] || k in t[1..];
      }
      AscendingIsUnique(s[1..], t[1..]);
    }
  }

  lemma InsertedInOrder(s: seq<VerifyingKey>, pos: nat, k: VerifyingKey)
    requires Ascending(s) && pos <= |s|
    requires (forall i | 0 <= i < pos :: s[i] < k) && (forall i | pos <= i < |s| :: k < s[i])
    ensures Ascending(s[..pos] + [k] + s[pos..])
    ensures forall x :: x in s[..pos] + [k] + s[pos..] <==> x in s || x == k
  {
    assert s == s[..pos] + s[pos..];
    assert forall x :: x in s <==> x in s[..pos] || x in s[pos..];
  }

  lemma RemovedInOrder(s: seq<VerifyingKey>, pos: nat)
    requires Ascending(s) && pos < |s|
    ensures Ascending(s[..pos] + s[pos + 1..])
    ensures forall x :: x in s[..pos] + s[pos + 1..] <==> x in s && x != s[pos]
  {
    var r := s[..pos] + s[pos + 1..];
    forall x | x in s && x != s[pos] ensures x in r {
      var i :| 0 <= i < |s| && s[i] == x;
      assert r[if i < pos then i else i - 1] == x;
    }
  }

  /** The validator set with these powers. */
  function WithPowers(powers: map<VerifyingKey, nat>): (vs: ValidatorSet)
    ensures vs.Valid() && vs.powers == powers
  {
    ValidatorSet(InOrder(powers.Keys), powers)
  }

  function ApplyUpdates(vs: ValidatorSet, u: ValidatorSetUpdates): (r: ValidatorSet)
    ensures r.Valid()
  {
    WithPowers(Applied(vs.powers, u))
  }

  lemma ValidSetIsItsPowers(vs: ValidatorSet)
    requires vs.Valid()
    ensures vs == WithPowers(vs.powers)
  {
    AscendingIsUnique(vs.validators, InOrder(vs.powers.Keys));
  }

  /** An update set under construction. */
  class UpdateSetBuilder<K(==), V> {
    var inserts: map<K, V>
    var deletes: set<K>

    ghost function Contents(): UpdateSet<K, V>
      reads this
    {
      UpdateSet(inserts, deletes)
    }

    /** No key is scheduled both ways. */
    ghost predicate Valid()
      reads this
    {
      inserts.Keys !! deletes
    }

    constructor ()
      ensures Valid() && Contents() == UpdateSet(map[], {})
    {
      inserts, deletes := map[], {};
    }

    /** Whatever was scheduled for `key`, applying the set afterwards maps `key` to `value` and treats every
        other key as before. */
    method Insert(key: K, value: V)
      requires Valid()
      modifies this
      ensures Valid()
      ensures forall m: map<K, V> :: Applied(m, Contents()) == Applied(m, old(Contents()))[key := value]
    {
      deletes := deletes - {key};
      inserts := inserts[key := value];
    }

    method Delete(key: K)
      requires Valid()
      modifies this
      ensures Valid()
      ensures forall m: map<K, V> :: Applied(m, Contents()) == Applied(m, old(Contents())) - {key}
    {
      inserts := inserts - {key};
      deletes := deletes + {key};
    }
  }
}
