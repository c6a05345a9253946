/** The mutable validator set: a vector of keys kept in ascending order beside a map of powers. */
module ValidatorSets {
  import opened Types
  import opened Quorums
  import opened UpdateSets

  /** `binary_search_by` over an ascending list: the position of `key`, or where it would go. */
  method BinarySearch(keys: seq<VerifyingKey>, key: VerifyingKey) returns (found: bool, pos: nat)
    requires Ascending(keys)
    ensures pos <= |keys|
    ensures found <==> key in keys
    ensures found ==> pos < |keys| && keys[pos] == key
    ensures forall i | 0 <= i < pos :: keys[i] < key
    ensures forall i | pos <= i < |keys| :: key <= keys[i]
  {
    var lo, hi := 0, |keys|;
    while lo < hi
      invariant 0 <= lo <= hi <= |keys|
      invariant forall i | 0 <= i < lo :: keys[i] < key
      invariant forall i | hi <= i < |keys| :: key <= keys[i]
    {
      var mid := (lo + hi) / 2;
      if keys[mid] < key {
        lo := mid + 1;
      } else {
        hi := mid;
      }
    }
    pos := lo;
    found := pos < |keys| && keys[pos] == key;
  }

  /** Summing one power more leaves one key less. */
  lemma AddOnePower(vs: ValidatorSet, rest: set<VerifyingKey>, k: VerifyingKey)
    requires vs.Valid() && rest <= vs.powers.Keys && k in rest
    ensures PowerOf(vs, vs.powers.Keys - (rest - {k})) == PowerOf(vs, vs.powers.Keys - rest) + vs.powers[k]
  {
    assert k in vs.validators;
    var pos :| 0 <= pos < |vs.validators| && vs.validators[pos] == k;
    PowerAddMember(vs, vs.powers.Keys - rest, pos, |vs.validators|);
    assert vs.powers.Keys - (rest - {k}) == (vs.powers.Keys - rest) + {k};
  }

  lemma SumsToTotal(vs: ValidatorSet)
    requires vs.Valid()
    ensures PowerOf(vs, vs.powers.Keys - vs.powers.Keys) == 0
    ensures PowerOf(vs, vs.powers.Keys - {}) == TotalPower(vs)
  {
    PowerOfNobody(vs, |vs.validators|);
    assert vs.powers.Keys - vs.powers.Keys == {};
    assert vs.powers.Keys - {} == Members(vs);
  }

  class MutableValidatorSet {
    var validators: seq<VerifyingKey>
    var powers: map<VerifyingKey, nat>

    ghost function Value(): ValidatorSet
      reads this
    {
      ValidatorSet(validators, powers)
    }

    constructor ()
      ensures Value() == EMPTY && Value().Valid()
    {
      validators, powers := [], map[];
    }

    constructor From(vs: ValidatorSet)
      ensures Value() == vs
    {
      validators, powers := vs.validators, vs.powers;
    }

    method Put(validator: VerifyingKey, power: nat)
      requires Value().Valid()
      modifies this
      ensures Value().Valid() && powers == old(powers)[validator := power]
    {
      if validator !in powers {
        var found, pos := BinarySearch(validators, validator);
        InsertedInOrder(validators, pos, validator);
        validators := validators[..pos] + [validator] + validators[pos..];
      }
      powers := powers[validator := power];
    }

    method Remove(validator: VerifyingKey) returns (removed: Option<(VerifyingKey, nat)>)
      requires Value().Valid()
      modifies this
      ensures Value().Valid() && powers == old(powers) - {validator}
      ensures removed == if validator in old(powers) then Some((validator, old(powers)[validator])) else None
    {
      var found, pos := BinarySearch(validators, validator);
      if found {
        removed := Some((validator, powers[validator]));
        RemovedInOrder(validators, pos);
        validators := validators[..pos] + validators[pos + 1..];
        powers := powers - {validator};
      } else {
        removed := None;
        assert powers - {validator} == powers;
      }
    }

    method PutAll(entries: map<VerifyingKey, nat>)
      requires Value().Valid()
      modifies this
      ensures Value().Valid() && powers == old(powers) + entries
    {
      var rest := entries;
      while rest != map[]
        invariant Value().Valid()
        invariant powers + rest == old(powers) + entries
        decreases |rest|
      {
        var peer :| peer in rest;
        Put(peer, rest[peer]);
        rest := rest - {peer};
      }
      assert powers + rest == powers;
    }

    method RemoveAll(keys: set<VerifyingKey>)
      requires Value().Valid()
      modifies this
      ensures Value().Valid() && powers == old(powers) - keys
    {
      var rest := keys;
      while rest != {}
        invariant Value().Valid()
        invariant powers - rest == old(powers) - keys
        decreases |rest|
      {
        var peer :| peer in rest;
        var _ := Remove(peer);
        rest := rest - {peer};
      }
      assert powers - rest == powers;
    }

    /** The result does not depend on the order in which the two hash collections are walked. */
    method ApplyUpdates(updates: ValidatorSetUpdates)
      requires Value().Valid()
      modifies this
      ensures Value() == UpdateSets.ApplyUpdates(old(Value()), updates)
    {
      PutAll(updates.inserts);
      RemoveAll(updates.deletes);
      ValidSetIsItsPowers(Value());
    }

    method Position(validator: VerifyingKey) returns (pos: Option<nat>)
      requires Value().Valid()
      ensures pos.Some? <==> validator in powers
      ensures pos.Some? ==> pos.value < |validators| && validators[pos.value] == validator
    {
      var found, p := BinarySearch(validators, validator);
      pos := if found then Some(p) else None;
    }

    /** The map of powers is summed in whatever order it is walked. */
    method ComputeTotalPower() returns (total: nat)
      requires Value().Valid()
      ensures total == TotalPower(Value())
    {
      ghost var vs := Value();
      SumsToTotal(vs);
      total := 0;
      var rest := powers.Keys;
      while rest != {}
        invariant rest <= vs.powers.Keys
        invariant total == PowerOf(vs, vs.powers.Keys - rest)
        decreases |rest|
      {
        var k :| k in rest;
        AddOnePower(vs, rest, k);
        total := total + powers[k];
        rest := rest - {k};
      }
    }

    method ComputeQuorum() returns (quorum: nat)
      requires Value().Valid()
      ensures quorum == Quorum(Value())
      ensures 3 * quorum > 2 * TotalPower(Value()) && 3 * (quorum - 1) <= 2 * TotalPower(Value())
    {
      var total := ComputeTotalPower();
      quorum := total * 2 / 3 + 1;
    }
  }
}
