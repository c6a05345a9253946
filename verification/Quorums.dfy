/** Validator sets as values, voting power, and the weighted quorum intersection argument. */
module Quorums {
  import opened Types

  datatype ValidatorSet = ValidatorSet(validators: seq<VerifyingKey>, powers: map<VerifyingKey, nat>) {

    /** Keys are listed in strictly ascending order, and the list and the map name the same keys. */
    ghost predicate Valid() {
      && (forall i, j | 0 <= i < j < |validators| :: validators[i] < validators[j])
      && (forall k :: k in validators <==> k in powers)
    }

    predicate Contains(k: VerifyingKey) {
      k in powers
    }

    function Power(k: VerifyingKey): nat {
      if k in powers then powers[k] else 0
    }
  }

  const EMPTY := ValidatorSet([], map[])

  /** Power that the members of `keys` hold among the first `n` validators. */
  function PowerUpTo(vs: ValidatorSet, keys: set<VerifyingKey>, n: nat): nat
    requires n <= |vs.validators|
  {
    if n == 0 then 0
    else PowerUpTo(vs, keys, n - 1) + if vs.validators[n - 1] in keys then vs.Power(vs.validators[n - 1]) else 0
  }

  function PowerOf(vs: ValidatorSet, keys: set<VerifyingKey>): nat {
    PowerUpTo(vs, keys, |vs.validators|)
  }

  function Members(vs: ValidatorSet): set<VerifyingKey> {
    set k | k in vs.validators
  }

  function TotalPower(vs: ValidatorSet): nat {
    PowerOf(vs, Members(vs))
  }

  function Quorum(vs: ValidatorSet): nat {
    TotalPower(vs) * 2 / 3 + 1
  }

  lemma {:induction false} PowerMonotone(vs: ValidatorSet, s: set<VerifyingKey>, t: set<VerifyingKey>, n: nat)
    requires n <= |vs.validators|
    requires forall k | k in s && k in vs.validators :: k in t
    ensures PowerUpTo(vs, s, n) <= PowerUpTo(vs, t, n)
  {
    if n > 0 {
      PowerMonotone(vs, s, t, n - 1);
      assert vs.validators[n - 1] in vs.validators;
    }
  }

  lemma {:induction false} PowerInclusionExclusion(vs: ValidatorSet, s: set<VerifyingKey>, t: set<VerifyingKey>, n: nat)
    requires n <= |vs.validators|
    ensures PowerUpTo(vs, s, n) + PowerUpTo(vs, t, n) == PowerUpTo(vs, s + t, n) + PowerUpTo(vs, s * t, n)
  {
    if n > 0 {
      PowerInclusionExclusion(vs, s, t, n - 1);
    }
  }

  /** Adding one validator to a set that lacks it adds exactly its power. */
  lemma {:induction false} PowerAddMember(vs: ValidatorSet, s: set<VerifyingKey>, pos: nat, n: nat)
    requires vs.Valid() && pos < |vs.validators| && n <= |vs.validators|
    requires vs.validators[pos] !in s
    ensures PowerUpTo(vs, s + {vs.validators[pos]}, n)
         == PowerUpTo(vs, s, n) + if pos < n then vs.Power(vs.validators[pos]) else 0
  {
    if n > 0 {
      PowerAddMember(vs, s, pos, n - 1);
      assert n - 1 != pos ==> vs.validators[n - 1] != vs.validators[pos];
    }
  }

  ghost predicate ByzantineBound(vs: ValidatorSet, honest: set<VerifyingKey>) {
    3 * PowerOf(vs, Members(vs) - honest) <= TotalPower(vs)
  }

  /** Two quorums share an honest validator when Byzantine validators hold at most a third of the power. */
  lemma QuorumsIntersect(vs: ValidatorSet, honest: set<VerifyingKey>, s: set<VerifyingKey>, t: set<VerifyingKey>)
      returns (k: VerifyingKey)
    requires ByzantineBound(vs, honest)
    requires PowerOf(vs, s) >= Quorum(vs) && PowerOf(vs, t) >= Quorum(vs)
    ensures k in s && k in t && k in honest && k in vs.validators
  {
    var n := |vs.validators|;
    if k' :| k' in s && k' in t && k' in honest && k' in vs.validators {
      return k';
    }
    PowerInclusionExclusion(vs, s, t, n);
    PowerMonotone(vs, s + t, Members(vs), n);
    PowerMonotone(vs, s * t, Members(vs) - honest, n);
    assert false;
  }

  lemma QuorumHasHonest(vs: ValidatorSet, honest: set<VerifyingKey>, s: set<VerifyingKey>) returns (k: VerifyingKey)
    requires ByzantineBound(vs, honest)
    requires PowerOf(vs, s) >= Quorum(vs)
    ensures k in s && k in honest && k in vs.validators
  {
    k := QuorumsIntersect(vs, honest, s, s);
  }

  /** The honest members of a quorum hold at least the quorum minus the Byzantine power. */
  lemma HonestShareOfQuorum(vs: ValidatorSet, honest: set<VerifyingKey>, s: set<VerifyingKey>)
    requires PowerOf(vs, s) >= Quorum(vs)
    ensures PowerOf(vs, s * honest) + PowerOf(vs, Members(vs) - honest) >= Quorum(vs)
  {
    var n := |vs.validators|;
    PowerInclusionExclusion(vs, s * honest, s - honest, n);
    assert s == s * honest + (s - honest);
    assert (s * honest) * (s - honest) == {};
    PowerMonotone(vs, s - honest, Members(vs) - honest, n);
    PowerOfNobody(vs, n);
  }

  /** The quorum is as small as quorum overlap allows: honest validators reach it without any Byzantine help if and only
      if Byzantine validators hold less than a third of the power. */
  lemma HonestReachQuorumExactlyWhen(vs: ValidatorSet, honest: set<VerifyingKey>)
    ensures PowerOf(vs, honest) >= Quorum(vs) <==> 3 * PowerOf(vs, Members(vs) - honest) < TotalPower(vs)
    ensures 3 * Quorum(vs) > 2 * TotalPower(vs) && 3 * (Quorum(vs) - 1) <= 2 * TotalPower(vs)
  {
    var n := |vs.validators|;
    PowerInclusionExclusion(vs, honest, Members(vs) - honest, n);
    assert honest * (Members(vs) - honest) == {};
    PowerOfNobody(vs, n);
    PowerMonotone(vs, honest + (Members(vs) - honest), Members(vs), n);
    PowerMonotone(vs, Members(vs), honest + (Members(vs) - honest), n);
  }

  lemma {:induction false} PowerOfNobody(vs: ValidatorSet, n: nat)
    requires n <= |vs.validators|
    ensures PowerUpTo(vs, {}, n) == 0
  {
    if n > 0 {
      PowerOfNobody(vs, n - 1);
    }
  }

  /** The validators whose positions carry a signature. */
  function Signers(vs: ValidatorSet, signatures: seq<Option<Signature>>): set<VerifyingKey>
    requires |signatures| == |vs.validators|
  {
    set i | 0 <= i < |signatures| && signatures[i].Some? :: vs.validators[i]
  }

  /** Every signature present is the position's validator's signature over `message`, and together they
      reach a quorum.  This is what both kinds of certificate check against one validator set. */
  predicate SignedByQuorum(vs: ValidatorSet, message: Message, signatures: seq<Option<Signature>>) {
    && |signatures| == |vs.validators|
    && (forall i | 0 <= i < |signatures| && signatures[i].Some? ::
          Verifies(vs.validators[i], message, signatures[i].value))
    && PowerOf(vs, Signers(vs, signatures)) >= Quorum(vs)
  }

  predicate PcCorrectlySigned(pc: PhaseCertificate, vs: ValidatorSet) {
    SignedByQuorum(vs, CertifiedMessage(pc), pc.signatures)
  }

  predicate TcCorrectlySigned(tc: TimeoutCertificate, vs: ValidatorSet) {
    SignedByQuorum(vs, TimedOutMessage(tc), tc.signatures)
  }
}
