/** Leader selection by interleaved weighted round robin. */
module Leader {
  import opened Types
  import opened Quorums

  const TWO_TO_THE_64: nat := 0x1_0000_0000_0000_0000

  /** The validators among the first `n` with power at least `threshold`, in order. */
  function Round(vs: ValidatorSet, threshold: nat, n: nat): seq<VerifyingKey>
    requires n <= |vs.validators|
  {
    if n == 0 then []
    else
      var k := vs.validators[n - 1];
      Round(vs, threshold, n - 1) + if vs.Power(k) >= threshold then [k] else []
  }

  /** The abstract array of leaders, up to the round for threshold `t`. */
  function Rounds(vs: ValidatorSet, t: nat): seq<VerifyingKey> {
    if t == 0 then [] else Rounds(vs, t - 1) + Round(vs, t, |vs.validators|)
  }

  function MaxPower(vs: ValidatorSet, n: nat): nat
    requires n <= |vs.validators|
  {
    if n == 0 then 0
    else
      var below, p := MaxPower(vs, n - 1), vs.Power(vs.validators[n - 1]);
      if p > below then p else below
  }

  /** The abstract array of leaders. */
  function Schedule(vs: ValidatorSet): seq<VerifyingKey> {
    Rounds(vs, MaxPower(vs, |vs.validators|))
  }

  /** Total power as the index computation sees it: cut down to 64 bits. */
  function Modulus(vs: ValidatorSet): nat {
    TotalPower(vs) % TWO_TO_THE_64
  }

  function Min(a: nat, b: nat): nat {
    if a < b then a else b
  }

  // ---------------------------------------------------------------------------------------------------
  // How often each validator is scheduled

  /** Power that the first `n` validators hold when each counts for at most `t`. */
  function CappedPower(vs: ValidatorSet, t: nat, n: nat): nat
    requires n <= |vs.validators|
  {
    if n == 0 then 0 else CappedPower(vs, t, n - 1) + Min(t, vs.Power(vs.validators[n - 1]))
  }

  lemma {:induction false} RoundLength(vs: ValidatorSet, t: nat, n: nat)
    requires n <= |vs.validators| && t > 0
    ensures |Round(vs, t, n)| + CappedPower(vs, t - 1, n) == CappedPower(vs, t, n)
  {
    if n > 0 {
      RoundLength(vs, t, n - 1);
    }
  }

  lemma {:induction false} CappedAtZero(vs: ValidatorSet, n: nat)
    requires n <= |vs.validators|
    ensures CappedPower(vs, 0, n) == 0
  {
    if n > 0 {
      CappedAtZero(vs, n - 1);
    }
  }

  lemma {:induction false} CappedAtMax(vs: ValidatorSet, t: nat, n: nat)
    requires n <= |vs.validators| && t >= MaxPower(vs, n)
    ensures CappedPower(vs, t, n) == PowerUpTo(vs, Members(vs), n)
  {
    if n > 0 {
      CappedAtMax(vs, t, n - 1);
      assert vs.validators[n - 1] in Members(vs);
    }
  }

  lemma {:induction false} RoundsLength(vs: ValidatorSet, t: nat)
    ensures |Rounds(vs, t)| == CappedPower(vs, t, |vs.validators|)
  {
    if t == 0 {
      CappedAtZero(vs, |vs.validators|);
    } else {
      RoundsLength(vs, t - 1);
      RoundLength(vs, t, |vs.validators|);
    }
  }

  /** The abstract array has one slot per unit of power. */
  lemma ScheduleLength(vs: ValidatorSet)
    ensures |Schedule(vs)| == TotalPower(vs)
  {
    RoundsLength(vs, MaxPower(vs, |vs.validators|));
    CappedAtMax(vs, MaxPower(vs, |vs.validators|), |vs.validators|);
  }

  /** How often `k` occurs in `s`. */
  function Occurrences(s: seq<VerifyingKey>, k: VerifyingKey): nat {
    if s == [] then 0 else Occurrences(s[..|s| - 1], k) + if s[|s| - 1] == k then 1 else 0
  }

  lemma {:induction false} CountInConcatenation(s: seq<VerifyingKey>, t: seq<VerifyingKey>, k: VerifyingKey)
    ensures Occurrences(s + t, k) == Occurrences(s, k) + Occurrences(t, k)
    decreases |t|
  {
    if t == [] {
      assert s + t == s;
    } else {
      CountInConcatenation(s, t[..|t| - 1], k);
      assert (s + t)[..|s + t| - 1] == s + t[..|t| - 1];
    }
  }

  lemma {:induction false} RoundCount(vs: ValidatorSet, t: nat, n: nat, pos: nat)
    requires vs.Valid() && n <= |vs.validators| && pos < |vs.validators|
    ensures Occurrences(Round(vs, t, n), vs.validators[pos]) ==
      if pos < n && vs.Power(vs.validators[pos]) >= t then 1 else 0
  {
    if n > 0 {
      RoundCount(vs, t, n - 1, pos);
      var last := if vs.Power(vs.validators[n - 1]) >= t then [vs.validators[n - 1]] else [];
      CountInConcatenation(Round(vs, t, n - 1), last, vs.validators[pos]);
      assert n - 1 != pos ==> vs.validators[n - 1] != vs.validators[pos];
    }
  }

  lemma {:induction false} RoundsCount(vs: ValidatorSet, t: nat, pos: nat)
    requires vs.Valid() && pos < |vs.validators|
    ensures Occurrences(Rounds(vs, t), vs.validators[pos]) == Min(t, vs.Power(vs.validators[pos]))
  {
    if t > 0 {
      RoundsCount(vs, t - 1, pos);
      RoundCount(vs, t, |vs.validators|, pos);
      CountInConcatenation(Rounds(vs, t - 1), Round(vs, t, |vs.validators|), vs.validators[pos]);
    }
  }

  lemma {:induction false} MaxIsUpperBound(vs: ValidatorSet, n: nat, pos: nat)
    requires pos < n <= |vs.validators|
    ensures vs.Power(vs.validators[pos]) <= MaxPower(vs, n)
  {
    if pos < n - 1 {
      MaxIsUpperBound(vs, n - 1, pos);
    }
  }

  /** Each validator has as many slots as it has power. */
  lemma ScheduleCount(vs: ValidatorSet, k: VerifyingKey)
    requires vs.Valid() && k in vs.validators
    ensures Occurrences(Schedule(vs), k) == vs.Power(k)
  {
    var pos :| 0 <= pos < |vs.validators| && vs.validators[pos] == k;
    RoundsCount(vs, MaxPower(vs, |vs.validators|), pos);
    MaxIsUpperBound(vs, |vs.validators|, pos);
  }

  // ---------------------------------------------------------------------------------------------------
  // The search

  lemma {:induction false} RoundIsPrefix(vs: ValidatorSet, t: nat, m: nat, n: nat)
    requires m <= n <= |vs.validators|
    ensures Round(vs, t, m) <= Round(vs, t, n)
  {
    if m < n {
      RoundIsPrefix(vs, t, m, n - 1);
    }
  }

  lemma {:induction false} RoundsIsPrefix(vs: ValidatorSet, s: nat, t: nat)
    requires s <= t
    ensures Rounds(vs, s) <= Rounds(vs, t)
  {
    if s < t {
      RoundsIsPrefix(vs, s, t - 1);
    }
  }

  lemma PartialRoundIsPrefix(vs: ValidatorSet, t: nat, n: nat)
    requires 0 < t <= MaxPower(vs, |vs.validators|) && n <= |vs.validators|
    ensures Rounds(vs, t - 1) + Round(vs, t, n) <= Schedule(vs)
  {
    RoundIsPrefix(vs, t, n, |vs.validators|);
    RoundsIsPrefix(vs, t, MaxPower(vs, |vs.validators|));
    assert Rounds(vs, t - 1) + Round(vs, t, n) <= Rounds(vs, t);
  }

  /** A round goes once through the validators that are still due, in ascending order of their keys. */
  lemma {:induction false} RoundAscends(vs: ValidatorSet, t: nat, n: nat)
    requires vs.Valid() && n <= |vs.validators|
    ensures forall k :: k in Round(vs, t, n) <==> k in vs.validators[..n] && vs.Power(k) >= t
    ensures forall i, j | 0 <= i < j < |Round(vs, t, n)| :: Round(vs, t, n)[i] < Round(vs, t, n)[j]
  {
    if n > 0 {
      RoundAscends(vs, t, n - 1);
      var before, last := Round(vs, t, n - 1), vs.validators[n - 1];
      assert vs.validators[..n] == vs.validators[..n - 1] + [last];
      forall i | 0 <= i < |before| ensures before[i] < last {
        assert before[i] in vs.validators[..n - 1];
      }
    }
  }

  /** Leadership is interleaved: before any validator gets its turn number `t + 1`, each has had as many of its
      first `t` turns as it has power for, and turn number `t` goes to the validators with power at least `t`
      in ascending order of their keys. */
  lemma ScheduleIsInterleaved(vs: ValidatorSet, t: nat)
    requires vs.Valid() && 0 < t <= MaxPower(vs, |vs.validators|)
    ensures
      var first, next := CappedPower(vs, t - 1, |vs.validators|), CappedPower(vs, t, |vs.validators|);
      && first <= next <= |Schedule(vs)|
      && (forall k :: k in Schedule(vs)[first..next] <==> k in vs.validators && vs.Power(k) >= t)
      && (forall i, j | first <= i < j < next :: Schedule(vs)[i] < Schedule(vs)[j])
  {
    var n := |vs.validators|;
    var round := Round(vs, t, n);
    PartialRoundIsPrefix(vs, t, n);
    RoundsLength(vs, t - 1);
    RoundsLength(vs, t);
    var first, next := CappedPower(vs, t - 1, n), CappedPower(vs, t, n);
    assert Schedule(vs)[first..next] == round;
    RoundAscends(vs, t, n);
    assert vs.validators[..n] == vs.validators;
    forall i, j | first <= i < j < next ensures Schedule(vs)[i] < Schedule(vs)[j] {
      assert Schedule(vs)[i] == round[i - first] && Schedule(vs)[j] == round[j - first];
    }
  }

  /** `select_leader`; None is its panic.  The search finds the scheduled leader whenever the remainder is defined. */
  method SelectLeader(view: nat, vs: ValidatorSet) returns (leader: Option<VerifyingKey>)
    requires vs.Valid()
    ensures leader.None? <==> Modulus(vs) == 0
    ensures leader.Some? ==> |Schedule(vs)| == TotalPower(vs) && leader.value == Schedule(vs)[view % Modulus(vs)]
    ensures leader.Some? ==> leader.value in vs.validators && vs.Power(leader.value) > 0
  {
    ScheduleLength(vs);
    if Modulus(vs) == 0 {
      return None;
    }
    var index := view % Modulus(vs);
    var n := |vs.validators|;
    var max := MaxPower(vs, n);
    var counter := 0;
    for threshold := 1 to max + 1
      invariant counter == |Rounds(vs, threshold - 1)| <= index
    {
      for k := 0 to n
        invariant counter == |Rounds(vs, threshold - 1)| + |Round(vs, threshold, k)| <= index
      {
        if vs.Power(vs.validators[k]) >= threshold {
          if counter == index {
            PartialRoundIsPrefix(vs, threshold, k + 1);
            assert (Rounds(vs, threshold - 1) + Round(vs, threshold, k + 1))[counter] == vs.validators[k];
            return Some(vs.validators[k]);
          }
          counter := counter + 1;
        }
      }
    }
    assert false;
  }

  // ---------------------------------------------------------------------------------------------------
  // Fairness

  /** The leaders of `count` views from view `first` on. */
  function Leaders(vs: ValidatorSet, first: nat, count: nat): (s: seq<VerifyingKey>)
    requires Modulus(vs) != 0
    ensures |s| == count
  {
    ScheduleLength(vs);
    seq(count, i requires 0 <= i < count => Schedule(vs)[(first + i) % Modulus(vs)])
  }

  lemma RotatedIndex(first: nat, i: nat, m: nat)
    requires i < m
    ensures (first + i) % m == if first % m + i < m then first % m + i else first % m + i - m
  {
    var q, r := first / m, first % m;
    assert first + i == q * m + (r + i);
    if r + i < m {
      RemainderOf(q, r + i, m);
    } else {
      assert first + i == (q + 1) * m + (r + i - m);
      RemainderOf(q + 1, r + i - m, m);
    }
  }

  lemma RemainderOf(q: nat, r: nat, m: nat)
    requires r < m
    ensures (q * m + r) % m == r
  {
    DivisionIsUnique(q, r, (q * m + r) / m, (q * m + r) % m, m);
  }

  lemma DivisionIsUnique(q: int, r: int, q': int, r': int, m: int)
    requires 0 <= r < m && 0 <= r' < m && q * m + r == q' * m + r'
    ensures r == r'
  {
    if q < q' {
      assert (q' - q) * m == q' * m - q * m;
      Multiple(q' - q, m);
    } else if q > q' {
      assert (q - q') * m == q * m - q' * m;
      Multiple(q - q', m);
    }
  }

  lemma Multiple(a: int, m: int)
    requires a >= 1 && m > 0
    ensures a * m >= m
  {
  }

  /** Wherever they start, as many consecutive views as the modulus go through the same slots once each. */
  lemma LeadersOfOneCycle(vs: ValidatorSet, first: nat, k: VerifyingKey)
    requires Modulus(vs) != 0
    ensures Modulus(vs) <= |Schedule(vs)|
    ensures Occurrences(Leaders(vs, first, Modulus(vs)), k) == Occurrences(Schedule(vs)[..Modulus(vs)], k)
  {
    ScheduleLength(vs);
    var m := Modulus(vs);
    var slots := Schedule(vs)[..m];
    var leaders := Leaders(vs, first, m);
    forall i | 0 <= i < m
      ensures leaders[i] == if first % m + i < m then slots[first % m + i] else slots[first % m + i - m]
    {
      RotatedIndex(first, i, m);
    }
    RotationKeepsElements(slots, first % m, leaders, k);
  }

  lemma RotationKeepsElements(s: seq<VerifyingKey>, r: nat, rotated: seq<VerifyingKey>, k: VerifyingKey)
    requires r < |s| == |rotated|
    requires forall i | 0 <= i < |s| :: rotated[i] == if r + i < |s| then s[r + i] else s[r + i - |s|]
    ensures Occurrences(rotated, k) == Occurrences(s, k)
  {
    assert rotated == s[r..] + s[..r];
    assert s == s[..r] + s[r..];
    CountInConcatenation(s[r..], s[..r], k);
    CountInConcatenation(s[..r], s[r..], k);
  }

  /** Fairness: with total power P, 0 < P < 2^64, in any P consecutive views each validator leads exactly as many views
      as it has power, and the leader of a view is the one that the search returns. */
  lemma LeaderFairness(vs: ValidatorSet, first: nat, k: VerifyingKey)
    requires vs.Valid() && 0 < TotalPower(vs) < TWO_TO_THE_64 && k in vs.validators
    ensures Modulus(vs) == TotalPower(vs)
    ensures Occurrences(Leaders(vs, first, TotalPower(vs)), k) == vs.Power(k)
  {
    LeadersOfOneCycle(vs, first, k);
    ScheduleLength(vs);
    assert Schedule(vs)[..TotalPower(vs)] == Schedule(vs);
    ScheduleCount(vs, k);
  }

  const TWO_TO_THE_63: nat := 0x8000_0000_0000_0000

  /** Fairness needs the bound: here every power fits 64 bits, total power exceeds 2^64, and one of the three validators
      never leads. */
  lemma TruncationStarvesValidator(first: nat, count: nat) returns (vs: ValidatorSet, k: VerifyingKey)
    ensures vs.Valid() && forall v | v in vs.powers :: vs.powers[v] < TWO_TO_THE_64
    ensures k in vs.validators && vs.Power(k) == 1 && Modulus(vs) != 0
    ensures forall i | 0 <= i < count :: Leaders(vs, first, count)[i] != k
  {
    vs, k := ValidatorSet([1, 2, 3], map[1 := TWO_TO_THE_63, 2 := TWO_TO_THE_63, 3 := 1]), 3;
    assert vs.validators[0] == 1 && vs.validators[1] == 2 && vs.validators[2] == 3;
    assert PowerUpTo(vs, Members(vs), 1) == TWO_TO_THE_63;
    assert PowerUpTo(vs, Members(vs), 2) == TWO_TO_THE_64;
    assert PowerUpTo(vs, Members(vs), 3) == TWO_TO_THE_64 + 1;
    assert Modulus(vs) == 1;
    assert vs.Power(1) == vs.Power(2) == TWO_TO_THE_63 && vs.Power(3) == 1;
    assert MaxPower(vs, 0) == 0;
    assert MaxPower(vs, 1) == TWO_TO_THE_63;
    assert MaxPower(vs, 2) == TWO_TO_THE_63;
    assert MaxPower(vs, 3) == TWO_TO_THE_63;
    PartialRoundIsPrefix(vs, 1, 1);
    assert Round(vs, 1, 1) == Round(vs, 1, 0) + [1];
    assert Rounds(vs, 0) + Round(vs, 1, 1) == [1];
    assert Schedule(vs)[0] == 1;
  }
}
