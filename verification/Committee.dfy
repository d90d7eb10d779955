/** Stake, thresholds and quorum intersection (consensus/config/src/committee.rs).

    An authority is its index in `stakes`. A set of authorities weighs the sum
    of the stakes of its members, each counted once. */
module Committees {

  datatype Result<+T> = Ok(value: T) | Panic(reason: PanicReason)

  datatype PanicReason =
    | EmptyCommittee
    | TooManyAuthorities
    | ZeroTotalStake
    | StakeOverflow
    | StakeSafetyViolated

  const U32_MAX: nat := 0xffff_ffff
  const U64_MAX: nat := 0xffff_ffff_ffff_ffff

  datatype Committee = Committee(
    stakes: seq<nat>,
    totalStake: nat,
    quorumThreshold: nat,
    certificationThreshold: nat,
    validityThreshold: nat)
  {
    function Size(): nat { |stakes| }

    predicate IsValidIndex(authority: nat) { authority < |stakes| }

    function Stake(authority: nat): nat
      requires IsValidIndex(authority)
    {
      stakes[authority]
    }

    predicate ReachedQuorum(stake: nat) { stake >= quorumThreshold }

    predicate ReachedValidity(stake: nat) { stake >= validityThreshold }
  }

  // ---------- Weighing sets of authorities ----------

  /** Stake of the members of `s` among the first `n` authorities. */
  function StakeUpTo(stakes: seq<nat>, s: set<nat>, n: nat): nat
    requires n <= |stakes|
  {
    if n == 0 then 0
    else StakeUpTo(stakes, s, n - 1) + if n - 1 in s then stakes[n - 1] else 0
  }

  function StakeOf(stakes: seq<nat>, s: set<nat>): nat {
    StakeUpTo(stakes, s, |stakes|)
  }

  function SumUpTo(stakes: seq<nat>, n: nat): nat
    requires n <= |stakes|
  {
    if n == 0 then 0 else SumUpTo(stakes, n - 1) + stakes[n - 1]
  }

  function Total(stakes: seq<nat>): nat { SumUpTo(stakes, |stakes|) }

  function Everyone(n: nat): (s: set<nat>)
    ensures forall i: nat :: i in s <==> i < n
  {
    if n == 0 then {} else Everyone(n - 1) + {n - 1}
  }

  lemma {:induction false} InclusionExclusion(stakes: seq<nat>, s: set<nat>, t: set<nat>, n: nat)
    requires n <= |stakes|
    ensures StakeUpTo(stakes, s, n) + StakeUpTo(stakes, t, n)
         == StakeUpTo(stakes, s * t, n) + StakeUpTo(stakes, s + t, n)
  {
    if n > 0 { InclusionExclusion(stakes, s, t, n - 1); }
  }

  lemma {:induction false} StakeMonotone(stakes: seq<nat>, s: set<nat>, t: set<nat>, n: nat)
    requires n <= |stakes| && s <= t
    ensures StakeUpTo(stakes, s, n) <= StakeUpTo(stakes, t, n)
  {
    if n > 0 { StakeMonotone(stakes, s, t, n - 1); }
  }

  lemma {:induction false} StakeAtMostTotal(stakes: seq<nat>, s: set<nat>, n: nat)
    requires n <= |stakes|
    ensures StakeUpTo(stakes, s, n) <= SumUpTo(stakes, n)
  {
    if n > 0 { StakeAtMostTotal(stakes, s, n - 1); }
  }

  lemma {:induction false} StakeOfComplement(stakes: seq<nat>, s: set<nat>, t: set<nat>, n: nat)
    requires n <= |stakes|
    requires forall i | 0 <= i < |stakes| :: i in s <==> i !in t
    ensures StakeUpTo(stakes, s, n) + StakeUpTo(stakes, t, n) == SumUpTo(stakes, n)
  {
    if n > 0 { StakeOfComplement(stakes, s, t, n - 1); }
  }

  lemma {:induction false} StakeOfInsert(stakes: seq<nat>, s: set<nat>, a: nat, n: nat)
    requires n <= |stakes| && a < |stakes| && a !in s
    ensures StakeUpTo(stakes, s + {a}, n)
         == StakeUpTo(stakes, s, n) + if a < n then stakes[a] else 0
  {
    if n > 0 { StakeOfInsert(stakes, s, a, n - 1); }
  }

  lemma {:induction false} StakeOfEmpty(stakes: seq<nat>, s: set<nat>, n: nat)
    requires n <= |stakes| && forall i | 0 <= i < n :: i !in s
    ensures StakeUpTo(stakes, s, n) == 0
  {
    if n > 0 { StakeOfEmpty(stakes, s, n - 1); }
  }

  /** A set of positive weight has a member. */
  lemma SomeMember(stakes: seq<nat>, s: set<nat>) returns (a: nat)
    requires StakeOf(stakes, s) > 0
    ensures a in s && a < |stakes|
  {
    if forall i | 0 <= i < |stakes| :: i !in s {
      StakeOfEmpty(stakes, s, |stakes|);
    }
    a :| 0 <= a < |stakes| && a in s;
  }

  /** Two sets share at least the excess of their combined weight over the total. */
  lemma Overlap(stakes: seq<nat>, s: set<nat>, t: set<nat>)
    ensures StakeOf(stakes, s * t) + Total(stakes) >= StakeOf(stakes, s) + StakeOf(stakes, t)
  {
    InclusionExclusion(stakes, s, t, |stakes|);
    StakeAtMostTotal(stakes, s + t, |stakes|);
  }

  /** If the overlap outweighs `byz`, some member of both sets is outside `byz`. */
  lemma HonestInOverlap(stakes: seq<nat>, s: set<nat>, t: set<nat>, byz: set<nat>) returns (h: nat)
    requires StakeOf(stakes, s) + StakeOf(stakes, t) > Total(stakes) + StakeOf(stakes, byz)
    ensures h in s && h in t && h !in byz && h < |stakes|
  {
    Overlap(stakes, s, t);
    var both := s * t;
    InclusionExclusion(stakes, both - byz, both * byz, |stakes|);
    assert (both - byz) * (both * byz) == {};
    StakeOfEmpty(stakes, (both - byz) * (both * byz), |stakes|);
    assert (both - byz) + (both * byz) == both;
    StakeMonotone(stakes, both * byz, byz, |stakes|);
    h := SomeMember(stakes, both - byz);
  }

  // ---------- Committee::new ----------

  function New(stakes: seq<nat>): (r: Result<Committee>)
    ensures r.Ok? <==> 0 < |stakes| < U32_MAX && Total(stakes) != 0
    ensures r.Ok? ==> WellSized(r.value) && r.value.stakes == stakes
    ensures r != Panic(StakeSafetyViolated)
  {
    var total := Total(stakes);
    if |stakes| == 0 then Panic(EmptyCommittee)
    else if |stakes| >= U32_MAX then Panic(TooManyAuthorities)
    else if total == 0 then Panic(ZeroTotalStake)
    else
      var f := (total - 1) / 3;
      var quorum := total - f;
      if 2 * quorum - f > total
      then
        var committee := Committee(stakes, total, quorum, quorum, f + 1);
        assert Tolerates(committee, f);
        Ok(committee)
      else Panic(StakeSafetyViolated)
  }

  /** What the rest of the system relies on: the largest f with 3f < total may be
      faulty, a quorum is everything else, and validity outweighs the faults. */
  ghost predicate WellSized(c: Committee) {
    && c.totalStake == Total(c.stakes) >= 1
    && exists f: nat {:trigger Tolerates(c, f)} :: Tolerates(c, f)
  }

  ghost predicate Tolerates(c: Committee, f: nat) {
    && 3 * f < c.totalStake <= 3 * f + 3
    && c.quorumThreshold == c.totalStake - f
    && c.validityThreshold == f + 1
  }

  /** The fault assumption: `byz` weighs less than a third of the total. */
  ghost predicate FaultBound(c: Committee, byz: set<nat>) {
    3 * StakeOf(c.stakes, byz) < c.totalStake
  }

  ghost predicate IsQuorum(c: Committee, s: set<nat>) {
    c.ReachedQuorum(StakeOf(c.stakes, s))
  }

  /** Two quorums always share an authority outside the faulty set. */
  lemma QuorumsShareHonest(c: Committee, byz: set<nat>, s: set<nat>, t: set<nat>) returns (h: nat)
    requires WellSized(c) && FaultBound(c, byz)
    requires IsQuorum(c, s) && IsQuorum(c, t)
    ensures h in s && h in t && h !in byz && h < c.Size()
  {
    h := HonestInOverlap(c.stakes, s, t, byz);
  }

  /** The thresholds are tight: a faulty set within the bound never blocks a quorum
      of the others, and never reaches validity on its own. */
  lemma FaultyNeitherBlockNorValidate(c: Committee, byz: set<nat>)
    requires WellSized(c) && FaultBound(c, byz)
    ensures !c.ReachedValidity(StakeOf(c.stakes, byz))
    ensures IsQuorum(c, Everyone(c.Size()) - byz)
  {
    var rest := Everyone(c.Size()) - byz;
    StakeOfComplement(c.stakes, rest, byz, c.Size());
  }

  lemma NobodyIsNoQuorum(c: Committee)
    requires c.quorumThreshold >= 1
    ensures !IsQuorum(c, {})
  {
    StakeOfEmpty(c.stakes, {}, c.Size());
  }

  lemma SupersetOfQuorum(c: Committee, s: set<nat>, t: set<nat>)
    requires IsQuorum(c, s) && s <= t
    ensures IsQuorum(c, t)
  {
    StakeMonotone(c.stakes, s, t, |c.stakes|);
  }

  // ---------- Committee::new_v3 ----------

  datatype Budgets = Budgets(malicious: nat, crash: nat)

  function Scale(nominal: nat, total: nat, base: nat): Result<nat>
    requires total >= 1 && base >= 1
  {
    if nominal * (total - 1) > U64_MAX then Panic(StakeOverflow)
    else Ok(nominal * (total - 1) / base)
  }

  function ScaledBudgets(malicious: nat, crash: nat, total: nat): Result<Budgets>
    requires total >= 1
  {
    var base := 5 * malicious + 3 * crash;
    if base > 0 then
      var f := Scale(malicious, total, base);
      if f.Panic? then Panic(f.reason) else
      var c := Scale(crash, total, base);
      if c.Panic? then Panic(c.reason) else
      Ok(Budgets(f.value, c.value))
    else Ok(Budgets(0, 0))
  }

  ghost predicate NoOverflow(malicious: nat, crash: nat, total: nat)
    requires total >= 1
  {
    malicious * (total - 1) <= U64_MAX && crash * (total - 1) <= U64_MAX
  }

  /** The second safety assertion of new_v3, for budgets (f, c). */
  ghost predicate CertificateSurvives(total: nat, f: nat, c: nat) {
    2 * (total - f - c) >= total + f + (2 * f + c + 1)
  }

  function NewV3(stakes: seq<nat>, malicious: nat, crash: nat): (r: Result<Committee>)
    ensures r.Ok? <==> 0 < |stakes| < U32_MAX && Total(stakes) != 0
                       && NoOverflow(malicious, crash, Total(stakes))
    ensures r != Panic(StakeSafetyViolated) && (r.Ok? ==> r.value.stakes == stakes)
    ensures r.Ok? ==>
      exists f: nat, c: nat {:trigger ToleratesV3(r.value, f, c)} :: ToleratesV3(r.value, f, c)
                                              && ScaledBudgets(malicious, crash, Total(stakes)) == Ok(Budgets(f, c))
  {
    var total := Total(stakes);
    if |stakes| == 0 then Panic(EmptyCommittee)
    else if |stakes| >= U32_MAX then Panic(TooManyAuthorities)
    else if total == 0 then Panic(ZeroTotalStake)
    else
      ScaledBudgetsBound(malicious, crash, total);
      var b := ScaledBudgets(malicious, crash, total);
      if b.Panic? then Panic(b.reason) else
      var f, c := b.value.malicious, b.value.crash;
      var validity := f + 1;
      var certification := 2 * f + c + 1;
      var quorum := total - f - c;
      if certification + quorum >= total + f + 1 && quorum * 2 >= total + f + certification
      then
        var committee := Committee(stakes, total, quorum, certification, validity);
        assert ToleratesV3(committee, f, c);
        Ok(committee)
      else Panic(StakeSafetyViolated)
  }

  ghost predicate ToleratesV3(k: Committee, f: nat, c: nat) {
    && k.totalStake == Total(k.stakes) >= 5 * f + 3 * c + 1
    && k.validityThreshold == f + 1
    && k.certificationThreshold == 2 * f + c + 1
    && k.quorumThreshold == k.totalStake - f - c
  }

  /** Each budget is its share of the nominal base, scaled to the total and rounded down. */
  lemma BudgetsAreShares(malicious: nat, crash: nat, total: nat)
    requires total >= 1 && NoOverflow(malicious, crash, total)
    ensures ScaledBudgets(malicious, crash, total).Ok?
    ensures var b, base := ScaledBudgets(malicious, crash, total).value, 5 * malicious + 3 * crash;
      if base == 0 then b.malicious == b.crash == 0
      else
        && base * b.malicious <= malicious * (total - 1) < base * b.malicious + base
        && base * b.crash <= crash * (total - 1) < base * b.crash + base
  {
    var base := 5 * malicious + 3 * crash;
    if base > 0 {
      DivBounds(malicious * (total - 1), base);
      DivBounds(crash * (total - 1), base);
    }
  }

  /** Truncating division loses less than one unit of each budget. */
  lemma DivBounds(x: nat, base: nat)
    requires base >= 1
    ensures x == base * (x / base) + x % base && 0 <= x % base < base
  {}

  lemma MulKeepsOrder(base: nat, p: int, q: int)
    requires base >= 1
    ensures p <= q <==> base * p <= base * q
  {}

  lemma QuotientBounds(base: nat, q: int, r: nat)
    requires base >= 1 && base * q == r
    ensures q >= 0 && (r < 3 * base <==> q <= 2) && (r < 8 * base ==> q <= 7)
  {
    MulKeepsOrder(base, 0, q);
    MulKeepsOrder(base, 3, q);
    MulKeepsOrder(base, 8, q);
  }

  /** What the two truncations drop, as a multiple of the nominal base. */
  lemma TruncationLoss(malicious: nat, crash: nat, total: nat, f: nat, c: nat) returns (lost: nat)
    requires total >= 1 && 5 * malicious + 3 * crash >= 1
    requires f == malicious * (total - 1) / (5 * malicious + 3 * crash)
    requires c == crash * (total - 1) / (5 * malicious + 3 * crash)
    ensures lost == total - 1 - 5 * f - 3 * c && lost <= 7
    ensures lost <= 2 <==> Remainders(malicious, crash, total) < 3 * (5 * malicious + 3 * crash)
  {
    var base := 5 * malicious + 3 * crash;
    var t := total - 1;
    DivBounds(malicious * t, base);
    DivBounds(crash * t, base);
    var rm, rc := malicious * t % base, crash * t % base;
    assert base * t == 5 * (malicious * t) + 3 * (crash * t);
    var q := t - 5 * f - 3 * c;
    assert base * q == base * t - 5 * (base * f) - 3 * (base * c);
    assert base * q == 5 * rm + 3 * rc;
    QuotientBounds(base, q, 5 * rm + 3 * rc);
    lost := q;
  }

  function Remainders(malicious: nat, crash: nat, total: nat): nat
    requires total >= 1 && 5 * malicious + 3 * crash >= 1
  {
    var base := 5 * malicious + 3 * crash;
    5 * (malicious * (total - 1) % base) + 3 * (crash * (total - 1) % base)
  }

  /** For every budget and total, the scaled budgets fit: T - 8 <= 5f + 3c <= T - 1. */
  lemma ScaledBudgetsBound(malicious: nat, crash: nat, total: nat)
    requires total >= 1
    ensures ScaledBudgets(malicious, crash, total).Ok? <==> NoOverflow(malicious, crash, total)
    ensures ScaledBudgets(malicious, crash, total).Ok? ==>
      var b := ScaledBudgets(malicious, crash, total).value;
      && 5 * b.malicious + 3 * b.crash <= total - 1
      && CertificateSurvives(total, b.malicious, b.crash)
      && (5 * malicious + 3 * crash > 0 ==>
            total - 8 <= 5 * b.malicious + 3 * b.crash
            && !CertificateSurvives(total, b.malicious + 1, b.crash + 1))
  {
    var r := ScaledBudgets(malicious, crash, total);
    if r.Ok? && 5 * malicious + 3 * crash > 0 {
      var lost := TruncationLoss(malicious, crash, total, r.value.malicious, r.value.crash);
    }
  }

  /** The comment above new_v3 calls the scaled budgets the largest for which the
      intersection properties hold. They are not always: truncation can leave room
      for one more unit of crash stake. */
  lemma ScaledBudgetsNotAlwaysLargest()
    ensures ScaledBudgets(1, 1, 8) == Ok(Budgets(0, 0))
    ensures CertificateSurvives(8, 0, 1) && CertificateSurvives(8, 1, 0)
  {
    assert 1 * (8 - 1) / 8 == 0;
  }

  /** They are the largest exactly when the two remainders, weighted 5 and 3, stay
      below three nominal bases. */
  lemma ScaledBudgetsLargestIff(malicious: nat, crash: nat, total: nat)
    requires total >= 1 && 5 * malicious + 3 * crash >= 1
    requires NoOverflow(malicious, crash, total)
    ensures
      var r := ScaledBudgets(malicious, crash, total);
      && r.Ok?
      && (Remainders(malicious, crash, total) < 3 * (5 * malicious + 3 * crash)
          <==> !CertificateSurvives(total, r.value.malicious + 1, r.value.crash)
               && !CertificateSurvives(total, r.value.malicious, r.value.crash + 1))
  {
    var r := ScaledBudgets(malicious, crash, total);
    var lost := TruncationLoss(malicious, crash, total, r.value.malicious, r.value.crash);
  }

  /** Set-level meaning of the two safety assertions: a certification set meets every
      quorum in more than f, and two quorums meet in certification + f. */
  lemma V3Intersections(k: Committee, f: nat, c: nat, cert: set<nat>, q1: set<nat>, q2: set<nat>)
    requires ToleratesV3(k, f, c)
    requires StakeOf(k.stakes, cert) >= k.certificationThreshold
    requires IsQuorum(k, q1) && IsQuorum(k, q2)
    ensures StakeOf(k.stakes, cert * q1) >= k.validityThreshold
    ensures StakeOf(k.stakes, q1 * q2) >= k.certificationThreshold + f
  {
    Overlap(k.stakes, cert, q1);
    Overlap(k.stakes, q1, q2);
  }
}
