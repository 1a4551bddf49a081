/**
 The load driver's tenant mix: weighted classes grown round-robin to a target number of instances.

 The loop grows a class by its whole weight at a time. Its specification hands out single instances, one
 after the other, along a fixed cyclic sequence of classes.
 */
module TenantMix {
  import opened Common

  datatype TenantClass = TenantClass(key: string, weight: real, instances: nat, sendsPerDay: real)
  datatype ExpandedTenant = ExpandedTenant(key: string, classKey: string, instances: nat, sendsPerDay: real)
  datatype Expansion = Expansion(tenants: seq<ExpandedTenant>, totalInstances: nat, truncated: bool)

  /** What parseTenantMix lets through: a non-empty list of classes with distinct keys and positive weights. */
  ghost predicate ValidMix(tenants: seq<TenantClass>) {
    && tenants != []
    && (forall i, j :: 0 <= i < j < |tenants| ==> tenants[i].key != tenants[j].key)
    && forall i :: 0 <= i < |tenants| ==> tenants[i].key != "" && tenants[i].weight > 0.0
  }

  /** The nearest integer, halves up, but at least 1. */
  ghost predicate Nearest(weight: real, step: nat) {
    if weight < 0.5 then step == 1 else step as real - 0.5 <= weight < step as real + 0.5
  }

  /** Math.max(1, Math.round(weight)) */
  function StepOf(weight: real): (step: nat)
    ensures step >= 1 && Nearest(weight, step)
  {
    var rounded := (weight + 0.5).Floor;
    if rounded < 1 then 1 else rounded
  }

  function BaseSum(tenants: seq<TenantClass>): nat {
    if tenants == [] then 0 else BaseSum(tenants[..|tenants| - 1]) + tenants[|tenants| - 1].instances
  }

  // ---------------------------------------------------------------- one instance at a time

  /** Instances added by one round of the classes before i. */
  function RoundUpTo(tenants: seq<TenantClass>, i: nat): nat
    requires i <= |tenants|
  {
    if i == 0 then 0 else RoundUpTo(tenants, i - 1) + StepOf(tenants[i - 1].weight)
  }

  function Round(tenants: seq<TenantClass>): nat { RoundUpTo(tenants, |tenants|) }

  /** Which class position p of a round belongs to. */
  function ClassInRound(tenants: seq<TenantClass>, p: nat, i: nat): (c: nat)
    requires i < |tenants| && RoundUpTo(tenants, i) <= p < Round(tenants)
    ensures i <= c < |tenants| && RoundUpTo(tenants, c) <= p < RoundUpTo(tenants, c + 1)
    decreases |tenants| - i
  {
    if p < RoundUpTo(tenants, i + 1) then i
    else if i + 1 == |tenants| then assert false; i
    else ClassInRound(tenants, p, i + 1)
  }

  /** n counted within its round. */
  function Position(tenants: seq<TenantClass>, n: nat): (p: nat)
    requires Round(tenants) > 0
    ensures p < Round(tenants)
  {
    if n < Round(tenants) then n else Position(tenants, n - Round(tenants))
  }

  /** The class that gets extra instance number n, counted from 0. */
  function ClassAt(tenants: seq<TenantClass>, n: nat): (c: nat)
    requires tenants != [] && Round(tenants) > 0
    ensures c < |tenants|
  {
    ClassInRound(tenants, Position(tenants, n), 0)
  }

  /** How many of the first n extra instances class c gets. */
  function Extra(tenants: seq<TenantClass>, c: nat, n: nat): nat
    requires tenants != [] && Round(tenants) > 0
  {
    if n == 0 then 0 else Extra(tenants, c, n - 1) + if ClassAt(tenants, n - 1) == c then 1 else 0
  }

  // ---------------------------------------------------------------- the expansion

  function Missing(tenants: seq<TenantClass>, target: nat): nat {
    if target > BaseSum(tenants) then target - BaseSum(tenants) else 0
  }

  /** The first n extra instances end where some class has just had its whole step. */
  predicate AtStepEnd(tenants: seq<TenantClass>, n: nat)
    requires Round(tenants) > 0
  {
    exists i | 0 <= i < |tenants| :: RoundUpTo(tenants, i) == Position(tenants, n)
  }

  function Expanded(tenants: seq<TenantClass>, n: nat): seq<ExpandedTenant>
    requires tenants != [] && Round(tenants) > 0
  {
    seq(|tenants|, i requires 0 <= i < |tenants| =>
      var cls := tenants[i];
      ExpandedTenant(cls.key, cls.key, cls.instances + Extra(tenants, i, n), cls.sendsPerDay))
  }

  function Expand(tenants: seq<TenantClass>, target: nat): Expansion
    requires tenants != [] && Round(tenants) > 0
  {
    var n := Missing(tenants, target);
    Expansion(Expanded(tenants, n), BaseSum(tenants) + n, target < BaseSum(tenants) || !AtStepEnd(tenants, n))
  }

  lemma {:induction false} RoundGrows(tenants: seq<TenantClass>, i: nat, j: nat)
    requires i <= j <= |tenants|
    ensures RoundUpTo(tenants, i) + (j - i) <= RoundUpTo(tenants, j)
    decreases j - i
  {
    hide StepOf, Nearest;
    if i < j { RoundGrows(tenants, i, j - 1); }
  }

  lemma RoundPositive(tenants: seq<TenantClass>)
    requires tenants != []
    ensures Round(tenants) > 0
  {
    RoundGrows(tenants, 0, |tenants|);
  }

  /** q whole rounds. */
  function Rounds(tenants: seq<TenantClass>, q: nat): nat {
    if q == 0 then 0 else Rounds(tenants, q - 1) + Round(tenants)
  }

  lemma {:induction false} PositionOf(tenants: seq<TenantClass>, q: nat, p: nat)
    requires Round(tenants) > 0 && p < Round(tenants)
    ensures Position(tenants, Rounds(tenants, q) + p) == p
  {
    if q == 0 {
    } else {
      PositionOf(tenants, q - 1, p);
    }
    hide Round;
  }

  /** Position p of a round belongs to exactly one class. */
  lemma ClassIs(tenants: seq<TenantClass>, q: nat, i: nat, p: nat)
    requires i < |tenants| && Round(tenants) > 0 && RoundUpTo(tenants, i) <= p < RoundUpTo(tenants, i + 1)
    ensures ClassAt(tenants, Rounds(tenants, q) + p) == i
  {
    hide StepOf, Nearest;
    RoundGrows(tenants, i + 1, |tenants|);
    PositionOf(tenants, q, p);
    var c := ClassAt(tenants, Rounds(tenants, q) + p);
    if c < i { RoundGrows(tenants, c + 1, i); }
    if i < c { RoundGrows(tenants, i + 1, c); }
    hide RoundUpTo, Rounds, Position;
  }

  /** A stretch within the step of one class goes to that class alone. */
  lemma {:induction false} ExtraStretch(tenants: seq<TenantClass>, c: nat, q: nat, i: nat, p: nat, m: nat)
    requires i < |tenants| && Round(tenants) > 0 && RoundUpTo(tenants, i) <= p && p + m <= RoundUpTo(tenants, i + 1)
    ensures Extra(tenants, c, Rounds(tenants, q) + p + m)
            == Extra(tenants, c, Rounds(tenants, q) + p) + if c == i then m else 0
  {
    hide StepOf, Nearest;
    if m == 0 {
    } else {
      ExtraStretch(tenants, c, q, i, p, m - 1);
      ClassIs(tenants, q, i, p + m - 1);
    }
    hide ClassAt, Rounds, RoundUpTo;
  }

  ghost predicate CountsAre(counts: map<string, nat>, tenants: seq<TenantClass>, n: nat)
    requires tenants != [] && Round(tenants) > 0
  {
    && (forall i :: 0 <= i < |tenants| ==> tenants[i].key in counts)
    && forall i :: 0 <= i < |tenants| ==> counts[tenants[i].key] == tenants[i].instances + Extra(tenants, i, n)
  }

  lemma StretchForAll(tenants: seq<TenantClass>, q: nat, i: nat, n: nat, applied: nat)
    requires i < |tenants| && Round(tenants) > 0 && applied <= StepOf(tenants[i].weight)
    requires n == Rounds(tenants, q) + RoundUpTo(tenants, i)
    ensures forall c: nat :: c < |tenants| ==>
              Extra(tenants, c, n + applied) == Extra(tenants, c, n) + if c == i then applied else 0
  {
    hide StepOf, Nearest;
    forall c: nat | c < |tenants|
      ensures Extra(tenants, c, n + applied) == Extra(tenants, c, n) + if c == i then applied else 0
    {
      ExtraStretch(tenants, c, q, i, RoundUpTo(tenants, i), applied);
    }
  }

  /** The state at class i of round q, or at the target. */
  ghost predicate Growing(tenants: seq<TenantClass>, counts: map<string, nat>, done: nat, missing: nat, q: nat,
                          i: nat, truncated: bool)
    requires tenants != [] && Round(tenants) > 0 && i <= |tenants|
  {
    && done <= missing && CountsAre(counts, tenants, done)
    && (done < missing ==> done == Rounds(tenants, q) + RoundUpTo(tenants, i))
    && (truncated <==> !AtStepEnd(tenants, done))
  }

  lemma GrowStep(tenants: seq<TenantClass>, counts: map<string, nat>, done: nat, missing: nat, q: nat, i: nat,
                 truncated: bool, applied: nat)
    requires ValidMix(tenants) && Round(tenants) > 0 && i < |tenants| && done < missing
    requires Growing(tenants, counts, done, missing, q, i, truncated)
    requires var step := StepOf(tenants[i].weight); applied == if step < missing - done then step else missing - done
    ensures Growing(tenants, counts[tenants[i].key := counts[tenants[i].key] + applied],
                    done + applied, missing, q, i + 1, truncated || applied < StepOf(tenants[i].weight))
  {
    hide StepOf, Nearest, CountsAre, AtStepEnd, Rounds, Extra;
    StretchForAll(tenants, q, i, done, applied);
    CountsGrow(tenants, counts, done, i, applied);
    StepEnd(tenants, q, i, applied);
    AtClassStart(tenants, q, i);
  }

  lemma CountsGrow(tenants: seq<TenantClass>, counts: map<string, nat>, done: nat, i: nat, applied: nat)
    requires ValidMix(tenants) && Round(tenants) > 0 && i < |tenants| && CountsAre(counts, tenants, done)
    requires forall c: nat :: c < |tenants| ==>
               Extra(tenants, c, done + applied) == Extra(tenants, c, done) + if c == i then applied else 0
    ensures tenants[i].key in counts
    ensures CountsAre(counts[tenants[i].key := counts[tenants[i].key] + applied], tenants, done + applied)
  {
    hide Round, Extra;
  }

  lemma AtClassStart(tenants: seq<TenantClass>, q: nat, i: nat)
    requires i < |tenants| && Round(tenants) > 0
    ensures AtStepEnd(tenants, Rounds(tenants, q) + RoundUpTo(tenants, i))
  {
    hide StepOf, Position, Rounds, RoundUpTo;
    RoundGrows(tenants, i, |tenants|);
    PositionOf(tenants, q, RoundUpTo(tenants, i));
  }

  method ExpandTenantMix(tenants: seq<TenantClass>, targetInstances: int) returns (r: Result<Expansion, string>)
    requires ValidMix(tenants)
    ensures Round(tenants) > 0
    ensures r == if targetInstances < 0 then Failure("targetInstances") else Success(Expand(tenants, targetInstances))
  {
    hide ValidMix, CountsAre, AtStepEnd, Round, Rounds, RoundUpTo, Expanded, StepOf;
    NotEmpty(tenants);
    RoundPositive(tenants);
    if targetInstances < 0 {
      return Failure("targetInstances");
    }
    var counts: map<string, nat>, total: nat := InitialCounts(tenants);
    var truncated := false;
    ghost var base, q, missing := total, 0, Missing(tenants, targetInstances);
    StartGrowing(tenants, counts, missing);
    while total < targetInstances
      invariant base <= total && Growing(tenants, counts, total - base, missing, q, 0, truncated)
      decreases targetInstances - total
    {
      counts, total, truncated := GrowRound(tenants, targetInstances, counts, total, truncated, base, q);
      NextRound(tenants, counts, total - base, missing, q, truncated);
      q := q + 1;
    }
    if total > targetInstances {
      truncated := true;
    }
    EveryClassCounted(counts, tenants, total - base);
    var expanded := seq(|tenants|, i requires 0 <= i < |tenants| && tenants[i].key in counts =>
      ExpandedTenant(tenants[i].key, tenants[i].key, counts[tenants[i].key], tenants[i].sendsPerDay));
    CountsExpanded(counts, tenants, total - base, expanded);
    r := Success(Expansion(expanded, total, truncated));
  }

  lemma NotEmpty(tenants: seq<TenantClass>)
    requires ValidMix(tenants)
    ensures tenants != []
  {
  }

  lemma CountsExpanded(counts: map<string, nat>, tenants: seq<TenantClass>, n: nat, expanded: seq<ExpandedTenant>)
    requires tenants != [] && Round(tenants) > 0 && CountsAre(counts, tenants, n) && |expanded| == |tenants|
    requires forall i :: 0 <= i < |tenants| && tenants[i].key in counts ==>
               var cls := tenants[i]; expanded[i] == ExpandedTenant(cls.key, cls.key, counts[cls.key], cls.sendsPerDay)
    ensures expanded == Expanded(tenants, n)
  {
    hide Extra, Round;
  }

  lemma EveryClassCounted(counts: map<string, nat>, tenants: seq<TenantClass>, n: nat)
    requires tenants != [] && Round(tenants) > 0 && CountsAre(counts, tenants, n)
    ensures forall i :: 0 <= i < |tenants| ==> tenants[i].key in counts
  {
  }

  lemma StartGrowing(tenants: seq<TenantClass>, counts: map<string, nat>, missing: nat)
    requires tenants != [] && Round(tenants) > 0 && CountsAre(counts, tenants, 0) && AtStepEnd(tenants, 0)
    ensures Growing(tenants, counts, 0, missing, 0, 0, false)
  {
    hide CountsAre, AtStepEnd;
  }

  /** One walk over the classes. */
  method GrowRound(tenants: seq<TenantClass>, targetInstances: nat, counts0: map<string, nat>, total0: nat,
                   truncated0: bool,
                   ghost base: nat, ghost q: nat)
      returns (counts: map<string, nat>, total: nat, truncated: bool)
    requires ValidMix(tenants) && tenants != [] && Round(tenants) > 0
    requires base <= total0 < targetInstances
             && Growing(tenants, counts0, total0 - base, targetInstances - base, q, 0, truncated0)
    ensures total0 < total <= targetInstances
    ensures Growing(tenants, counts, total - base, targetInstances - base, q, |tenants|, truncated)
  {
    counts, total, truncated := counts0, total0, truncated0;
    var i := 0;
    hide Round, Rounds, RoundUpTo, AtStepEnd, StepOf, Extra;
    while i < |tenants|
      invariant i <= |tenants| && total0 <= total <= targetInstances && (i > 0 ==> total0 < total)
      invariant Growing(tenants, counts, total - base, targetInstances - base, q, i, truncated)
    {
      if total >= targetInstances {
        break;
      }
      var cls := tenants[i];
      var step := StepOf(cls.weight);
      var remaining := targetInstances - total;
      var applied := if step < remaining then step else remaining;
      GrowStep(tenants, counts, total - base, targetInstances - base, q, i, truncated, applied);
      if applied < step {
        truncated := true;
      }
      var grown: nat := counts[cls.key] + applied;
      counts := counts[cls.key := grown];
      total := total + applied;
      i := i + 1;
    }
  }

  method InitialCounts(tenants: seq<TenantClass>) returns (counts: map<string, nat>, total: nat)
    requires ValidMix(tenants) && Round(tenants) > 0
    ensures CountsAre(counts, tenants, 0) && total == BaseSum(tenants) && AtStepEnd(tenants, 0)
  {
    counts := map[];
    total := 0;
    for i := 0 to |tenants|
      invariant total == BaseSum(tenants[..i])
      invariant forall j :: 0 <= j < i ==> tenants[j].key in counts && counts[tenants[j].key] == tenants[j].instances
    {
      assert tenants[..i + 1][..i] == tenants[..i];
      counts := counts[tenants[i].key := tenants[i].instances];
      total := total + tenants[i].instances;
    }
    assert tenants[..|tenants|] == tenants;
    assert RoundUpTo(tenants, 0) == Position(tenants, 0);
  }

  /** Growing a class by its whole step ends at a step end; by less, it does not. */
  lemma StepEnd(tenants: seq<TenantClass>, q: nat, i: nat, applied: nat)
    requires i < |tenants| && Round(tenants) > 0 && 0 < applied <= StepOf(tenants[i].weight)
    ensures AtStepEnd(tenants, Rounds(tenants, q) + RoundUpTo(tenants, i) + applied)
            <==> applied == StepOf(tenants[i].weight)
  {
    hide StepOf, Nearest;
    var p := RoundUpTo(tenants, i) + applied;
    LastStep(tenants, i);
    if p == Round(tenants) {
      WholeRound(tenants, q);
      hide AtStepEnd, RoundUpTo, Rounds, Round;
    } else {
      PositionOf(tenants, q, p);
      if applied < StepOf(tenants[i].weight) {
        BetweenSteps(tenants, i, p);
      } else {
        StepBoundary(tenants, i);
      }
      hide Position, RoundUpTo, Rounds, Round;
    }
  }

  lemma StepBoundary(tenants: seq<TenantClass>, i: nat)
    requires i < |tenants| && RoundUpTo(tenants, i) + StepOf(tenants[i].weight) != Round(tenants)
    ensures i + 1 < |tenants| && RoundUpTo(tenants, i + 1) == RoundUpTo(tenants, i) + StepOf(tenants[i].weight)
  {
    hide StepOf, Nearest;
  }

  lemma WholeRound(tenants: seq<TenantClass>, q: nat)
    requires tenants != [] && Round(tenants) > 0
    ensures AtStepEnd(tenants, Rounds(tenants, q) + Round(tenants))
  {
    hide StepOf, Nearest;
    PositionOf(tenants, q + 1, 0);
    assert RoundUpTo(tenants, 0) == 0;
    assert Rounds(tenants, q + 1) == Rounds(tenants, q) + Round(tenants);
  }

  /** Only the last class, with its whole step, completes a round. */
  lemma LastStep(tenants: seq<TenantClass>, i: nat)
    requires i < |tenants|
    ensures RoundUpTo(tenants, i) + StepOf(tenants[i].weight) <= Round(tenants)
  {
    hide StepOf, Nearest;
    RoundGrows(tenants, i + 1, |tenants|);
  }

  lemma BetweenSteps(tenants: seq<TenantClass>, i: nat, p: nat)
    requires i < |tenants| && RoundUpTo(tenants, i) < p < RoundUpTo(tenants, i + 1)
    ensures forall j :: 0 <= j < |tenants| ==> RoundUpTo(tenants, j) != p
  {
    hide StepOf, Nearest;
    forall j | 0 <= j < |tenants| ensures RoundUpTo(tenants, j) != p {
      if j <= i { RoundGrows(tenants, j, i); } else { RoundGrows(tenants, i + 1, j); }
    }
  }

  lemma NextRound(tenants: seq<TenantClass>, counts: map<string, nat>, done: nat, missing: nat, q: nat, truncated: bool)
    requires tenants != [] && Round(tenants) > 0 && Growing(tenants, counts, done, missing, q, |tenants|, truncated)
    ensures Growing(tenants, counts, done, missing, q + 1, 0, truncated)
  {
    hide CountsAre, AtStepEnd;
  }

  // ---------------------------------------------------------------- what the expansion does

  function SumInstances(expanded: seq<ExpandedTenant>): nat {
    if expanded == [] then 0 else SumInstances(expanded[..|expanded| - 1]) + expanded[|expanded| - 1].instances
  }

  /** Base and extra instances of the classes before i. */
  function SumBoth(tenants: seq<TenantClass>, n: nat, i: nat): nat
    requires tenants != [] && Round(tenants) > 0 && i <= |tenants|
  {
    if i == 0 then 0 else SumBoth(tenants, n, i - 1) + tenants[i - 1].instances + Extra(tenants, i - 1, n)
  }

  lemma {:induction false} SumOfExpanded(tenants: seq<TenantClass>, n: nat, i: nat)
    requires tenants != [] && Round(tenants) > 0 && i <= |tenants|
    ensures SumInstances(Expanded(tenants, n)[..i]) == SumBoth(tenants, n, i)
  {
    hide Round, Extra;
    if i == 0 {
    } else {
      SumOfExpanded(tenants, n, i - 1);
      var e := Expanded(tenants, n)[..i];
      assert e[..|e| - 1] == Expanded(tenants, n)[..i - 1];
    }
  }

  lemma {:induction false} SumWithoutExtra(tenants: seq<TenantClass>, i: nat)
    requires tenants != [] && Round(tenants) > 0 && i <= |tenants|
    ensures SumBoth(tenants, 0, i) == BaseSum(tenants[..i])
  {
    hide Round, ClassAt;
    if i == 0 {
    } else {
      SumWithoutExtra(tenants, i - 1);
      assert tenants[..i][..i - 1] == tenants[..i - 1];
    }
  }

  lemma {:induction false} SumWithOneMore(tenants: seq<TenantClass>, n: nat, i: nat)
    requires tenants != [] && Round(tenants) > 0 && i <= |tenants|
    ensures SumBoth(tenants, n + 1, i) == SumBoth(tenants, n, i) + if ClassAt(tenants, n) < i then 1 else 0
  {
    hide Round, ClassAt;
    if i == 0 {
    } else {
      SumWithOneMore(tenants, n, i - 1);
    }
  }

  lemma {:induction false} SumOfExtra(tenants: seq<TenantClass>, n: nat)
    requires tenants != [] && Round(tenants) > 0
    ensures SumBoth(tenants, n, |tenants|) == BaseSum(tenants) + n
  {
    hide Round, SumBoth;
    if n == 0 {
      SumWithoutExtra(tenants, |tenants|);
      assert tenants[..|tenants|] == tenants;
    } else {
      SumOfExtra(tenants, n - 1);
      SumWithOneMore(tenants, n - 1, |tenants|);
    }
  }

  /** The counts add up to the reported total, and that is the target exactly when the base does not exceed it. */
  lemma CountsAddUp(tenants: seq<TenantClass>, target: nat)
    requires tenants != [] && Round(tenants) > 0
    ensures var e := Expand(tenants, target);
            SumInstances(e.tenants) == e.totalInstances && (e.totalInstances == target <==> BaseSum(tenants) <= target)
  {
    var n := Missing(tenants, target);
    SumOfExpanded(tenants, n, |tenants|);
    SumOfExtra(tenants, n);
    assert Expanded(tenants, n)[..|tenants|] == Expanded(tenants, n);
    hide Expanded, SumBoth, Round;
  }

  /** One more instance in the target is one more instance of exactly one class. */
  lemma OneMoreInstance(tenants: seq<TenantClass>, target: nat)
    requires tenants != [] && Round(tenants) > 0 && BaseSum(tenants) <= target
    ensures var a, b := Expand(tenants, target).tenants, Expand(tenants, target + 1).tenants;
            var c := ClassAt(tenants, target - BaseSum(tenants));
            |a| == |b| && c < |a| && b == a[c := a[c].(instances := a[c].instances + 1)]
  {
    hide Round, ClassAt;
  }

  /** Of p extra instances of one round, class c gets what its step has covered of them. */
  function Share(tenants: seq<TenantClass>, c: nat, p: nat): (k: nat)
    requires c < |tenants|
    ensures k <= StepOf(tenants[c].weight)
  {
    if p <= RoundUpTo(tenants, c) then 0
    else if p < RoundUpTo(tenants, c + 1) then p - RoundUpTo(tenants, c)
    else StepOf(tenants[c].weight)
  }

  function Times(q: nat, step: nat): nat { if q == 0 then 0 else Times(q - 1, step) + step }

  lemma ShareStep(tenants: seq<TenantClass>, c: nat, q: nat, p: nat)
    requires c < |tenants| && Round(tenants) > 0 && p < Round(tenants)
    ensures Share(tenants, c, p + 1)
            == Share(tenants, c, p) + if ClassAt(tenants, Rounds(tenants, q) + p) == c then 1 else 0
  {
    PositionOf(tenants, q, p);
    var i := ClassAt(tenants, Rounds(tenants, q) + p);
    if c < i { RoundGrows(tenants, c + 1, i); }
    if i < c { RoundGrows(tenants, i + 1, c); }
    assert RoundUpTo(tenants, c + 1) == RoundUpTo(tenants, c) + StepOf(tenants[c].weight);
    hide RoundUpTo, Position, Rounds, StepOf;
  }

  lemma ShareOfRound(tenants: seq<TenantClass>, c: nat)
    requires c < |tenants|
    ensures Share(tenants, c, 0) == 0 && Share(tenants, c, Round(tenants)) == StepOf(tenants[c].weight)
  {
    RoundGrows(tenants, c + 1, |tenants|);
    RoundGrows(tenants, 0, c);
    hide StepOf, Nearest;
  }

  /** q rounds and p more instances: class c has its whole step q times, and its share of the rest. */
  lemma {:induction false} ExtraInRounds(tenants: seq<TenantClass>, c: nat, q: nat, p: nat)
    requires c < |tenants| && Round(tenants) > 0 && p <= Round(tenants)
    ensures Extra(tenants, c, Rounds(tenants, q) + p) == Times(q, StepOf(tenants[c].weight)) + Share(tenants, c, p)
    decreases q, p
  {
    if p > 0 {
      ExtraInRounds(tenants, c, q, p - 1);
      ShareStep(tenants, c, q, p - 1);
      hide Share, ClassAt, Rounds, Times, StepOf;
    } else if q > 0 {
      ExtraInRounds(tenants, c, q - 1, Round(tenants));
      ShareOfRound(tenants, c);
      hide RoundUpTo, StepOf, Extra, Share, Round;
    } else {
      ShareOfRound(tenants, c);
      hide RoundUpTo, StepOf, Round, Share;
    }
  }

  /** Fairness: two classes never differ by more than one completed step, counted in their own steps. */
  lemma RoundsAreFair(tenants: seq<TenantClass>, c: nat, d: nat, n: nat) returns (q: nat)
    requires c < |tenants| && d < |tenants| && Round(tenants) > 0
    ensures Times(q, StepOf(tenants[c].weight)) <= Extra(tenants, c, n) <= Times(q + 1, StepOf(tenants[c].weight))
    ensures Times(q, StepOf(tenants[d].weight)) <= Extra(tenants, d, n) <= Times(q + 1, StepOf(tenants[d].weight))
  {
    var p;
    q, p := InRounds(tenants, n);
    ExtraInRounds(tenants, c, q, p);
    ExtraInRounds(tenants, d, q, p);
    hide Extra, Rounds, Round, StepOf, RoundUpTo;
  }

  lemma {:induction false} InRounds(tenants: seq<TenantClass>, n: nat) returns (q: nat, p: nat)
    requires Round(tenants) > 0
    ensures n == Rounds(tenants, q) + p && p < Round(tenants) && p == Position(tenants, n)
    decreases n
  {
    hide Round;
    if n < Round(tenants) {
      q, p := 0, n;
    } else {
      q, p := InRounds(tenants, n - Round(tenants));
      q := q + 1;
    }
  }

  /** The truncated flag: the target is below the base, or the last class to grow did not get its whole step. */
  lemma TruncatedMeaning(tenants: seq<TenantClass>, target: nat)
    requires tenants != [] && Round(tenants) > 0 && BaseSum(tenants) <= target
    ensures Expand(tenants, target).truncated <==>
            exists c: nat, q: nat :: c < |tenants| && PartStep(tenants, c, q, Missing(tenants, target))
  {
    var n := Missing(tenants, target);
    if AtStepEnd(tenants, n) {
      NobodyInside(tenants, n);
    } else {
      var c, q := SomebodyInside(tenants, n);
    }
    hide PartStep, Round, AtStepEnd;
  }

  lemma NobodyInside(tenants: seq<TenantClass>, n: nat)
    requires Round(tenants) > 0 && AtStepEnd(tenants, n)
    ensures forall c: nat, r: nat :: c < |tenants| ==> !PartStep(tenants, c, r, n)
  {
    var q, p := InRounds(tenants, n);
    var i: nat :| i < |tenants| && RoundUpTo(tenants, i) == p;
    hide PartStep, Round, RoundUpTo, Rounds, AtStepEnd, Position;
    forall c: nat, r: nat | c < |tenants| ensures !PartStep(tenants, c, r, n) {
      WholeSteps(tenants, c, r, q, i, n);
    }
  }

  lemma SomebodyInside(tenants: seq<TenantClass>, n: nat) returns (c: nat, q: nat)
    requires tenants != [] && Round(tenants) > 0 && !AtStepEnd(tenants, n)
    ensures c < |tenants| && PartStep(tenants, c, q, n)
  {
    var p;
    q, p := InRounds(tenants, n);
    c := ClassInRound(tenants, p, 0);
    assert RoundUpTo(tenants, c) != p;
    ExtraInRounds(tenants, c, q, p);
    hide Extra, Round, Rounds, StepOf, AtStepEnd, Position;
  }

  /** Class c has more than q of its steps, but less than q + 1. */
  predicate PartStep(tenants: seq<TenantClass>, c: nat, q: nat, n: nat)
    requires c < |tenants| && Round(tenants) > 0
  {
    Times(q, StepOf(tenants[c].weight)) < Extra(tenants, c, n) < Times(q + 1, StepOf(tenants[c].weight))
  }

  lemma {:induction false} TimesGrows(q: nat, r: nat, step: nat)
    requires q <= r
    ensures Times(q, step) <= Times(r, step)
    decreases r - q
  {
    if q < r { TimesGrows(q, r - 1, step); }
  }

  lemma ShareAtStart(tenants: seq<TenantClass>, c: nat, i: nat)
    requires c < |tenants| && i < |tenants|
    ensures Share(tenants, c, RoundUpTo(tenants, i)) == if c < i then StepOf(tenants[c].weight) else 0
  {
    if c < i { RoundGrows(tenants, c + 1, i); } else { RoundGrows(tenants, i, c); }
    hide StepOf, Nearest;
  }

  /** At the start of class i in round q, every class has had whole steps only. */
  lemma WholeStepsOf(tenants: seq<TenantClass>, c: nat, q: nat, i: nat, n: nat)
    requires c < |tenants| && i < |tenants| && Round(tenants) > 0 && n == Rounds(tenants, q) + RoundUpTo(tenants, i)
    ensures Extra(tenants, c, n) == Times(if c < i then q + 1 else q, StepOf(tenants[c].weight))
  {
    RoundGrows(tenants, i, |tenants|);
    assert RoundUpTo(tenants, i) <= Round(tenants);
    ShareAtStart(tenants, c, i);
    var step := StepOf(tenants[c].weight);
    assert Times(q + 1, step) == Times(q, step) + step;
    hide *;
    ExtraInRounds(tenants, c, q, RoundUpTo(tenants, i));
  }

  lemma WholeSteps(tenants: seq<TenantClass>, c: nat, r: nat, q: nat, i: nat, n: nat)
    requires c < |tenants| && i < |tenants| && Round(tenants) > 0 && n == Rounds(tenants, q) + RoundUpTo(tenants, i)
    ensures !PartStep(tenants, c, r, n)
  {
    var step := StepOf(tenants[c].weight);
    var k := if c < i then q + 1 else q;
    WholeStepsOf(tenants, c, q, i, n);
    hide Extra, Share, Round, RoundUpTo, Rounds, StepOf;
    if k <= r { TimesGrows(k, r, step); } else { TimesGrows(r + 1, k, step); }
  }
}
