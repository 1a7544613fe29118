/** nir/model.py: progress scores, the halving schedule and the division of one epoch's budget. */
module Emission {
  import opened Ordering
  import opened Results
  import opened Sums
  import opened Arithmetic
  import opened Halving
  import Utf8

  const ATOMIC_UNITS := 100_000_000
  const MAX_SUPPLY := 21_000_000 * ATOMIC_UNITS
  const TREASURY_BPS := 1_200
  const TREASURY_ALLOCATION := MAX_SUPPLY * TREASURY_BPS / 10_000
  const MINING_POOL := MAX_SUPPLY - TREASURY_ALLOCATION
  const INITIAL_EPOCH_REWARD := 44 * ATOMIC_UNITS
  const HALVING_INTERVAL := 210_000
  const BPS := 10_000

  datatype ProgressProof = ProgressProof(
    contributor: Text, artifactHash: Text, baselineHash: Text, evaluationFamily: Text,
    gainPpm: int, generalityBps: int, reproducibilityBps: int, safetyBps: int, noveltyBps: int,
    candidateEnergyWh: int, baselineEnergyWh: int)

  // ----- Validity, identity and score of one proof

  /** The code points str.strip removes. */
  predicate IsSpace(c: CodePoint) {
    9 <= c <= 13 || 28 <= c <= 32 || c == 0x85 || c == 0xA0 || c == 0x1680 || 0x2000 <= c <= 0x200A
    || c == 0x2028 || c == 0x2029 || c == 0x202F || c == 0x205F || c == 0x3000
  }

  predicate Blank(t: Text) {
    forall i | 0 <= i < |t| :: IsSpace(t[i])
  }

  predicate Valid(p: ProgressProof) {
    && !Blank(p.contributor) && !Blank(p.artifactHash) && !Blank(p.baselineHash) && !Blank(p.evaluationFamily)
    && p.artifactHash != p.baselineHash
    && p.gainPpm > 0
    && 0 <= p.generalityBps <= BPS && 0 <= p.reproducibilityBps <= BPS
    && 0 <= p.safetyBps <= BPS && 0 <= p.noveltyBps <= BPS
    && p.safetyBps >= 8_000
    && p.reproducibilityBps >= 6_667
    && p.candidateEnergyWh > 0 && p.baselineEnergyWh > 0
  }

  const BAR: CodePoint := 124

  /** The text whose digest is the proof's fingerprint. */
  function FingerprintText(p: ProgressProof): Text {
    p.artifactHash + [BAR] + p.baselineHash + [BAR] + p.evaluationFamily
  }

  function Bars(t: Text): nat {
    if t == [] then 0 else (if t[0] == BAR then 1 else 0) + Bars(t[1..])
  }

  predicate SameWork(p: ProgressProof, q: ProgressProof) {
    p.artifactHash == q.artifactHash && p.baselineHash == q.baselineHash && p.evaluationFamily == q.evaluationFamily
  }

  lemma {:induction false} BarsAppend(a: Text, b: Text)
    ensures Bars(a + b) == Bars(a) + Bars(b)
  {
    if a == [] {
      assert a + b == b;
    } else {
      BarsAppend(a[1..], b);
      assert (a + b)[1..] == a[1..] + b;
    }
  }

  lemma BarsInFingerprint(p: ProgressProof)
    ensures Bars(FingerprintText(p)) == Bars(p.artifactHash) + Bars(p.baselineHash) + Bars(p.evaluationFamily) + 2
  {
    var a, b, f := p.artifactHash, p.baselineHash, p.evaluationFamily;
    BarsAppend(a + [BAR] + b + [BAR], f);
    BarsAppend(a + [BAR] + b, [BAR]);
    BarsAppend(a + [BAR], b);
    BarsAppend(a, [BAR]);
    assert Bars([BAR]) == 1;
  }

  lemma {:induction false} SplitAtBar(a: Text, x: Text, b: Text, y: Text)
    requires Bars(a) == 0 && Bars(b) == 0 && a + [BAR] + x == b + [BAR] + y
    ensures a == b && x == y
  {
    var s, t := a + [BAR] + x, b + [BAR] + y;
    if a == [] || b == [] {
      assert s[0] == t[0];
      if a == [] && b == [] {
        assert s[1..] == x && t[1..] == y;
      }
    } else {
      assert s[1..] == a[1..] + [BAR] + x && t[1..] == b[1..] + [BAR] + y;
      assert s[0] == a[0] && t[0] == b[0];
      SplitAtBar(a[1..], x, b[1..], y);
      assert a == [a[0]] + a[1..] && b == [b[0]] + b[1..];
    }
  }

  /** The work a text stands for if it is cut at these two places. */
  datatype Work = Work(artifact: Text, baseline: Text, family: Text)

  predicate Cut(t: Text, i: int, j: int) {
    0 <= i < j < |t| && t[i] == BAR && t[j] == BAR
  }

  function WorkAt(t: Text, i: int, j: int): Work
    requires Cut(t, i, j)
  {
    Work(t[..i], t[i + 1..j], t[j + 1..])
  }

  /** What validation asks of the three fields. */
  predicate Admissible(w: Work) {
    !Blank(w.artifact) && !Blank(w.baseline) && !Blank(w.family) && w.artifact != w.baseline
  }

  /** No other choice of two separators gives fields that pass validation. */
  ghost predicate OneReading(p: ProgressProof) {
    var t := FingerprintText(p);
    forall i, j | Cut(t, i, j) && Admissible(WorkAt(t, i, j)) :: WorkAt(t, i, j) == WorkOf(p)
  }

  function WorkOf(p: ProgressProof): Work {
    Work(p.artifactHash, p.baselineHash, p.evaluationFamily)
  }

  lemma OwnCut(p: ProgressProof)
    ensures var t, i, j := FingerprintText(p), |p.artifactHash|, |p.artifactHash| + 1 + |p.baselineHash|;
            Cut(t, i, j) && WorkAt(t, i, j) == WorkOf(p)
  {
  }

  lemma CutAndJoined(t: Text, i: int, j: int)
    requires Cut(t, i, j)
    ensures var w := WorkAt(t, i, j); w.artifact + [BAR] + w.baseline + [BAR] + w.family == t
  {
  }

  /** Another piece of work hides behind the fingerprint of a valid proof, in a proof that is valid
      too, exactly when its text can be cut elsewhere into three fields that pass validation. */
  lemma FingerprintIsUnambiguous(p: ProgressProof)
    requires Valid(p)
    ensures (forall q: ProgressProof | Valid(q) && FingerprintText(q) == FingerprintText(p) :: SameWork(p, q)) <==> OneReading(p)
  {
    var t := FingerprintText(p);
    if OneReading(p) {
      forall q: ProgressProof | Valid(q) && FingerprintText(q) == t ensures SameWork(p, q) {
        OwnCut(q);
      }
    } else {
      var i, j :| Cut(t, i, j) && Admissible(WorkAt(t, i, j)) && WorkAt(t, i, j) != WorkOf(p);
      var w := WorkAt(t, i, j);
      var q := p.(artifactHash := w.artifact, baselineHash := w.baseline, evaluationFamily := w.family);
      CutAndJoined(t, i, j);
      assert Valid(q) && FingerprintText(q) == t && !SameWork(p, q);
    }
  }

  /** Fields without the separator, as digests and suite names are, leave one reading. */
  lemma NoBarsOneReading(p: ProgressProof)
    requires Bars(p.artifactHash) == 0 && Bars(p.baselineHash) == 0 && Bars(p.evaluationFamily) == 0
    ensures OneReading(p)
  {
    var t := FingerprintText(p);
    forall i, j | Cut(t, i, j) ensures WorkAt(t, i, j) == WorkOf(p) {
      var w := WorkAt(t, i, j);
      CutAndJoined(t, i, j);
      UnambiguousWithoutBars(p, p.(artifactHash := w.artifact, baselineHash := w.baseline, evaluationFamily := w.family));
    }
  }

  function SampleProof(w: Work): ProgressProof {
    ProgressProof([109], w.artifact, w.baseline, w.family, 1_000_000, BPS, BPS, BPS, BPS, 1, 1)
  }

  /** "a|b", "c", "d" and "a", "b|c", "d": two valid proofs of different work, one fingerprint text. */
  lemma TwoWorksOneText() returns (p: ProgressProof, q: ProgressProof)
    ensures Valid(p) && Valid(q) && !SameWork(p, q) && FingerprintText(p) == FingerprintText(q)
    ensures Score(p) > 0 && Score(q) > 0 && Utf8.Encodable(FingerprintText(p))
  {
    p := SampleProof(Work([97, BAR, 98], [99], [100]));
    q := SampleProof(Work([97], [98, BAR, 99], [100]));
    assert !IsSpace(97) && !IsSpace(98) && !IsSpace(99) && !IsSpace(100) && !IsSpace(109);
    assert p.contributor[0] == q.contributor[0] == 109;
    assert p.artifactHash[0] == q.artifactHash[0] == 97;
    assert p.baselineHash[0] == 99 && q.baselineHash[0] == 98 && p.evaluationFamily[0] == q.evaluationFamily[0] == 100;
    assert FingerprintText(p) == [97, BAR, 98, BAR, 99, BAR, 100] == FingerprintText(q);
  }

  /** A separator in a field need not do harm: "|x", "b", "f" has one reading, since every other
      cut leaves the artifact blank or is no cut of these fields. */
  lemma BarsCanBeHarmless() returns (p: ProgressProof)
    ensures Valid(p) && Bars(p.artifactHash) > 0 && OneReading(p)
  {
    p := SampleProof(Work([BAR, 120], [98], [102]));
    assert !IsSpace(BAR) && !IsSpace(120) && !IsSpace(98) && !IsSpace(102) && !IsSpace(109);
    assert p.contributor[0] == 109 && p.artifactHash[0] == BAR && p.baselineHash[0] == 98 && p.evaluationFamily[0] == 102;
    var t := FingerprintText(p);
    assert t == [BAR, 120, BAR, 98, BAR, 102];
    assert Blank([]) && t[..0] == [];
    forall i, j | Cut(t, i, j) && Admissible(WorkAt(t, i, j)) ensures WorkAt(t, i, j) == WorkOf(p) {
      assert i == 2 && j == 4;
      OwnCut(p);
    }
  }

  lemma UnambiguousWithoutBars(p: ProgressProof, q: ProgressProof)
    requires Bars(p.artifactHash) == 0 && Bars(p.baselineHash) == 0 && Bars(p.evaluationFamily) == 0
    requires FingerprintText(q) == FingerprintText(p)
    ensures SameWork(p, q)
  {
    BarsInFingerprint(p);
    BarsInFingerprint(q);
    Regroup(p);
    Regroup(q);
    SplitAtBar(p.artifactHash, Tail(p), q.artifactHash, Tail(q));
    SplitAtBar(p.baselineHash, p.evaluationFamily, q.baselineHash, q.evaluationFamily);
  }

  function Tail(p: ProgressProof): Text {
    p.baselineHash + [BAR] + p.evaluationFamily
  }

  lemma Regroup(p: ProgressProof)
    ensures FingerprintText(p) == p.artifactHash + [BAR] + Tail(p)
  {
  }

  function Scale(quality: nat, factor: nat): nat {
    quality * factor / BPS
  }

  function EfficiencyBps(p: ProgressProof): nat
    requires Valid(p)
  {
    var e := p.baselineEnergyWh * BPS / p.candidateEnergyWh;
    if e < 5_000 then 5_000 else if e > 20_000 then 20_000 else e
  }

  function Score(p: ProgressProof): nat
    requires Valid(p)
  {
    var quality := Scale(Scale(Scale(Scale(p.gainPpm, p.generalityBps), p.reproducibilityBps), p.safetyBps), p.noveltyBps);
    quality * EfficiencyBps(p) / BPS
  }

  lemma ScaleMonotone(q: nat, f: nat, r: nat, g: nat)
    requires q <= r && f <= g
    ensures Scale(q, f) <= Scale(r, g)
  {
    MulMonotone(q, f, r, g);
    DivMonotone(q * f, r * g, BPS);
  }

  /** A proof at least as good in every measure, on no more energy, never scores less. */
  lemma ScoreMonotone(p: ProgressProof, q: ProgressProof)
    requires Valid(p) && Valid(q)
    requires p.gainPpm <= q.gainPpm && p.generalityBps <= q.generalityBps && p.reproducibilityBps <= q.reproducibilityBps
    requires p.safetyBps <= q.safetyBps && p.noveltyBps <= q.noveltyBps
    requires p.baselineEnergyWh <= q.baselineEnergyWh && p.candidateEnergyWh >= q.candidateEnergyWh
    ensures Score(p) <= Score(q)
  {
    var p1, q1 := Scale(p.gainPpm, p.generalityBps), Scale(q.gainPpm, q.generalityBps);
    ScaleMonotone(p.gainPpm, p.generalityBps, q.gainPpm, q.generalityBps);
    var p2, q2 := Scale(p1, p.reproducibilityBps), Scale(q1, q.reproducibilityBps);
    ScaleMonotone(p1, p.reproducibilityBps, q1, q.reproducibilityBps);
    var p3, q3 := Scale(p2, p.safetyBps), Scale(q2, q.safetyBps);
    ScaleMonotone(p2, p.safetyBps, q2, q.safetyBps);
    ScaleMonotone(p3, p.noveltyBps, q3, q.noveltyBps);
    DivMonotone(p.baselineEnergyWh * BPS, q.baselineEnergyWh * BPS, p.candidateEnergyWh);
    DivAntitone(q.baselineEnergyWh * BPS, p.candidateEnergyWh, q.candidateEnergyWh);
    ScaleMonotone(Scale(p3, p.noveltyBps), EfficiencyBps(p), Scale(q3, q.noveltyBps), EfficiencyBps(q));
  }

  // ----- What a score measures

  /** A measure in basis points, as a share of one. */
  ghost function Share(bps: int): real {
    bps as real / 10_000.0
  }

  /** The gain times the four measures, before anything is rounded. */
  ghost function ExactQuality(p: ProgressProof): real {
    p.gainPpm as real * Share(p.generalityBps) * Share(p.reproducibilityBps) * Share(p.safetyBps) * Share(p.noveltyBps)
  }

  /** How much less energy the candidate needs: never counted as less than half, where it needs at
      least twice the baseline's, nor as more than double, where it needs at most half. */
  ghost function EnergyFactor(p: ProgressProof): real
    requires Valid(p)
  {
    if p.candidateEnergyWh >= 2 * p.baselineEnergyWh then 0.5
    else if 2 * p.candidateEnergyWh <= p.baselineEnergyWh then 2.0
    else p.baselineEnergyWh as real / p.candidateEnergyWh as real
  }

  ghost function ExactScore(p: ProgressProof): real
    requires Valid(p)
  {
    ExactQuality(p) * EnergyFactor(p)
  }

  /** A product, apart from the arithmetic around it. */
  ghost function Times(a: real, b: real): real {
    a * b
  }

  lemma TimesAtMost(x: real, y: real, f: real)
    requires x <= y && f >= 0.0
    ensures Times(x, f) <= Times(y, f) && Times(f, x) <= Times(f, y)
  {
  }

  lemma Distributed(a: real, b: real, f: real)
    ensures Times(a + b, f) == Times(a, f) + Times(b, f)
    ensures Times(f, a + b) == Times(f, a) + Times(f, b)
  {
  }

  lemma PartOf(k: real, f: real, most: real)
    requires k >= 0.0 && f <= most
    ensures Times(k, f) <= k * most
  {
  }

  lemma TimesShare(q: real, x: real, k: real, f: real)
    requires 0.0 <= q <= x <= q + k && 0.0 <= f <= 1.0
    ensures 0.0 <= Times(q, f) <= Times(x, f) <= Times(q, f) + k
  {
    NotNegative(q, f);
    hide Times;
    TimesAtMost(q, x, f);
    TimesAtMost(x, q + k, f);
    Distributed(q, k, f);
    PartOf(k, f, 1.0);
  }

  lemma NotNegative(q: real, f: real)
    requires q >= 0.0 && f >= 0.0
    ensures Times(q, f) >= 0.0
  {
  }

  /** Rounding down once more adds less than one to what is missing already. */
  lemma ScaleLoses(q: nat, f: nat, x: real, k: real)
    requires f <= BPS && q as real <= x < q as real + k
    ensures Scale(q, f) as real <= Times(x, Share(f)) < Scale(q, f) as real + k + 1.0
  {
    ScaleIsNear(q, f);
    ShareRange(f);
    hide Share, Scale, Times;
    TimesShare(q as real, x, k, Share(f));
  }

  lemma ScaleIsNear(q: nat, f: nat)
    ensures Scale(q, f) as real <= Times(q as real, Share(f)) < Scale(q, f) as real + 1.0
  {
    Floor(q * f, BPS);
    ProductAsReal(q, f);
    var w := Scale(q, f);
    assert BPS * w <= q * f < BPS * w + BPS;
  }

  lemma ShareRange(f: nat)
    requires f <= BPS
    ensures 0.0 <= Share(f) <= 1.0
  {
  }

  lemma ProductAsReal(q: nat, f: nat)
    ensures (q * f) as real == q as real * f as real
    ensures q as real * Share(f) == (q * f) as real / 10_000.0
  {
  }

  lemma ShareTimes(e: nat, c: nat, b: nat)
    requires c > 0 && c * e <= b * BPS < c * e + c
    ensures Share(e) <= b as real / c as real < Share(e + 1)
  {
    var x, d := b as real / c as real, c as real;
    QuotientTimes(b as real, d);
    assert (c * e) as real == e as real * d;
    assert (x * 10_000.0) * d == (b * BPS) as real by {
      assert (x * 10_000.0) * d == (x * d) * 10_000.0;
    }
    assert (e as real + 1.0) * d == e as real * d + d;
    CancelReal(e as real, x * 10_000.0, d);
    CancelReal(x * 10_000.0, e as real + 1.0, d);
  }

  lemma QuotientTimes(b: real, c: real)
    requires c > 0.0
    ensures b / c * c == b
  {
  }

  lemma CancelReal(a: real, b: real, c: real)
    requires c > 0.0
    ensures a * c <= b * c ==> a <= b
    ensures a * c < b * c ==> a < b
  {
  }

  lemma EfficiencyIsFactor(p: ProgressProof)
    requires Valid(p)
    ensures 5_000 <= EfficiencyBps(p) <= 20_000
    ensures Share(EfficiencyBps(p)) <= EnergyFactor(p) < Share(EfficiencyBps(p) + 1)
    ensures 0.5 <= EnergyFactor(p) <= 2.0
  {
    var b, c := p.baselineEnergyWh, p.candidateEnergyWh;
    Floor(b * BPS, c);
    if c >= 2 * b {
      DivAtMost(b * BPS, c, 5_000);
    } else if 2 * c <= b {
      DivAtLeast(b * BPS, c, 20_000);
    } else {
      DivAtLeast(b * BPS, c, 5_000);
      DivAtMost(b * BPS, c, 20_000);
      ShareTimes(b * BPS / c, c, b);
    }
  }

  function Quality(p: ProgressProof): nat
    requires Valid(p)
  {
    Scale(Scale(Scale(Scale(p.gainPpm, p.generalityBps), p.reproducibilityBps), p.safetyBps), p.noveltyBps)
  }

  lemma QualityIsNear(p: ProgressProof)
    requires Valid(p)
    ensures Quality(p) as real <= ExactQuality(p) < Quality(p) as real + 5.0
  {
    var x1 := Times(p.gainPpm as real, Share(p.generalityBps));
    var x2 := Times(x1, Share(p.reproducibilityBps));
    var x3 := Times(x2, Share(p.safetyBps));
    assert ExactQuality(p) == Times(x3, Share(p.noveltyBps));
    hide Scale, Share, Times, ExactQuality;
    var q1 := Scale(p.gainPpm, p.generalityBps);
    var q2 := Scale(q1, p.reproducibilityBps);
    var q3 := Scale(q2, p.safetyBps);
    ScaleLoses(p.gainPpm, p.generalityBps, p.gainPpm as real, 1.0);
    ScaleLoses(q1, p.reproducibilityBps, x1, 2.0);
    ScaleLoses(q2, p.safetyBps, x2, 3.0);
    ScaleLoses(q3, p.noveltyBps, x3, 4.0);
  }

  /** The score is the exact product of gain, measures and energy factor, less what six roundings
      down can take: at most 11, and one part in 10,000 of the quality for the energy ratio. */
  lemma ScoreIsNear(p: ProgressProof)
    requires Valid(p)
    ensures Score(p) as real <= ExactScore(p) < Score(p) as real + 11.0 + ExactQuality(p) / 10_000.0
  {
    var q, e := Quality(p), EfficiencyBps(p);
    assert ExactScore(p) == Times(ExactQuality(p), EnergyFactor(p));
    assert Score(p) == Scale(q, e);
    QualityIsNear(p);
    EfficiencyIsFactor(p);
    assert 0.0 <= Share(e) && Share(e + 1) == Share(e) + 1.0 / 10_000.0;
    ScaleIsNear(q, e);
    hide Scale, ExactQuality, ExactScore, Score, EnergyFactor, EfficiencyBps, Times, Share, Quality;
    Combine(q as real, ExactQuality(p), Share(e), EnergyFactor(p));
  }

  lemma Combine(q: real, x: real, e: real, f: real)
    requires 0.0 <= q <= x < q + 5.0 && 0.0 <= e <= f <= 2.0 && f <= e + 1.0 / 10_000.0
    ensures Times(q, e) <= Times(x, f) <= Times(q, e) + 10.0 + x / 10_000.0
  {
    var one := 1.0 / 10_000.0;
    assert Times(one, x) == x / 10_000.0 && Times(x, one) == x / 10_000.0;
    hide Times;
    TimesAtMost(q, x, e);
    TimesAtMost(e, f, x);
    TimesAtMost(f, e + one, x);
    Distributed(e, one, x);
    TimesAtMost(x, q + 5.0, e);
    Distributed(q, 5.0, e);
    PartOf(5.0, e, 2.0);
  }

  // ----- The halving schedule

  function EpochBudget(epoch: nat, reward: nat): nat {
    Halve(reward, epoch / HALVING_INTERVAL)
  }

  /** Epochs 0 .. epochs - 1, each settled once. */
  ghost function Scheduled(reward: nat, epochs: nat): nat {
    if epochs == 0 then 0 else Scheduled(reward, epochs - 1) + EpochBudget(epochs - 1, reward)
  }

  lemma EraOf(era: nat, into: nat)
    requires into < HALVING_INTERVAL
    ensures (era * HALVING_INTERVAL + into) / HALVING_INTERVAL == era
  {
    DivAtLeast(era * HALVING_INTERVAL + into, HALVING_INTERVAL, era);
    DivAtMost(era * HALVING_INTERVAL + into, HALVING_INTERVAL, era);
  }

  lemma {:induction false} ScheduledInEra(reward: nat, era: nat, into: nat)
    requires into <= HALVING_INTERVAL
    ensures Scheduled(reward, era * HALVING_INTERVAL + into) == Scheduled(reward, era * HALVING_INTERVAL) + into * Halve(reward, era)
  {
    if into > 0 {
      var b := Halve(reward, era);
      ScheduledInEra(reward, era, into - 1);
      EraOf(era, into - 1);
      assert (into - 1) * b + b == into * b;
    }
  }

  lemma {:induction false} ScheduledEras(reward: nat, eras: nat)
    ensures Scheduled(reward, eras * HALVING_INTERVAL) == HALVING_INTERVAL * HalvingSum(reward, eras)
  {
    if eras > 0 {
      ScheduledEras(reward, eras - 1);
      ScheduledInEra(reward, eras - 1, HALVING_INTERVAL);
      HalvingSumLast(reward, eras - 1);
      assert (eras - 1) * HALVING_INTERVAL + HALVING_INTERVAL == eras * HALVING_INTERVAL;
    }
  }

  lemma {:induction false} ScheduledGrows(reward: nat, a: nat, b: nat)
    requires a <= b
    ensures Scheduled(reward, a) <= Scheduled(reward, b)
    decreases b
  {
    if a < b {
      ScheduledGrows(reward, a, b - 1);
    }
  }

  /** However many epochs are settled, the schedule never asks for more than
      210,000 * (2R - ones(R)), and it asks for exactly that once the budget has reached zero. */
  lemma ScheduledTotal(reward: nat, epochs: nat)
    ensures Scheduled(reward, epochs) <= HALVING_INTERVAL * (2 * reward - OneBits(reward))
    ensures EpochBudget(epochs, reward) == 0 ==> Scheduled(reward, epochs) == HALVING_INTERVAL * (2 * reward - OneBits(reward))
  {
    var era := epochs / HALVING_INTERVAL;
    ScheduledEras(reward, era);
    ScheduledEras(reward, era + 1);
    HalvingClosedForm(reward, era);
    HalvingClosedForm(reward, era + 1);
    OneBitsAtMost(Halve(reward, era));
    OneBitsAtMost(Halve(reward, era + 1));
    var total, sum, next := 2 * reward - OneBits(reward), HalvingSum(reward, era), HalvingSum(reward, era + 1);
    assert next <= total;
    assert HALVING_INTERVAL * next <= HALVING_INTERVAL * total;
    Floor(epochs, HALVING_INTERVAL);
    ScheduledGrows(reward, epochs, (era + 1) * HALVING_INTERVAL);
    if EpochBudget(epochs, reward) == 0 {
      assert sum == total;
      ScheduledInEra(reward, era, epochs - era * HALVING_INTERVAL);
      assert (epochs - era * HALVING_INTERVAL) * Halve(reward, era) == 0;
    }
  }

  /** What settling epochs 0, 1, 2, ... once each has mined. */
  ghost function MinedBySchedule(epochs: nat): nat {
    if epochs == 0 then 0
    else
      var before := MinedBySchedule(epochs - 1);
      before + Min(EpochBudget(epochs - 1, INITIAL_EPOCH_REWARD), MINING_POOL - before)
  }

  lemma DefaultRewardBits()
    ensures OneBits(INITIAL_EPOCH_REWARD) == 9
    ensures HALVING_INTERVAL * (2 * INITIAL_EPOCH_REWARD - 9) == MINING_POOL - 9 * HALVING_INTERVAL
  {
    assert INITIAL_EPOCH_REWARD == 4_400_000_000;
    BitsOf44(INITIAL_EPOCH_REWARD);
  }

  lemma DefaultRewardEnds()
    ensures Halve(INITIAL_EPOCH_REWARD, 33) == 0
  {
    EndOf44();
  }

  /** At the default reward the remaining-pool limit never binds, whatever the epoch reached,
      and after 33 halvings exactly 9 * 210,000 atomic units of the pool are left for ever. */
  lemma {:induction false} DefaultScheduleIssues(epochs: nat)
    ensures MinedBySchedule(epochs) == Scheduled(INITIAL_EPOCH_REWARD, epochs)
    ensures EpochBudget(epochs, INITIAL_EPOCH_REWARD) <= MINING_POOL - MinedBySchedule(epochs)
    ensures epochs >= 33 * HALVING_INTERVAL ==> MinedBySchedule(epochs) == MINING_POOL - 9 * HALVING_INTERVAL
  {
    DefaultRewardBits();
    DefaultRewardEnds();
    if epochs > 0 {
      DefaultScheduleIssues(epochs - 1);
    }
    ScheduledTotal(INITIAL_EPOCH_REWARD, epochs + 1);
    ScheduledTotal(INITIAL_EPOCH_REWARD, epochs);
    if epochs >= 33 * HALVING_INTERVAL {
      assert epochs / HALVING_INTERVAL >= 33;
      HalveZero(INITIAL_EPOCH_REWARD, 33, epochs / HALVING_INTERVAL);
    }
  }
}
