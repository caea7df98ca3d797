# Queueing metrics engine, modelled in Dafny

This project models the fourteen steady-state evaluators of a queueing-theory
calculator. Each evaluator takes arrival rates, service rates, server counts,
capacities or per-class lists. It returns either an error or a record of
metrics: utilisation, the empty-system probability, the state distribution,
L, Lq, W, Wq, blocking probability, effective arrival rate and cost.

Every evaluator is modelled on exact `real` arithmetic. Each one returns
`Result<T> = Ok(value) | Err(error)`, where `QueueError` has one constructor
per error message of the source. The source computes with Python `float` or
`Decimal` and builds result dictionaries with Portuguese keys. In the model a
result is a record. A per-class result is a `seq` indexed by class position,
so "Classe k" is entry k - 1. The M/G/1 non-preemptive evaluator reports
entries in its sorted order, each carrying its original key k.

| module | file | models |
|---|---|---|
| `Numeric` | numeric.dfy | `Pow`, `Fact`, sums over `seq<real>`, first moments, geometric series, division helpers |
| `Outcome` | outcome.dfy | `Result` and the error messages |
| `Priority` | priority.dfy | running totals over priority classes, and monotonicity of two-factor denominators |
| `MM1` | mm1.dfy | `models/mm1_queue.py` |
| `MG1` | mg1.dfy | `models/mg1_queue.py` (Pollaczek–Khinchine) |
| `MMC` | mmc.dfy | `models/mmc_queue.py` (Erlang C) |
| `MM1K` | mm1k.dfy | `models/mm1k_queue.py` |
| `MMCK` | mmck.dfy | `models/mmck_queue.py` |
| `MM1N` | mm1n.dfy | `models/mm1n_queue.py` (finite population, forward recursion) |
| `MMCN` | mmcn.dfy | `models/mmcn_queue.py` (machine repairman) |
| `MM1NonPreemptive` | mm1np.dfy | `models/mm1_non_preemptive_priority.py` |
| `MM1Preemptive` | mm1pp.dfy | `models/mm1_preemptive_priority.py` |
| `MG1NonPreemptive` | mg1np.dfy | `models/mg1_non_preemptive_priority.py` (shortest-service-time ordering) |
| `MG1Preemptive` | mg1pp.dfy | `models/mg1_preemptive_priority.py` |
| `MMCNonPreemptive` | mmcnp.dfy | `models/mmc_non_preemptive_priority.py` |
| `MMCNoPreemptive` | mmcnop.dfy | `models/mmc_no_preemptive_priority.py` (validated variant) |
| `MMCPreemptive` | mmcpp.dfy | `models/mmc_preemptive_priority.py` (one server, or the several-server back-solve) |

## How the model is shaped

- **Pure evaluators become functions.** The M/M/1, M/G/1 and M/M/c
  evaluators are straight-line expressions, so they are `function`s over
  `real`.
- **Loops become methods.** Where the source builds a list or a sum in a
  loop, the loop is a `method` with invariants, and its `ensures` ties the
  result to a specification function. Examples are the state distributions
  of M/M/1/K and M/M/s/K, the forward recursion of M/M/1/N, the two
  normalising sums of M/M/s/N, and the per-class loops of the priority
  evaluators. The three algorithmic loops, with what each method is proved
  equal to:
  - the forward recursion: `MM1N.BuildWeights`, equal to `MM1N.Weights`;
  - the preemptive multi-server back-solve, which reads earlier classes'
    W: `MMCPreemptive.ManyServersLoop`, equal to `MMCPreemptive.Waits`;
  - the shortest-service-time reordering with keys restored to input
    positions: `MG1NonPreemptive.QueueMetrics`, equal to
    `MG1NonPreemptive.Entries`.
- **Properties are lemmas about the specification functions:**
  normalisation of every distribution, Little's law, the Erlang-C identities,
  monotonicity of waiting times in priority order, and agreement between
  evaluators that share formulas.
- **Crashes become preconditions.** Where the source would raise a Python
  exception that it does not catch (a division by zero), the model
  excludes that input with a `requires`. The `Admissible` and `Defined`
  predicates carry these; "## Left out" lists them all. For the priority
  evaluators, M/M/1/N and M/M/s/N, lemmas (`StableIsAdmissible`,
  `NeverDividesByZero`, `TotalAtLeastOne`, `PositiveThroughput`) show that
  the preconditions hold for nonnegative rates under the hypotheses each
  states. Some excluded inputs are real crashes of the source that no lemma
  discharges, such as M/M/s/K with K < s; these are named in "## Left out".
- **Error paths the source handles are modelled as `Err` results**, in the
  order the source checks them.
- **Shared formulas are defined once.** The validated M/M/s non-preemptive
  evaluator computes `termo` with the same expression as the other
  evaluator's `termo1` (models/mmc_no_preemptive_priority.py:64 and
  models/mmc_non_preemptive_priority.py:38). Both therefore use
  `MMCNonPreemptive.ErlangFactor`.

## Model

| member | source | states |
|---|---|---|
| MM1.QueueMetrics | models/mm1_queue.py:18-53 | the instability error exactly when μ <= λ; when stable, the threshold error exactly when t1 < 0 or t2 < 0; metrics otherwise |
| MM1.MeanNumberIdentity | models/mm1_queue.py:27-35 | ρ/(1 - ρ) = λ/(μ - λ), so L = λ W |
| MM1.QueueIdentity | models/mm1_queue.py:27-31 | ρ/(1 - ρ) - ρ²/(1 - ρ) = ρ, i.e. L - Lq = ρ |
| MM1.SojournIdentity | models/mm1_queue.py:35-39 | 1/(μ - λ) = ρ/(μ - λ) + 1/μ, i.e. W = Wq + 1/μ |
| MM1.MeanValues | models/mm1_queue.py:23-39 | in terms of λ and μ: λ W = L, λ Wq = Lq, L - Lq = ρ and W = Wq + 1/μ |
| MM1.LittleLaw | models/mm1_queue.py:23-39 | on the returned record: λ W = L, λ Wq = Lq, L - Lq = ρ, W = Wq + 1/μ |
| MM1.EmptyProbability | models/mm1_queue.py:43-49 | P0 = P(n=0) = 1 - ρ and P(n>0) = ρ; 0 < P0 <= 1 when λ >= 0 |
| MM1.DistributionPrefix | models/mm1_queue.py:63-65 | Σ_{k<=n} ρ^k (1 - ρ) = 1 - ρ^(n+1) |
| MM1.StateDistribution | models/mm1_queue.py:63-65 | the reported P(n in system) is entry n of the geometric distribution, and the reported 1 - ρ^(n+1) is the sum of its first n+1 entries |
| MG1.QueueMetrics | models/mg1_queue.py:12-16 | an error exactly when ρ = λ/μ >= 1, and it is the instability error |
| MG1.MeanValues | models/mg1_queue.py:19-31 | P0 = 1 - ρ, L = ρ + Lq, W = Wq + 1/μ, λ Wq = Lq and λ W = L |
| MG1.QueueLengthFormulaNonNegative | models/mg1_queue.py:22 | (λ²σ² + ρ²)/(2(1 - ρ)) >= 0 for σ² >= 0 and 0 <= ρ < 1 |
| MG1.QueueLengthNonNegative | models/mg1_queue.py:22 | the reported Lq is >= 0 for 0 < λ < μ and σ² >= 0 |
| MG1.ExponentialService | models/mg1_queue.py:22 | with σ² = 1/μ² the Pollaczek–Khinchine Lq is ρ²/(1 - ρ) |
| MG1.ExponentialServiceIsMM1 | models/mg1_queue.py:22 | with σ² = 1/μ² the reported Lq equals the M/M/1 evaluator's Lq (models/mm1_queue.py:31) |
| MMC.QueueMetrics | models/mmc_queue.py:17-53 | the instability error exactly when cμ <= λ; the threshold error only after stability passed; metrics exactly when stable and both thresholds are >= 0 |
| MMC.ErlangSumAtLeastOne | models/mmc_queue.py:23-26 | Σ_{n<c} a^n/n! >= 1 for a >= 0 and c >= 1 |
| MMC.EmptyProbability | models/mmc_queue.py:28-32 | 0 < P0 <= 1 and P0 (Σ_{n<c} a^n/n! + a^c/(c!(1 - ρ))) = 1 |
| MMC.QueueProbabilityShare | models/mmc_queue.py:35-37 | P_queue = P0 · a^c/c! · 1/(1 - ρ) |
| MMC.NoWaitLinear | models/mmc_queue.py:77-80 | P(Wq = 0) = (Σ_{n<c} a^n/n!) P0 |
| MMC.WaitOrNot | models/mmc_queue.py:23-37 | 0 < P_queue <= 1, P_queue + P(Wq = 0) = 1, and P(Wq = 0) = Σ_{k<c} P_k |
| MMC.StableParameters | models/mmc_queue.py:17-20 | a stable input has μ > 0, c >= 1, a > 0 and 0 < ρ < 1 |
| MMC.WaitingProbability | models/mmc_queue.py:20-37 | on the returned record: 0 < ρ < 1, 0 < P0 <= 1, 0 < P_queue <= 1, P_queue + P(Wq = 0) = 1 |
| MMC.NoWaitIsCumulative | models/mmc_queue.py:77-80 | the no-wait sum up to k <= c equals Σ_{j<k} P_j |
| MMC.MeanValues | models/mmc_queue.py:40-49 | L = Lq + a, W = Wq + 1/μ and Lq > 0 |
| MMC.LittleLaw | models/mmc_queue.py:40-49 | λ Wq = Lq and λ W = L |
| MMC.BranchesAgree | models/mmc_queue.py:87-95 | the two branches of P_k agree at k = c |
| MMC.StateDistribution | models/mmc_queue.py:86-110 | P_n > 0; P(N <= n) = Σ_{k<=n} P_k = Σ_{k<n} P_k + P_n; P(N > n) + P(N <= n) = 1 |
| MMC.StateProbabilityPositive | models/mmc_queue.py:98-105 | every P_k is positive |
| MMC.CumulativeMonotone | models/mmc_queue.py:107 | Σ_{k<n} P_k strictly increases with n |
| MMC.SingleServerProbabilities | models/mmc_queue.py:23-37 | with c = 1: P0 = 1 - a and P_queue = a |
| MMC.SingleServerCore | models/mmc_queue.py:20-40 | with c = 1: ρ, P0 and Lq equal the M/M/1 evaluator's, and P_queue = ρ |
| MMC.SingleServerState | models/mmc_queue.py:98-105 | with c = 1: P_k = a^k (1 - a) |
| MMC.SingleServerIsMM1 | models/mmc_queue.py:40-49 | with c = 1: L, Wq and W equal the M/M/1 evaluator's |
| MMC.SingleServerDistribution | models/mmc_queue.py:87-95 | with c = 1: P_n equals the M/M/1 evaluator's P(n in system) |
| MM1K.EmptyProbability | models/mm1k_queue.py:22-25 | P0 > 0 and P0 Σ_{n<=K} ρ^n = 1, in both branches (ρ = 1 and ρ != 1) |
| MM1K.Normalisation | models/mm1k_queue.py:22-25 | ρ != 1 implies ρ^(K+1) != 1, and both branch formulas of P0 are positive and normalise 1, ρ, ..., ρ^K |
| MM1K.MetricsOf | models/mm1k_queue.py:19-59 | for λ, μ > 0: ρ = λ/μ; P0 from its two branches; Pn = P0 ρ^n for n = 0..K; P_block = P_K; λ_eff = λ(1 - P_block); L by its ρ = 1 / ρ != 1 closed forms; Lq = L - (1 - P0); W and Wq as L/λ_eff and Lq/λ_eff, or 0 when λ_eff <= 0; cost = c_w L + c_s |
| MM1K.QueueMetrics | models/mm1k_queue.py:16-59 | an error exactly when μ <= 0 or λ <= 0; otherwise MM1K.MetricsOf |
| MM1K.BuildDistribution | models/mm1k_queue.py:28-30 | the loop builds P0 ρ^n for n = 0 .. K |
| MM1K.Blocking | models/mm1k_queue.py:33-36 | P_block = Pn[K] lies in (0, 1], λ_eff = λ(1 - P_block), and 0 <= λ_eff < λ |
| MM1K.ReportedDistribution | models/mm1k_queue.py:28-44 | Pn has K+1 entries, Pn[n] = P0 ρ^n > 0, Σ Pn = 1, and L = Σ n Pn[n], for every ρ > 0 including ρ = 1 |
| MM1K.QueueLength | models/mm1k_queue.py:50 | Lq = Σ_{n>=1} (n - 1) Pn[n] >= 0 |
| MM1K.LittleLaw | models/mm1k_queue.py:46-53 | W and Wq are 0 when λ_eff <= 0; otherwise λ_eff W = L and λ_eff Wq = Lq |
| MM1K.DistributionSumsToOne | models/mm1k_queue.py:28-30 | the distribution sums to 1 |
| MM1K.DistributionPositive | models/mm1k_queue.py:28-30 | every entry is positive |
| MM1K.MeanNumberIsMoment | models/mm1k_queue.py:39-44 | the closed form of L, K/2 at ρ = 1, equals Σ n Pn[n] |
| MM1K.WeightedMean | models/mm1k_queue.py:39-44 | P0 Σ n ρ^n equals the closed form of L |
| MM1K.WeightedMeanAtOne | models/mm1k_queue.py:39-40 | at ρ = 1, P0 Σ n = K/2 |
| MM1K.WeightedMeanAwayFromOne | models/mm1k_queue.py:41-44 | for ρ != 1, P0 Σ n ρ^n = ρ/(1 - ρ) - (K+1)ρ^(K+1)/(1 - ρ^(K+1)) |
| MM1K.QueueLengthIsExcess | models/mm1k_queue.py:50 | L - (1 - P0) = Σ_{n>=1} (n - 1) Pn[n] >= 0 |
| MMCK.NormalisingSum | models/mmck_queue.py:31-36 | sum1 + sum2: Σ_{n<s} a^n/n! plus (a^s/s!)(1 - ρ^(K-s+1))/(1 - ρ) for ρ != 1, or plus the bare K - s + 1 at ρ = 1 |
| MMCK.QueueLength | models/mmck_queue.py:60-63 | for ρ != 1, P0 a^s ρ (1 - ρ^(K-s)(K - s + 1 - (K - s)ρ)) / (s! (1 - ρ)²); 0 at ρ = 1 |
| MMCK.MetricsOf | models/mmck_queue.py:24-79 | for admissible positive inputs: ρ = λ/(sμ), a = λ/μ, P0 = 1/NormalisingSum, the two-branch Pn for n = 0..K, P_block = P_K, λ_eff = λ(1 - P_block), Lq by QueueLength, L = Σ n Pn, W and Wq guarded by λ_eff != 0, the service time 1/μ, busy servers Σ min(n, s) Pn, cost = c_w L + c_s s |
| MMCK.QueueMetrics | models/mmck_queue.py:21-79 | an error exactly when λ, μ, s or K is <= 0; otherwise MMCK.MetricsOf |
| MMCK.BuildDistribution | models/mmck_queue.py:41-48 | the loop builds the two-branch Pn for n = 0 .. K |
| MMCK.Summary | models/mmck_queue.py:51-54 | P_K > 0 gives P_block > 0 and λ_eff < λ; P_K < 1 gives P_block < 1 and λ_eff > 0 |
| MMCK.DistributionStep | models/mmck_queue.py:41-48 | the list grows by one entry, P_k of the M/M/c formula |
| MMCK.HeadSum | models/mmck_queue.py:41-44 | the first n <= s entries sum to (Σ_{j<n} a^j/j!) P0 |
| MMCK.QueuedTermGeometric | models/mmck_queue.py:46-47 | a^(s+j)/(s! s^j) = a^s/s! · ρ^j |
| MMCK.TailTerm | models/mmck_queue.py:46-47 | P_{s+j} = (a^s/s!) P0 ρ^j |
| MMCK.TailIsGeometric | models/mmck_queue.py:41-48 | the entries from s on form a geometric sequence with ratio ρ |
| MMCK.DistributionSum | models/mmck_queue.py:41-48 | Σ Pn = (Σ_{j<s} a^j/j!) P0 + (a^s/s!) P0 Σ_{j<K-s+1} ρ^j |
| MMCK.DistributionExcess | models/mmck_queue.py:41-48 | Σ (n - s) Pn over the queued states = (a^s/s!) P0 Σ j ρ^j |
| MMCK.TailFactor | models/mmck_queue.py:34-35 | (1 - ρ^j)/(1 - ρ) = Σ_{i<j} ρ^i |
| MMCK.NormalisingSumSeries | models/mmck_queue.py:31-36 | the normalising sum is the Erlang part plus a^s/s! Σ ρ^j for ρ != 1, and plus the bare K - s + 1 at ρ = 1 |
| MMCK.NormalisingSumAtLeastOne | models/mmck_queue.py:31-36 | for a > 0, ρ > 0 and 1 <= s <= K the normalising sum exceeds 1 |
| MMCK.CapacityCoversServers | models/mmck_queue.py:31-38 | with s <= K the normalising sum exceeds 1 and 0 < P0 < 1 |
| MMCK.Normalisation | models/mmck_queue.py:31-48 | for ρ != 1 and s <= K the reported Pn sums to 1 |
| MMCK.DistributionNormalised | models/mmck_queue.py:31-48 | for ρ != 1 and s <= K the distribution built from P0 sums to 1 |
| MMCK.QueueLengthSeries | models/mmck_queue.py:60-63 | for ρ != 1 the closed-form Lq = (a^s/s!) P0 Σ j ρ^j |
| MMCK.QueueFactor | models/mmck_queue.py:60-62 | (1 - ρ)² Σ_{j<=K-s} j ρ^j = ρ(1 - ρ^(K-s)(K-s+1 - (K-s)ρ)) |
| MMCK.DistributionPositive | models/mmck_queue.py:41-48 | every entry is positive |
| MMCK.ClosedFormIsExcess | models/mmck_queue.py:60-66 | for ρ != 1, 1 <= s <= K and a = sρ the closed-form Lq equals Σ_{n>s} (n - s) Pn |
| MMCK.QueueLengthIsExcess | models/mmck_queue.py:60-76 | for ρ != 1: Lq = Σ (n - s) Pn and L = Lq + busy servers |
| MMCK.QueueLengthAtOne | models/mmck_queue.py:60-63 | at ρ = 1 with s < K the reported Lq is 0 although Σ (n - s) Pn > 0 |
| MMCK.Blocking | models/mmck_queue.py:51-54 | P_block > 0 and λ_eff < λ; for ρ != 1 also P_block < 1 and λ_eff > 0 |
| MMCK.BusyServers | models/mmck_queue.py:75-76 | 0 <= busy servers <= L, and busy servers <= s for ρ != 1 |
| MMCK.LittleLaw | models/mmck_queue.py:68-72 | W and Wq are 0 when λ_eff = 0; otherwise λ_eff W = L and λ_eff Wq = Lq |
| MMCK.GuardedLittleLaw | models/mmck_queue.py:68-72 | the same law for any record whose W and Wq are the guarded quotients |
| MM1N.Weights | models/mm1n_queue.py:20-27 | N+1 unnormalised probabilities, entry n being the recurrence's value |
| MM1N.Summary | models/mm1n_queue.py:39-45 | λ_eff W = L and λ_eff Wq = Lq, with λ_eff = λ(N - L) |
| MM1N.MetricsOf | models/mm1n_queue.py:19-48 | the weights normalised by their sum; L = Σ n p_n; Lq = L - (1 - p_0); λ_eff = λ(N - L); W = L/λ_eff and Wq = Lq/λ_eff unguarded; cost = c_w L + c_s |
| MM1N.QueueMetrics | models/mm1n_queue.py:16-48 | the instability error exactly when μ <= λ; otherwise MM1N.MetricsOf |
| MM1N.BuildWeights | models/mm1n_queue.py:20-27 | the loop builds p_n = p_{n-1} λ(N - n + 1)/μ from p_0 = 1, and the running constant is their sum |
| MM1N.ExtendWeights | models/mm1n_queue.py:25-26 | appending the next p_n keeps every entry equal to the recurrence |
| MM1N.WeightClosedForm | models/mm1n_queue.py:25 | p_n = (λ/μ)^n N(N-1)...(N-n+1) |
| MM1N.WeightSign | models/mm1n_queue.py:25 | p_n >= 0 for λ >= 0, and p_n > 0 for λ > 0 |
| MM1N.WeightTotal | models/mm1n_queue.py:20-27 | the unnormalised entries are nonnegative and their sum is >= 1 |
| MM1N.Normalisation | models/mm1n_queue.py:30 | the normalised list has N+1 nonnegative entries summing to 1 |
| MM1N.ProperDistribution | models/mm1n_queue.py:30 | for λ > 0 and N >= 1 also 0 < p_0 < 1 and p_1 > 0 |
| MM1N.QueueLengthIsExcess | models/mm1n_queue.py:33-36 | L - (1 - p_0) = Σ_{n>=1} (n - 1) p_n >= 0 |
| MM1N.PositiveThroughput | models/mm1n_queue.py:39-45 | for λ > 0 and N >= 1, 0 < L < N and 0 < λ(N - L) < λN, so the unguarded divisions are defined |
| MMCN.Weights | models/mmcn_queue.py:23-36 | the m unnormalised terms, each by its branch |
| MMCN.Distribution | models/mmcn_queue.py:41-53 | the list has N+1 entries, entry n being Pn(n) |
| MMCN.MeansOf | models/mmcn_queue.py:56-62 | μ(L - Lq) = λ_eff |
| MMCN.QueueRelation | models/mmcn_queue.py:59-62 | with Lq = L - (λ/μ)(N - L): μ(L - Lq) = λ(N - L) = λ_eff |
| MMCN.Report | models/mmcn_queue.py:62-71 | W and Wq are 0 when λ_eff <= 0; otherwise λ_eff W = L and λ_eff Wq = Lq |
| MMCN.Total | models/mmcn_queue.py:22-38 | sum1 + sum2: the binomial terms C(N, n) a^n for n < min(s, N + 1), plus the terms N!/((N - n)! s! s^(n-s)) a^n for s <= n <= N; P0 is its reciprocal |
| MMCN.MetricsOf | models/mmcn_queue.py:19-71 | for admissible inputs: ρ = Nλ/(sμ), a = λ/μ, P0 = 1/Total, Pn for n = 0..N, L = Σ n Pn, Lq = L - a(N - L), λ_eff = λ(N - L), W and Wq guarded by λ_eff > 0, cost = c_w L + c_s s |
| MMCN.QueueMetrics | models/mmcn_queue.py:19-71 | no error result: every admissible input yields MMCN.MetricsOf |
| MMCN.FirstSum | models/mmcn_queue.py:23-28 | the loop computes sum1 = Σ_{n<min(s,N+1)} C(N,n) a^n |
| MMCN.SecondSum | models/mmcn_queue.py:30-36 | the loop computes sum2 = Σ_{s<=n<=N} N!/((N-n)! s! s^(n-s)) a^n, 0 when N < s |
| MMCN.TailSumBelowServers | models/mmcn_queue.py:32-36 | sum2 is 0 over states below s |
| MMCN.BranchesAgree | models/mmcn_queue.py:44-51 | the two branch formulas coincide at n = s |
| MMCN.SumsCoverStates | models/mmcn_queue.py:23-38 | sum1 + sum2 is the sum of the N+1 terms |
| MMCN.StateProbabilityShape | models/mmcn_queue.py:41-51 | Pn(n) = 0 for n < 0 or n > N, and term(n) P0 otherwise |
| MMCN.WeightSign | models/mmcn_queue.py:41-51 | terms are >= 0, and > 0 when a > 0 |
| MMCN.EmptyWeight | models/mmcn_queue.py:24-28 | the n = 0 term is 1 |
| MMCN.TotalAtLeastOne | models/mmcn_queue.py:23-38 | sum1 + sum2 >= 1 for λ >= 0, μ > 0, s >= 1 and N >= 0, so P0 is defined |
| MMCN.DistributionIsScaled | models/mmcn_queue.py:38-53 | the probabilities are the terms divided by sum1 + sum2 |
| MMCN.Normalisation | models/mmcn_queue.py:38-53 | 0 < P0 <= 1, Pn(0) = P0, every entry is >= 0, and the N+1 entries sum to 1 |
| MMCN.PositiveThroughput | models/mmcn_queue.py:56-62 | for λ > 0 and N >= 1, 0 < L < N and 0 < λ_eff < λN |
| MM1NonPreemptive.CumulativeUtilisation | models/mm1_non_preemptive_priority.py:21-26 | the loop builds σ with σ_i = ρ_0 + ... + ρ_i |
| MM1NonPreemptive.SigmaIsRunningLoad | models/mm1_non_preemptive_priority.py:21-36 | σ_i = Λ_i/μ, and σ_{i-1} = Λ_{i-1}/μ, which is 0 for the first class |
| MM1NonPreemptive.ClassOf | models/mm1_non_preemptive_priority.py:39-45 | the entry carries λ_i, and L_i - Lq_i = λ_i/μ |
| MM1NonPreemptive.MetricsOf | models/mm1_non_preemptive_priority.py:28-47 | one entry per input class, in input order, carrying that class's λ |
| MM1NonPreemptive.QueueMetrics | models/mm1_non_preemptive_priority.py:14-54 | the instability error exactly when Σλ/μ >= 1; otherwise the per-class entries |
| MM1NonPreemptive.StableIsAdmissible | models/mm1_non_preemptive_priority.py:38-41 | with λ_j >= 0 and stability every denominator (1 - σ_{i-1})(1 - σ_i) is > 0 |
| MM1NonPreemptive.DenominatorBounds | models/mm1_non_preemptive_priority.py:40 | the denominators are positive and shrink from class i to class j >= i |
| MM1NonPreemptive.WaitNondecreasing | models/mm1_non_preemptive_priority.py:33-41 | Wq_i <= Wq_j for i <= j: a lower priority never waits less |
| MM1NonPreemptive.SingleClassIsMM1 | models/mm1_non_preemptive_priority.py:14-41 | with one class: the same stability verdict as the M/M/1 evaluator, and Wq equals its Wq (models/mm1_queue.py:39) |
| MM1Preemptive.ClassOf | models/mm1_preemptive_priority.py:26-32 | the entry carries λ_i and the total ρ, and Lq_i = Λ_i Wq_i |
| MM1Preemptive.MetricsOf | models/mm1_preemptive_priority.py:20-41 | one entry per input position, carrying its own λ and the same total ρ |
| MM1Preemptive.QueueMetrics | models/mm1_preemptive_priority.py:16-43 | the instability error exactly when Σλ/μ >= 1; otherwise the per-class entries |
| MM1Preemptive.DenominatorBounds | models/mm1_preemptive_priority.py:26-27 | for nonnegative rates the denominators lie in (0, 1] and shrink with the class |
| MM1Preemptive.StableIsAdmissible | models/mm1_preemptive_priority.py:26-29 | for nonnegative rates and μ > 0 no stable input divides by zero |
| MM1Preemptive.WaitsOrdered | models/mm1_preemptive_priority.py:26-30 | Wq_i >= 0 and W_i <= W_j for i <= j |
| MM1Preemptive.HighestPriorityClass | models/mm1_preemptive_priority.py:22-29 | W_1 = 1/(μ - λ_1), whatever the other classes are |
| MG1NonPreemptive.JobsOf | models/mg1_non_preemptive_priority.py:27-28 | job k is (k, λ_k, E[S]_k, Var_k) |
| MG1NonPreemptive.Insert | models/mg1_non_preemptive_priority.py:27-30 | insertion adds exactly one job to the multiset |
| MG1NonPreemptive.SortByTime | models/mg1_non_preemptive_priority.py:27-30 | the sort is a permutation of its input |
| MG1NonPreemptive.InsertSorted | models/mg1_non_preemptive_priority.py:27-30 | inserting a job with a larger index into a sorted list keeps it sorted by (E[S], index) |
| MG1NonPreemptive.SortIsSorted | models/mg1_non_preemptive_priority.py:27-30 | jobs in index order come out sorted by E[S], equal E[S] kept in input order (a stable sort) |
| MG1NonPreemptive.SortedUnique | models/mg1_non_preemptive_priority.py:27-30 | two sorted permutations of the same jobs are equal, so the stable order is unique |
| MG1NonPreemptive.InsertTotal | models/mg1_non_preemptive_priority.py:37-38 | an inserted job adds its own share to any column total |
| MG1NonPreemptive.SortKeepsTotal | models/mg1_non_preemptive_priority.py:37-41 | column totals, such as Σ λE[S], do not depend on the reordering |
| MG1NonPreemptive.DenominatorIsTwoFactor | models/mg1_non_preemptive_priority.py:54-58 | the i = 0 denominator 2(1 - σ_0) is the general 2(1 - σ_{i-1})(1 - σ_i) with σ_{-1} = 0 |
| MG1NonPreemptive.Entries | models/mg1_non_preemptive_priority.py:37-76 | one entry per class in sorted order: entry i is class i's record, with Wq = Σ_j λ_j E[S²]_j over Denominator(u, i) on the sorted utilisations u, and key original index + 1 |
| MG1NonPreemptive.QueueMetrics | models/mg1_non_preemptive_priority.py:17-78 | the length error exactly when the lists differ in length; then the instability error exactly when Σ λ_i E[S]_i >= 1; otherwise the entries in sorted order |
| MG1NonPreemptive.ClassesSorted | models/mg1_non_preemptive_priority.py:27-35 | the classes are sorted by E[S] and are a permutation of the input positions' jobs |
| MG1NonPreemptive.ClassIsInput | models/mg1_non_preemptive_priority.py:27-35 | each sorted class is the triple of its original input position |
| MG1NonPreemptive.EntryCarriesInput | models/mg1_non_preemptive_priority.py:66-70 | entry i has key (original index + 1) in 1..n and carries that input position's λ, E[S] and Var |
| MG1NonPreemptive.KeysDistinct | models/mg1_non_preemptive_priority.py:66 | no two entries share a key |
| MG1NonPreemptive.EveryClassReported | models/mg1_non_preemptive_priority.py:66 | every key 1..n is reported |
| MG1NonPreemptive.WaitOf | models/mg1_non_preemptive_priority.py:44-60 | Wq = Σ_j λ_j E[S²]_j / denominator, with the same numerator, over the input order, for every class |
| MG1NonPreemptive.EntryLittleLaw | models/mg1_non_preemptive_priority.py:60-64 | W = Wq + E[S], L = λW and Lq = λ Wq |
| MG1NonPreemptive.DenominatorBounds | models/mg1_non_preemptive_priority.py:54-58 | with nonnegative utilisations summing below 1 the denominators are > 0 and shrink in sorted order |
| MG1NonPreemptive.StableIsAdmissible | models/mg1_non_preemptive_priority.py:54-60 | with nonnegative inputs no stable input divides by zero |
| MG1NonPreemptive.WaitNondecreasing | models/mg1_non_preemptive_priority.py:49-60 | in sorted order Wq never decreases |
| MG1Preemptive.LittleLaw | models/mg1_preemptive_priority.py:49-52 | Lq = λ Wq, L = λ W and W = Wq + E[S] |
| MG1Preemptive.MetricsOf | models/mg1_preemptive_priority.py:36-58 | one entry per input position, carrying its λ, E[S], Var and ρ_i = λ_i E[S]_i |
| MG1Preemptive.QueueMetrics | models/mg1_preemptive_priority.py:17-31 | the length error exactly when the lists differ; then the instability error exactly when Σ λ_i E[S]_i >= 1; otherwise the per-class entries |
| MG1Preemptive.ClassesLoop | models/mg1_preemptive_priority.py:36-65 | the loop fills exactly the entries of MG1Preemptive.MetricsOf |
| MG1Preemptive.StableIsAdmissible | models/mg1_preemptive_priority.py:43-49 | with nonnegative inputs no denominator 2(1 - Σ_{j>=i} ρ_j) is zero |
| MG1Preemptive.SuffixesOrdered | models/mg1_preemptive_priority.py:43-46 | the sums over classes j >= i are nonnegative and shrink as i grows |
| MG1Preemptive.Wait | models/mg1_preemptive_priority.py:46-49 | Wq = numerator / (2(1 - load)), with numerator Σ_{j>=i} λ_j E[S²]_j and load Σ_{j>=i} ρ_j |
| MG1Preemptive.WaitOf | models/mg1_preemptive_priority.py:43-49 | Wq_i = Σ_{j>=i} λ_j E[S²]_j / (2(1 - Σ_{j>=i} ρ_j)), using only classes j >= i |
| MG1Preemptive.WaitNonIncreasing | models/mg1_preemptive_priority.py:43-49 | with nonnegative inputs Wq_j <= Wq_i for i <= j (ascending priority order) |
| MG1Preemptive.LastClassWait | models/mg1_preemptive_priority.py:43-49 | the last class's Wq uses only its own λ, E[S] and Var |
| MG1Preemptive.SingleClassIsMG1 | models/mg1_preemptive_priority.py:43-49 | one class's Wq equals the M/G/1 evaluator's Wq with μ = 1/E[S] and σ² = Var (models/mg1_queue.py:22-25) |
| MG1Preemptive.LastClassIsMG1 | models/mg1_preemptive_priority.py:43-49 | the last class's Wq equals the single-class M/G/1 Wq with μ = 1/E[S] and σ² = Var |
| MMCNonPreemptive.ClassOf | models/mmc_non_preemptive_priority.py:43-49 | Wq (termo1 termo2 termo3) = 1, W - Wq = 1/μ, Lq = λWq, L = λW, L - Lq = λ/μ |
| MMCNonPreemptive.FirstZero | models/mmc_non_preemptive_priority.py:42-45 | the class found has a zero divisor |
| MMCNonPreemptive.FirstZeroIsFirst | models/mmc_non_preemptive_priority.py:31-45 | every class before it has a nonzero divisor |
| MMCNonPreemptive.ErlangFactor | models/mmc_non_preemptive_priority.py:23-38 | termo1 = s!(sμ - Λ)/r^s Σ_{j<s} r^j/j! + sμ, with Λ the total rate and r = Λ/μ; the other M/M/s non-preemptive evaluator's termo (models/mmc_no_preemptive_priority.py:57-64) is the same function |
| MMCNonPreemptive.Classes | models/mmc_non_preemptive_priority.py:31-57 | given termo1: the division error of the first class whose termo1·termo2·termo3 is zero, named by its 1-based position, or one record per class |
| MMCNonPreemptive.Report | models/mmc_non_preemptive_priority.py:17-59 | the instability error when Λ >= sμ; otherwise Classes with termo1 = ErlangFactor(Λ, μ, s) |
| MMCNonPreemptive.QueueMetrics | models/mmc_non_preemptive_priority.py:14-58 | the evaluator returns MMCNonPreemptive.Report |
| MMCNonPreemptive.ClassesLoop | models/mmc_non_preemptive_priority.py:31-57 | the loop returns the first zero-division error or every entry |
| MMCNonPreemptive.ErrorCases | models/mmc_non_preemptive_priority.py:20-45 | the instability error exactly when λ_total >= sμ; when stable, an error exactly when some divisor is 0, naming the first such class |
| MMCNonPreemptive.ReportEntries | models/mmc_non_preemptive_priority.py:31-57 | entry i is the class record for λ_i and termo1 termo2 termo3 of class i |
| MMCNonPreemptive.ErlangFactorExceedsCapacity | models/mmc_non_preemptive_priority.py:23-38 | termo1 > sμ when 0 < λ_total < sμ |
| MMCNonPreemptive.FactorBounds | models/mmc_non_preemptive_priority.py:39-40 | 0 < termo3 <= termo2 <= 1 for nonnegative rates |
| MMCNonPreemptive.ProductBounds | models/mmc_non_preemptive_priority.py:43 | the divisors are positive and shrink with the class |
| MMCNonPreemptive.NeverDividesByZero | models/mmc_non_preemptive_priority.py:42-45 | with nonnegative rates, λ_total > 0 and stability the division error is never returned |
| MMCNonPreemptive.EntriesWaitOrdered | models/mmc_non_preemptive_priority.py:43 | 0 <= Wq_i <= Wq_j for i <= j |
| MMCNonPreemptive.WaitNondecreasing | models/mmc_non_preemptive_priority.py:38-43 | on the report: 0 <= Wq_i <= Wq_j for i <= j |
| MMCNonPreemptive.DivisionByZeroReachable | models/mmc_non_preemptive_priority.py:42-45 | rates [1, -0.5] with μ = 1, s = 1 are stable and yield the division error for class 1 (termo3 = 0 at the first class) |
| MMCNoPreemptive.ClassOf | models/mmc_no_preemptive_priority.py:82-94 | Wq > 0, W - Wq = 1/μ, Lq = λWq, and the entry carries ρ_total |
| MMCNoPreemptive.FirstRefused | models/mmc_no_preemptive_priority.py:75-79 | the class found fails the guard |
| MMCNoPreemptive.FirstRefusedIsFirst | models/mmc_no_preemptive_priority.py:71-79 | every class before it passes the guard |
| MMCNoPreemptive.Classes | models/mmc_no_preemptive_priority.py:71-94 | given termo and ρ_total: the refusal of the first class where termo, termo2 or termo3 is <= 0, or one record per class |
| MMCNoPreemptive.Report | models/mmc_no_preemptive_priority.py:34-96 | the errors for μ <= 0, s <= 0, a negative λ_i and Λ >= sμ, in that order; otherwise Classes with termo = ErlangFactor(Λ, μ, s) and ρ_total = Λ/(sμ) |
| MMCNoPreemptive.QueueMetrics | models/mmc_no_preemptive_priority.py:34-96 | the evaluator returns MMCNoPreemptive.Report |
| MMCNoPreemptive.ClassesLoop | models/mmc_no_preemptive_priority.py:71-96 | the loop returns the first guard error or every entry |
| MMCNoPreemptive.ValidationOrder | models/mmc_no_preemptive_priority.py:34-52 | the errors for μ <= 0, then s <= 0, then some λ_i < 0, then λ_total >= sμ, each exactly when the earlier checks pass |
| MMCNoPreemptive.NeverRefused | models/mmc_no_preemptive_priority.py:75-79 | once the checks pass, the per-class guard never fires |
| MMCNoPreemptive.SameClassMetrics | models/mmc_no_preemptive_priority.py:82-86 | a class record has the same W, Wq, L, Lq as the other M/M/s non-preemptive evaluator's (models/mmc_non_preemptive_priority.py:43-49) |
| MMCNoPreemptive.SameEntries | models/mmc_no_preemptive_priority.py:57-86 | entry i agrees with the other evaluator's entry i |
| MMCNoPreemptive.AgreesWithNonPreemptive | models/mmc_no_preemptive_priority.py:57-86 | for valid stable inputs both evaluators succeed and report the same W, Wq, L, Lq for every class |
| MMCNoPreemptive.ReportEntries | models/mmc_no_preemptive_priority.py:71-94 | entry i is built from termo, termo2, termo3 of class i and ρ_total = λ_total/(sμ), with 0 <= ρ_total < 1 |
| MMCNoPreemptive.WaitNondecreasing | models/mmc_no_preemptive_priority.py:82 | Wq_i <= Wq_j for i <= j |
| MMCPreemptive.ClassOf | models/mmc_preemptive_priority.py:136-139 | Wq = W - 1/μ, L = Λ_i W and Lq = Λ_i Wq |
| MMCPreemptive.FirstBadDenominator | models/mmc_preemptive_priority.py:68-72 | the class found has a nonpositive denominator |
| MMCPreemptive.FirstBadIsFirst | models/mmc_preemptive_priority.py:64-72 | every class before it has a positive denominator |
| MMCPreemptive.LastTermNonNegative | models/mmc_preemptive_priority.py:95-99 | below capacity the last term of Pw is >= 0 |
| MMCPreemptive.PwCases | models/mmc_preemptive_priority.py:90-103 | Pw exists exactly when λ < sμ, and then 0 <= Pw < 1 |
| MMCPreemptive.Waits | models/mmc_preemptive_priority.py:106-134 | a successful run over n classes yields exactly n times |
| MMCPreemptive.RunningRatesBelowCapacity | models/mmc_preemptive_priority.py:108-111 | for nonnegative rates summing below sμ every Λ_i lies in [0, sμ) |
| MMCPreemptive.WaitsErrPersists | models/mmc_preemptive_priority.py:111-115 | once a class is refused, that refusal is the loop's result |
| MMCPreemptive.WaitsStep | models/mmc_preemptive_priority.py:108-134 | one more class appends exactly its solved W |
| MMCPreemptive.LastTerm | models/mmc_preemptive_priority.py:95-99 | (a^s/s!) sμ/(sμ - λ) with a = λ/μ, computed before the sign of sμ - λ is tested |
| MMCPreemptive.Pw | models/mmc_preemptive_priority.py:90-103 | None when sμ - λ <= 0; otherwise LastTerm/(Σ_{k<s} a^k/k! + LastTerm) |
| MMCPreemptive.MeanWait | models/mmc_preemptive_priority.py:117-118 | W̄_i = Pw/(sμ - Λ_i) + 1/μ, the mean time in the system of the top i + 1 classes together |
| MMCPreemptive.NextWait | models/mmc_preemptive_priority.py:120-132 | W_1 = W̄_1; for a later class, 0 when λ_i = 0 and otherwise (Λ_i W̄_i - Σ_{j<i} λ_j W_j)/λ_i |
| MMCPreemptive.OneServer | models/mmc_preemptive_priority.py:63-87 | the s = 1 branch: the refusal of the first class whose denominator is <= 0, or one record per class with W = (1/μ)/denominator |
| MMCPreemptive.ManyServers | models/mmc_preemptive_priority.py:105-148 | the s > 1 branch: the refusal from Waits, or one record per computed W |
| MMCPreemptive.Report | models/mmc_preemptive_priority.py:39-148 | the errors for μ <= 0, s <= 0, a negative λ_i and Σλ/(sμ) >= 1, in that order; otherwise OneServer when s = 1 and ManyServers when s > 1 |
| MMCPreemptive.QueueMetrics | models/mmc_preemptive_priority.py:39-148 | the evaluator returns MMCPreemptive.Report |
| MMCPreemptive.OneServerLoop | models/mmc_preemptive_priority.py:63-87 | the s = 1 loop returns the first bad-denominator error or every entry |
| MMCPreemptive.ManyServersLoop | models/mmc_preemptive_priority.py:106-148 | the s > 1 loop, which reads back the earlier W's, returns MMCPreemptive.ManyServers |
| MMCPreemptive.ValidationOrder | models/mmc_preemptive_priority.py:39-58 | the errors for μ <= 0, then s <= 0, then some λ_i < 0, then ρ >= 1, each exactly when the earlier checks pass |
| MMCPreemptive.StableRefusals | models/mmc_preemptive_priority.py:57-115 | after the checks only a denominator or Pw error can remain |
| MMCPreemptive.WaitsRefuseOnlyClasses | models/mmc_preemptive_priority.py:111-115 | the several-server loop refuses only for an undefined Pw |
| MMCPreemptive.SameAsMM1 | models/mmc_preemptive_priority.py:74-78 | the s = 1 record equals the M/M/1 preemptive evaluator's record (models/mm1_preemptive_priority.py:26-32) |
| MMCPreemptive.OneServerIsMM1 | models/mmc_preemptive_priority.py:63-87 | for s = 1 every class's W, Wq, L, Lq equal the M/M/1 preemptive evaluator's |
| MMCPreemptive.OneServerOk | models/mmc_preemptive_priority.py:68-72 | after the checks the s = 1 denominator guard never fires |
| MMCPreemptive.NeverUndefined | models/mmc_preemptive_priority.py:111-115 | for s > 1 after the checks the None branch of Pw is never taken |
| MMCPreemptive.WaitsPrefix | models/mmc_preemptive_priority.py:106-134 | the first m times of a run are the run over m classes |
| MMCPreemptive.BackSolveStep | models/mmc_preemptive_priority.py:120-134 | appending class i's W makes Σ_{j<=i} λ_j W_j = Λ_i W̄_i unless λ_i = 0 with i > 0, when W_i = 0 |
| MMCPreemptive.MeanWaitAtLeastService | models/mmc_preemptive_priority.py:111-118 | every computed class has a Pw, and W̄_i >= 1/μ |
| MMCPreemptive.WaitsAt | models/mmc_preemptive_priority.py:106-134 | in a longer run, class i's W is the one solved from the earlier W's and W̄_i |
| MMCPreemptive.Conservation | models/mmc_preemptive_priority.py:117-132 | for every computed class: W_1 = W̄_1; Σ_{j<=i} λ_j W_j = Λ_i W̄_i when λ_i != 0; W_i = 0 when λ_i = 0 and i > 0 |

## Left out

- The tail probabilities are left out: P(W > t) and P(Wq > t) at models/mm1_queue.py:57-60 and models/mmc_queue.py:55-84. They need `math.exp`, which has no exact `real` counterpart. The threshold check that guards them is modelled.
- Rounding and precision are left out: `round`, `_round`, `float(...)` and `Decimal(str(...))` conversions, and the global `getcontext().prec = 10`. The model computes exact rationals. Float overflow for large factorials is left out for the same reason.
- The `try/except` conversions of untyped inputs are left out (models/mmc_preemptive_priority.py:29-48, models/mmc_no_preemptive_priority.py:24-42). Model inputs are already typed.
- Portuguese result keys and dictionary shapes are left out. Results are records, and per-class dictionaries are sequences indexed by class position.
- The web layer is left out: app.py, the route modules, form parsing and templates are not part of this model.
- Python exceptions that the source does not catch are `requires` clauses, not error results. The complete list:
  - λ = 0 in M/G/1 and M/M/c, where Wq = Lq/λ;
  - μ = 0 where it is not validated: M/M/1, M/G/1, M/M/1/N, M/M/s/N, the unvalidated M/M/s non-preemptive evaluator, and both M/M/1 priority evaluators;
  - a zero λ(N - L) in M/M/1/N;
  - λ_total = 0 (r^s = 0) in both M/M/s non-preemptive evaluators;
  - s = 0 in the unvalidated M/M/s non-preemptive evaluator;
  - a running rate equal to sμ in `Pw`, which divides before its guard (models/mmc_preemptive_priority.py:95-100);
  - M/M/s/K (`MMCK.Admissible`): with K < s, a normalising sum of zero, where 1/(sum1 + sum2) divides by zero (models/mmck_queue.py:36). This happens with positive inputs. In exact arithmetic, μ = 1, s = 4, K = 1 and λ = 3 + √15 give 1 + 4ρ - (8/3)ρ² = 0.
  - M/M/s/N (`MMCN.Admissible`):
    - s = 0 divides by zero at models/mmcn_queue.py:19;
    - s < 0 makes `math.factorial` raise at models/mmcn_queue.py:34-35;
    - N < 0 leaves both sums empty, so P0 = 1/0 at models/mmcn_queue.py:38;
    - a zero sum1 + sum2, which needs λ/μ < 0, divides by zero at models/mmcn_queue.py:38.
  - the four M/M/1 and M/G/1 priority evaluators (`Admissible` in MM1NonPreemptive, MM1Preemptive, MG1NonPreemptive, MG1Preemptive): a stable input with a zero per-class denominator. This needs a negative rate, time or variance.

  Which of these are discharged, and under what hypotheses:
  - `StableIsAdmissible`, in each of the four priority evaluators: the denominators are nonzero when every rate, time and variance is nonnegative and μ > 0.
  - `MMCN.TotalAtLeastOne`: sum1 + sum2 is nonzero when λ >= 0, μ > 0 and s >= 1.
  - `MM1N.PositiveThroughput` and `MMCN.PositiveThroughput`: λ(N - L) is nonzero when λ > 0, μ > 0 and N >= 1.
  - `MMCK.CapacityCoversServers`: the normalising sum is nonzero when s <= K.
  - `MMCNonPreemptive.NeverDividesByZero`: no division error when the rates are nonnegative with a positive total.
  - Not discharged: λ = 0, μ = 0, λ_total = 0, s <= 0, N < 0, and M/M/s/K with K < s. These are crashes of the source.
- MMCPreemptive.Pw: requires its rate to differ from sμ, because the source divides by sμ - λ before testing its sign. Every call the evaluator makes satisfies this.
- MM1.QueueMetrics: the number of customers n is a `nat`. The source does not validate it (routes/mm1.py:32). For a negative n and ρ != 0 it computes 1 - ρ^(n+1) and ρ^n (1 - ρ) with negative exponents (models/mm1_queue.py:63-65), and for ρ = 0 it raises. The model does not cover negative n.
- MMC.QueueMetrics: the arrival rate is required to be positive whenever the system is stable, and c and n are `nat`s. The source checks none of these (routes/mmc.py:21-23). It handles the excluded inputs as follows:
  - A negative λ below cμ passes the stability test (models/mmc_queue.py:17-18) and is computed without error. For example, λ = -1, μ = 1, c = 1, n = 0 gives ρ = -1, P0 = 2, Lq = 0.5, Wq = -0.5 and P_n = 2. The model does not cover these values, and its probability bounds do not hold for them.
  - A negative c returns the instability error when cμ <= λ. Otherwise `math.factorial` raises a ValueError.
  - A negative n makes `math.factorial` raise at models/mmc_queue.py:87-90.
- MM1K.QueueMetrics: K is a `nat`. The source does not validate K, and a negative K crashes at models/mm1k_queue.py:33.
- MMCK.Normalisation: claimed only for ρ != 1 and s <= K. At ρ = 1 the source's second normalisation term is the bare K - s + 1, without a^s/s!, so its Pn need not sum to 1. Its Lq is also 0 there, as MMCK.QueueLengthAtOne shows. The model keeps both as written.
- MMCK.QueueLengthIsExcess: stated for s <= K. For K < s the source's closed-form Lq is a formula the model reproduces but does not relate to the distribution.
- MMCN.QueueMetrics: Lq is computed as L - (λ/μ)(N - L), as the source does (models/mmcn_queue.py:59). No claim is made that it equals Σ (n - s) Pn.
- MM1N.Weights: a negative N gives the one-entry list [1], because the source's loop range is empty. The closed form uses a falling product, which is not related to factorials.
- MG1NonPreemptive.QueueMetrics: the stable sort is modelled as insertion sort keyed by (E[S], original index). The lemma MG1NonPreemptive.SortedUnique shows this is the unique order Python's stable `sorted` produces.
- MMCNonPreemptive.QueueMetrics: the source's division error is reachable only with negative rates, which this evaluator does not validate (see MMCNonPreemptive.DivisionByZeroReachable).
