/** The spending cap shared by concurrent resolver calls (scripts/eval_anchored_time.py `_UsageTap`,
    lines 212-245). Code between two awaits runs alone, so one call is three atomic steps: reserve an
    estimate or be refused, then complete, or fail. Dollars are reals. */
module UsageBudget {
  import opened Common

  datatype Rates = Rates(prompt: real, completion: real)

  /** What the estimate looks at: the length of the messages, and the two completion limits. */
  datatype Request = Request(chars: nat, maxCompletionTokens: Option<nat>, maxTokens: Option<nat>)

  datatype Usage = Usage(promptTokens: nat, completionTokens: nat)

  datatype Tap = Tap(spent: real, reserved: real, refused: bool, maxCompletionSeen: nat)

  const MILLION := 1000000.0

  /** `a or b or c` on token counts: zero counts as missing. */
  function CompletionLimit(r: Request, seen: nat): nat {
    if r.maxCompletionTokens.Some? && r.maxCompletionTokens.value != 0 then r.maxCompletionTokens.value
    else if r.maxTokens.Some? && r.maxTokens.value != 0 then r.maxTokens.value
    else seen
  }

  function Estimate(r: Request, seen: nat, rates: Rates): real {
    (r.chars as real / 4.0 * rates.prompt + CompletionLimit(r, seen) as real * rates.completion) / MILLION
  }

  function Cost(u: Usage, rates: Rates): real {
    (u.promptTokens as real * rates.prompt + u.completionTokens as real * rates.completion) / MILLION
  }

  ghost predicate NonNegativeRates(rates: Rates) {
    rates.prompt >= 0.0 && rates.completion >= 0.0
  }

  // ----- the three atomic steps --------------------------------------------------------------

  predicate Fits(tap: Tap, maxUsd: real, est: real) {
    tap.spent + tap.reserved + est <= maxUsd
  }

  function Reserve(tap: Tap, maxUsd: real, est: real): Tap {
    if Fits(tap, maxUsd, est) then tap.(reserved := tap.reserved + est) else tap.(refused := true)
  }

  function Release(tap: Tap, est: real): Tap {
    tap.(reserved := tap.reserved - est)
  }

  function Bill(tap: Tap, usage: Option<Usage>, rates: Rates): Tap {
    match usage
    case None => tap
    case Some(u) =>
      tap.(maxCompletionSeen := if u.completionTokens > tap.maxCompletionSeen then u.completionTokens else tap.maxCompletionSeen,
           spent := tap.spent + Cost(u, rates))
  }

  // ----- runs --------------------------------------------------------------------------------

  /** An admitted call that waits for its response. */
  datatype InFlight = InFlight(id: nat, request: Request, est: real)

  datatype Step = Begin(id: nat, request: Request) | Complete(id: nat, usage: Option<Usage>) | Fail(id: nat)

  /** The tap, the calls waiting for a response, and three tallies kept for the statement: dollars
      billed beyond the estimates in all, the part of it since the last admission, and the calls that
      ended since then. */
  datatype World = World(tap: Tap, calls: seq<InFlight>, overrun: real, recentOverrun: real, recentEnded: nat)

  const START := World(Tap(0.0, 0.0, false, 0), [], 0.0, 0.0, 0)

  function Find(calls: seq<InFlight>, id: nat): (i: nat)
    ensures i <= |calls|
    ensures i < |calls| ==> calls[i].id == id
    ensures i == |calls| ==> forall j :: 0 <= j < |calls| ==> calls[j].id != id
  {
    if calls == [] then 0 else if calls[0].id == id then 0 else 1 + Find(calls[1..], id)
  }

  function Remove(calls: seq<InFlight>, i: nat): seq<InFlight>
    requires i < |calls|
  {
    calls[..i] + calls[i + 1..]
  }

  function Over(cost: real, est: real): real {
    if cost > est then cost - est else 0.0
  }

  function CostOf(usage: Option<Usage>, rates: Rates): real {
    if usage.Some? then Cost(usage.value, rates) else 0.0
  }

  /** One step of some coroutine. At most `workers` calls are in flight (the semaphore); a step that
      is not enabled changes nothing. */
  function Next(w: World, s: Step, maxUsd: real, rates: Rates, workers: nat): World {
    match s
    case Begin(id, request) =>
      var est := Estimate(request, w.tap.maxCompletionSeen, rates);
      if Find(w.calls, id) < |w.calls| || |w.calls| >= workers then w
      else if Fits(w.tap, maxUsd, est) then
        World(Reserve(w.tap, maxUsd, est), w.calls + [InFlight(id, request, est)], w.overrun, 0.0, 0)
      else w.(tap := Reserve(w.tap, maxUsd, est))
    case Complete(id, usage) =>
      var i := Find(w.calls, id);
      if i == |w.calls| then w
      else
        var est := w.calls[i].est;
        var over := Over(CostOf(usage, rates), est);
        World(Bill(Release(w.tap, est), usage, rates), Remove(w.calls, i),
              w.overrun + over, w.recentOverrun + over, w.recentEnded + 1)
    case Fail(id) =>
      var i := Find(w.calls, id);
      if i == |w.calls| then w
      else World(Release(w.tap, w.calls[i].est), Remove(w.calls, i), w.overrun, w.recentOverrun, w.recentEnded + 1)
  }

  function Run(w: World, steps: seq<Step>, maxUsd: real, rates: Rates, workers: nat): World {
    if steps == [] then w
    else Next(Run(w, steps[..|steps| - 1], maxUsd, rates, workers), steps[|steps| - 1], maxUsd, rates, workers)
  }

  function Pending(calls: seq<InFlight>): real {
    if calls == [] then 0.0 else Pending(calls[..|calls| - 1]) + calls[|calls| - 1].est
  }

  lemma {:induction false} PendingSnoc(calls: seq<InFlight>, call: InFlight)
    ensures Pending(calls + [call]) == Pending(calls) + call.est
  {
  }

  lemma {:induction false} PendingRemove(calls: seq<InFlight>, i: nat)
    requires i < |calls|
    ensures Pending(Remove(calls, i)) == Pending(calls) - calls[i].est
  {
    var init, last := calls[..|calls| - 1], calls[|calls| - 1];
    assert calls == init + [last];
    PendingSnoc(init, last);
    if i < |init| {
      PendingRemove(init, i);
      assert Remove(calls, i) == Remove(init, i) + [last];
      PendingSnoc(Remove(init, i), last);
    } else {
      assert Remove(calls, i) == init;
    }
  }

  lemma {:induction false} PendingNonNegative(calls: seq<InFlight>)
    requires forall j :: 0 <= j < |calls| ==> calls[j].est >= 0.0
    ensures Pending(calls) >= 0.0
  {
    if calls != [] {
      PendingNonNegative(calls[..|calls| - 1]);
    }
  }

  function Cap(maxUsd: real): real {
    if maxUsd > 0.0 then maxUsd else 0.0
  }

  ghost predicate EstimatesNonNegative(calls: seq<InFlight>) {
    forall j :: 0 <= j < |calls| ==> calls[j].est >= 0.0
  }

  ghost predicate Inv(w: World, maxUsd: real, workers: nat) {
    && w.tap.reserved == Pending(w.calls)
    && EstimatesNonNegative(w.calls)
    && 0.0 <= w.recentOverrun <= w.overrun
    && w.tap.spent + w.tap.reserved <= Cap(maxUsd) + w.recentOverrun
    && w.recentEnded + |w.calls| <= workers
  }

  lemma {:induction false} AdmittingKeepsInv(w: World, id: nat, request: Request, est: real, maxUsd: real, workers: nat)
    requires Inv(w, maxUsd, workers) && est >= 0.0 && Fits(w.tap, maxUsd, est) && |w.calls| < workers
    ensures Inv(World(Reserve(w.tap, maxUsd, est), w.calls + [InFlight(id, request, est)], w.overrun, 0.0, 0), maxUsd, workers)
  {
  }

  lemma {:induction false} EndingKeepsInv(w: World, i: nat, cost: real, tap: Tap, maxUsd: real, workers: nat)
    requires Inv(w, maxUsd, workers) && i < |w.calls|
    requires tap.reserved == w.tap.reserved - w.calls[i].est && tap.spent == w.tap.spent + cost
    ensures var over := Over(cost, w.calls[i].est);
            Inv(World(tap, Remove(w.calls, i), w.overrun + over, w.recentOverrun + over, w.recentEnded + 1), maxUsd, workers)
  {
    PendingRemove(w.calls, i);
    var rest := Remove(w.calls, i);
    forall j | 0 <= j < |rest| ensures rest[j].est >= 0.0 {
      assert rest[j] == w.calls[if j < i then j else j + 1];
    }
  }

  lemma {:induction false} EstimateHeld(calls: seq<InFlight>, i: nat)
    requires EstimatesNonNegative(calls) && i < |calls|
    ensures calls[i].est >= 0.0
  {
  }

  lemma {:induction false} StepKeepsInv(w: World, s: Step, maxUsd: real, rates: Rates, workers: nat)
    requires Inv(w, maxUsd, workers) && NonNegativeRates(rates)
    ensures Inv(Next(w, s, maxUsd, rates, workers), maxUsd, workers)
  {
    match s
    case Begin(id, request) =>
      var est := Estimate(request, w.tap.maxCompletionSeen, rates);
      if Fits(w.tap, maxUsd, est) && |w.calls| < workers {
        AdmittingKeepsInv(w, id, request, est, maxUsd, workers);
      }
    case Complete(id, usage) =>
      var i := Find(w.calls, id);
      if i < |w.calls| {
        var tap := Bill(Release(w.tap, w.calls[i].est), usage, rates);
        EndingKeepsInv(w, i, CostOf(usage, rates), tap, maxUsd, workers);
      }
    case Fail(id) =>
      var i := Find(w.calls, id);
      if i < |w.calls| {
        EndingKeepsInv(w, i, 0.0, Release(w.tap, w.calls[i].est), maxUsd, workers);
      }
  }

  // ----- the shared object -------------------------------------------------------------------

  /** The object the coroutines share. The ghost fields record the calls in flight and the tallies of the
      run, so that every step of the object is a step of the run. */
  class UsageTap {
    const maxUsd: real
    const rates: Rates
    ghost const workers: nat
    var spent: real
    var reserved: real
    var refused: bool
    var maxCompletionSeen: nat
    ghost var calls: seq<InFlight>
    ghost var overrun: real
    ghost var recentOverrun: real
    ghost var recentEnded: nat

    constructor (maxUsd: real, rates: Rates, ghost workers: nat)
      requires NonNegativeRates(rates)
      ensures this.maxUsd == maxUsd && this.rates == rates && this.workers == workers
      ensures Valid() && Now() == START
    {
      this.maxUsd, this.rates, this.workers := maxUsd, rates, workers;
      spent, reserved, refused, maxCompletionSeen := 0.0, 0.0, false, 0;
      calls, overrun, recentOverrun, recentEnded := [], 0.0, 0.0, 0;
    }

    ghost function Now(): World
      reads this
    {
      World(Tap(spent, reserved, refused, maxCompletionSeen), calls, overrun, recentOverrun, recentEnded)
    }

    /** The budget invariant: the reservation is the sum of the estimates in flight, and the cap is missed
        by no more than recent overruns. */
    ghost predicate Valid()
      reads this
    {
      NonNegativeRates(rates) && Inv(Now(), maxUsd, workers)
    }

    /** `create` up to its await, inside the semaphore: a refused call raises and changes nothing but the flag. */
    method Begin(request: Request, ghost id: nat) returns (admitted: bool, est: real)
      requires Valid() && |calls| < workers && Find(calls, id) == |calls|
      modifies this
      ensures Valid() && Now() == Next(old(Now()), Step.Begin(id, request), maxUsd, rates, workers)
      ensures admitted <==> old(spent) + old(reserved) + est <= maxUsd
      ensures admitted ==> calls == old(calls) + [InFlight(id, request, est)] && spent + reserved <= maxUsd
      ensures !admitted ==> Now() == old(Now()).(tap := old(Now()).tap.(refused := true))
    {
      est := Estimate(request, maxCompletionSeen, rates);
      StepKeepsInv(Now(), Step.Begin(id, request), maxUsd, rates, workers);
      if spent + reserved + est > maxUsd {
        refused := true;
        return false, est;
      }
      reserved := reserved + est;
      calls, recentOverrun, recentEnded := calls + [InFlight(id, request, est)], 0.0, 0;
      admitted := true;
    }

    /** `create` after its await, when a response came back. What is committed grows by no more than the
        response cost beyond its own estimate, and the other calls keep their reservations. */
    method Complete(est: real, usage: Option<Usage>, ghost id: nat)
      requires Valid() && Find(calls, id) < |calls| && calls[Find(calls, id)].est == est
      modifies this
      ensures Valid() && Now() == Next(old(Now()), Step.Complete(id, usage), maxUsd, rates, workers)
      ensures calls == Remove(old(calls), Find(old(calls), id)) && reserved == Pending(calls)
      ensures spent + reserved <= old(spent) + old(reserved) + Over(CostOf(usage, rates), est)
      ensures CostOf(usage, rates) <= est ==> spent + reserved <= old(spent) + old(reserved)
    {
      ghost var before := Now();
      StepKeepsInv(before, Step.Complete(id, usage), maxUsd, rates, workers);
      reserved := reserved - est;
      if usage.Some? {
        var u := usage.value;
        if u.completionTokens > maxCompletionSeen {
          maxCompletionSeen := u.completionTokens;
        }
        spent := spent + Cost(u, rates);
      }
      ghost var over := Over(CostOf(usage, rates), est);
      calls := Remove(calls, Find(calls, id));
      overrun, recentOverrun, recentEnded := overrun + over, recentOverrun + over, recentEnded + 1;
    }

    /** `create` after its await, when the request raised or was cancelled: its reservation is given back, so
        that what is reserved is again the sum of the estimates still in flight. */
    method Fail(est: real, ghost id: nat)
      requires Valid() && Find(calls, id) < |calls| && calls[Find(calls, id)].est == est
      modifies this
      ensures Valid() && Now() == Next(old(Now()), Step.Fail(id), maxUsd, rates, workers)
      ensures calls == Remove(old(calls), Find(old(calls), id)) && reserved == Pending(calls)
      ensures spent == old(spent) && spent + reserved <= old(spent) + old(reserved)
    {
      EstimateHeld(calls, Find(calls, id));
      StepKeepsInv(Now(), Step.Fail(id), maxUsd, rates, workers);
      reserved := reserved - est;
      calls, recentEnded := Remove(calls, Find(calls, id)), recentEnded + 1;
    }
  }

  /** Over every interleaving: what is reserved is exactly the estimates of the calls in flight, and
      spending plus reservations exceed the cap by no more than what the calls that ended since the
      last admission cost beyond their estimates (so by no more than the total overrun). */
  lemma {:induction false} BudgetHolds(steps: seq<Step>, maxUsd: real, rates: Rates, workers: nat)
    requires NonNegativeRates(rates)
    ensures var w := Run(START, steps, maxUsd, rates, workers);
            && Inv(w, maxUsd, workers)
            && w.tap.spent + w.tap.reserved <= Cap(maxUsd) + w.overrun
  {
    if steps != [] {
      BudgetHolds(steps[..|steps| - 1], maxUsd, rates, workers);
      StepKeepsInv(Run(START, steps[..|steps| - 1], maxUsd, rates, workers), steps[|steps| - 1], maxUsd, rates, workers);
    }
  }

  /** The step, if it completes a call, bills at most `slack` more than was estimated. */
  ghost predicate OverrunWithin(w: World, s: Step, rates: Rates, slack: real) {
    s.Complete? && Find(w.calls, s.id) < |w.calls| ==>
      CostOf(s.usage, rates) <= w.calls[Find(w.calls, s.id)].est + slack
  }

  ghost predicate OverrunsWithin(steps: seq<Step>, maxUsd: real, rates: Rates, workers: nat, slack: real) {
    forall n {:trigger Before(steps, n)} :: 0 <= n < |steps| ==>
      OverrunWithin(Run(START, Before(steps, n), maxUsd, rates, workers), steps[n], rates, slack)
  }

  /** The steps taken before step n. */
  function Before(steps: seq<Step>, n: nat): seq<Step>
    requires n <= |steps|
  {
    steps[..n]
  }

  ghost predicate RecentBounded(w: World, slack: real) {
    w.recentOverrun <= w.recentEnded as real * slack
  }

  lemma {:induction false} StepKeepsBound(w: World, s: Step, maxUsd: real, rates: Rates, workers: nat, slack: real)
    requires slack >= 0.0 && RecentBounded(w, slack) && OverrunWithin(w, s, rates, slack)
    ensures RecentBounded(Next(w, s, maxUsd, rates, workers), slack)
  {
  }

  lemma {:induction false} RecentOverrunBounded(steps: seq<Step>, n: nat, maxUsd: real, rates: Rates, workers: nat, slack: real)
    requires slack >= 0.0 && OverrunsWithin(steps, maxUsd, rates, workers, slack) && n <= |steps|
    ensures RecentBounded(Run(START, Before(steps, n), maxUsd, rates, workers), slack)
    decreases n
  {
    if n > 0 {
      RecentOverrunBounded(steps, n - 1, maxUsd, rates, workers, slack);
      assert Before(steps, n)[..n - 1] == Before(steps, n - 1);
      StepKeepsBound(Run(START, Before(steps, n - 1), maxUsd, rates, workers), steps[n - 1], maxUsd, rates, workers, slack);
    }
  }

  /** The cap is missed by at most `workers` overruns, however many calls were made. */
  lemma {:induction false} CapMissedByWorkersAtMost(steps: seq<Step>, maxUsd: real, rates: Rates, workers: nat, slack: real)
    requires NonNegativeRates(rates) && slack >= 0.0 && OverrunsWithin(steps, maxUsd, rates, workers, slack)
    ensures var w := Run(START, steps, maxUsd, rates, workers);
            0.0 <= w.tap.reserved && w.tap.spent + w.tap.reserved <= Cap(maxUsd) + workers as real * slack
  {
    RecentOverrunBounded(steps, |steps|, maxUsd, rates, workers, slack);
    assert Before(steps, |steps|) == steps;
    BudgetHolds(steps, maxUsd, rates, workers);
    BoundedWorld(Run(START, steps, maxUsd, rates, workers), maxUsd, workers, slack);
  }

  lemma {:induction false} BoundedWorld(w: World, maxUsd: real, workers: nat, slack: real)
    requires slack >= 0.0 && Inv(w, maxUsd, workers) && RecentBounded(w, slack)
    ensures 0.0 <= w.tap.reserved && w.tap.spent + w.tap.reserved <= Cap(maxUsd) + workers as real * slack
  {
    PendingNonNegative(w.calls);
    assert (workers - w.recentEnded) as real * slack >= 0.0;
  }

  /** With estimates that are never exceeded the cap is never missed, in any interleaving. */
  lemma {:induction false} CapHeldWithoutOverruns(steps: seq<Step>, maxUsd: real, rates: Rates, workers: nat)
    requires NonNegativeRates(rates) && OverrunsWithin(steps, maxUsd, rates, workers, 0.0)
    ensures var w := Run(START, steps, maxUsd, rates, workers);
            0.0 <= w.tap.reserved && w.tap.spent + w.tap.reserved <= Cap(maxUsd)
  {
    CapMissedByWorkersAtMost(steps, maxUsd, rates, workers, 0.0);
  }

  // ----- exactly when the cap holds ----------------------------------------------------------

  /** The step, if it completes a call, bills a usage that the call's request can get. */
  ghost predicate Answered(w: World, s: Step, answers: (Request, Usage) -> bool) {
    s.Complete? && s.usage.Some? && Find(w.calls, s.id) < |w.calls| ==>
      answers(w.calls[Find(w.calls, s.id)].request, s.usage.value)
  }

  ghost predicate AllAnswered(steps: seq<Step>, maxUsd: real, rates: Rates, workers: nat, answers: (Request, Usage) -> bool) {
    forall n {:trigger Before(steps, n)} :: 0 <= n < |steps| ==>
      Answered(Run(START, Before(steps, n), maxUsd, rates, workers), steps[n], answers)
  }

  /** No answer costs more than its request's estimate when no completion has been seen yet. */
  ghost predicate EstimatesSuffice(answers: (Request, Usage) -> bool, rates: Rates) {
    forall r, u :: answers(r, u) ==> Cost(u, rates) <= Estimate(r, 0, rates)
  }

  ghost predicate CapHeld(steps: seq<Step>, maxUsd: real, rates: Rates, workers: nat) {
    Run(START, steps, maxUsd, rates, workers).tap.spent <= maxUsd
  }

  ghost predicate CapAlwaysHeld(answers: (Request, Usage) -> bool, rates: Rates) {
    forall steps, maxUsd, workers {:trigger CapHeld(steps, maxUsd, rates, workers)} ::
      maxUsd >= 0.0 && AllAnswered(steps, maxUsd, rates, workers, answers) ==> CapHeld(steps, maxUsd, rates, workers)
  }

  lemma {:induction false} EstimateGrows(r: Request, seen: nat, rates: Rates)
    requires NonNegativeRates(rates)
    ensures Estimate(r, 0, rates) <= Estimate(r, seen, rates)
  {
    var low, high := CompletionLimit(r, 0) as real, CompletionLimit(r, seen) as real;
    assert low <= high;
    assert (high - low) * rates.completion >= 0.0;
  }

  ghost predicate AtLeastFirstEstimate(calls: seq<InFlight>, rates: Rates) {
    forall j :: 0 <= j < |calls| ==> Estimate(calls[j].request, 0, rates) <= calls[j].est
  }

  lemma {:induction false} StepKeepsEstimates(w: World, s: Step, maxUsd: real, rates: Rates, workers: nat)
    requires NonNegativeRates(rates) && AtLeastFirstEstimate(w.calls, rates)
    ensures AtLeastFirstEstimate(Next(w, s, maxUsd, rates, workers).calls, rates)
  {
    if s.Begin? {
      EstimateGrows(s.request, w.tap.maxCompletionSeen, rates);
    }
  }

  lemma {:induction false} RunKeepsEstimates(steps: seq<Step>, maxUsd: real, rates: Rates, workers: nat)
    requires NonNegativeRates(rates)
    ensures AtLeastFirstEstimate(Run(START, steps, maxUsd, rates, workers).calls, rates)
  {
    if steps != [] {
      var init, last := steps[..|steps| - 1], steps[|steps| - 1];
      RunKeepsEstimates(init, maxUsd, rates, workers);
      StepKeepsEstimates(Run(START, init, maxUsd, rates, workers), last, maxUsd, rates, workers);
    }
  }

  lemma {:induction false} SufficientEstimatesHold(answers: (Request, Usage) -> bool, steps: seq<Step>, maxUsd: real,
                                                   rates: Rates, workers: nat)
    requires NonNegativeRates(rates) && EstimatesSuffice(answers, rates) && maxUsd >= 0.0
    requires AllAnswered(steps, maxUsd, rates, workers, answers)
    ensures CapHeld(steps, maxUsd, rates, workers)
  {
    forall n | 0 <= n < |steps|
      ensures OverrunWithin(Run(START, Before(steps, n), maxUsd, rates, workers), steps[n], rates, 0.0)
    {
      var w := Run(START, Before(steps, n), maxUsd, rates, workers);
      RunKeepsEstimates(Before(steps, n), maxUsd, rates, workers);
      BudgetHolds(Before(steps, n), maxUsd, rates, workers);
      assert Answered(w, steps[n], answers);
    }
    CapHeldWithoutOverruns(steps, maxUsd, rates, workers);
  }

  /** One call alone, under a cap of exactly its estimate. */
  function OneCall(r: Request, u: Usage): seq<Step> {
    [Begin(0, r), Complete(0, Some(u))]
  }

  lemma {:induction false} OneCallSpends(r: Request, u: Usage, maxUsd: real, rates: Rates)
    requires NonNegativeRates(rates) && maxUsd == Estimate(r, 0, rates)
    ensures Run(START, OneCall(r, u), maxUsd, rates, 1).tap.spent == Cost(u, rates)
    ensures Run(START, Before(OneCall(r, u), 0), maxUsd, rates, 1) == START
    ensures Run(START, Before(OneCall(r, u), 1), maxUsd, rates, 1).calls == [InFlight(0, r, maxUsd)]
  {
    var steps := OneCall(r, u);
    var one := [Step.Begin(0, r)];
    assert steps[..1] == one && one[..|one| - 1] == [] && steps[..0] == [];
    var w := Run(START, one, maxUsd, rates, 1);
    assert Run(START, [], maxUsd, rates, 1) == START;
    assert w == Next(START, one[0], maxUsd, rates, 1);
    assert w.calls == [InFlight(0, r, maxUsd)];
    assert steps[..|steps| - 1] == one;
  }

  /** Exactly when the cap holds: over every cap, number of workers and interleaving, nothing is spent beyond
      the cap iff no request can be answered at more than its own estimate. */
  lemma {:induction false} CapHeldIff(answers: (Request, Usage) -> bool, rates: Rates)
    requires NonNegativeRates(rates)
    ensures CapAlwaysHeld(answers, rates) <==> EstimatesSuffice(answers, rates)
  {
    if EstimatesSuffice(answers, rates) {
      forall steps, maxUsd, workers | maxUsd >= 0.0 && AllAnswered(steps, maxUsd, rates, workers, answers)
        ensures CapHeld(steps, maxUsd, rates, workers)
      {
        SufficientEstimatesHold(answers, steps, maxUsd, rates, workers);
      }
    } else {
      var r, u :| answers(r, u) && Cost(u, rates) > Estimate(r, 0, rates);
      var cap := Estimate(r, 0, rates);
      OneCallSpends(r, u, cap, rates);
      assert AllAnswered(OneCall(r, u), cap, rates, 1, answers);
      assert !CapHeld(OneCall(r, u), cap, rates, 1);
    }
  }

  /** For a request with a completion limit that its answers keep to, the prompt alone decides: all of them
      stay within the estimate iff the prompt bills at most one token for every four characters. */
  lemma {:induction false} PromptDecides(r: Request, prompt: nat, rates: Rates)
    requires NonNegativeRates(rates) && rates.prompt > 0.0
    ensures (forall c: nat :: c <= CompletionLimit(r, 0) ==> Cost(Usage(prompt, c), rates) <= Estimate(r, 0, rates))
            <==> 4 * prompt <= r.chars
  {
    var limit := CompletionLimit(r, 0);
    var gap := r.chars as real / 4.0 - prompt as real;
    SignOfProduct(gap, rates.prompt);
    if 4 * prompt <= r.chars {
      forall c: nat | c <= limit ensures Cost(Usage(prompt, c), rates) <= Estimate(r, 0, rates) {
        PromptGap(r, prompt, c, rates);
        NonNegativeProduct((limit - c) as real, rates.completion);
      }
    } else {
      PromptGap(r, prompt, limit, rates);
      assert Cost(Usage(prompt, limit), rates) > Estimate(r, 0, rates);
    }
  }

  lemma {:induction false} PromptGap(r: Request, prompt: nat, c: nat, rates: Rates)
    requires c <= CompletionLimit(r, 0)
    ensures Cost(Usage(prompt, c), rates) <= Estimate(r, 0, rates) <==>
              (r.chars as real / 4.0 - prompt as real) * rates.prompt
              + (CompletionLimit(r, 0) - c) as real * rates.completion >= 0.0
  {
    var tokens, limit := r.chars as real / 4.0, CompletionLimit(r, 0) as real;
    assert (tokens - prompt as real) * rates.prompt == tokens * rates.prompt - prompt as real * rates.prompt;
    assert (limit - c as real) * rates.completion == limit * rates.completion - c as real * rates.completion;
  }

  lemma {:induction false} NonNegativeProduct(x: real, y: real)
    requires x >= 0.0 && y >= 0.0
    ensures x * y >= 0.0
  {
  }

  lemma {:induction false} SignOfProduct(x: real, y: real)
    requires y > 0.0
    ensures x * y >= 0.0 <==> x >= 0.0
  {
  }

  /** A request of 400 characters with a limit of 3000 tokens, as the clients send, whose prompt bills 200
      tokens: admitted under a cap of exactly its estimate, it spends more than the cap. */
  lemma {:induction false} FirstCallCanPassTheCap()
    ensures var request := Request(400, None, Some(3000));
            var rates := Rates(0.05, 0.25);
            var cap := Estimate(request, 0, rates);
            && cap == 0.000755
            && Run(START, OneCall(request, Usage(200, 3000)), cap, rates, 1).tap.spent == 0.00076
  {
    var request, rates := Request(400, None, Some(3000)), Rates(0.05, 0.25);
    assert Estimate(request, 0, rates) == 0.000755;
    var usage := Usage(200, 3000);
    assert Cost(usage, rates) == 0.00076;
    OneCallSpends(request, usage, Estimate(request, 0, rates), rates);
  }
}
