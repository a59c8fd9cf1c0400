/** The relayer's daily spend cap: the fee bound of one claim, and the ledger over whole runs. */
module SpendLedger {
  import opened Arithmetic
  import opened Wrappers

  const RELAYED_CLAIM_COST_ESTIMATE_WEI: nat := 2_000_000_000_000_000
  const RELAYED_CLAIM_GAS_LIMIT: nat := 300_000
  const RELAYER_MAX_PRIORITY_FEE_WEI: nat := 1_000_000_000

  // ----- the fee bound -----

  datatype Fees = Fees(gas: int, maxFeePerGas: int, maxPriorityFeePerGas: int)

  datatype FeeResult = Bounded(fees: Fees) | BudgetNotPositive | GasPriceTooHigh

  /** The most that the base fee may be in the next block. */
  function NextBaseFee(baseFee: nat): int {
    baseFee * 9 / 8
  }

  function RelayedClaimFees(baseFee: nat, budget: int, gas: int): FeeResult {
    if gas <= 0 || budget <= 0 then BudgetNotPositive
    else
      var maxFee := budget / gas;
      var next := NextBaseFee(baseFee);
      if maxFee < next then GasPriceTooHigh
      else
        var headroom := maxFee - next;
        Bounded(Fees(gas, maxFee,
          if headroom < RELAYER_MAX_PRIORITY_FEE_WEI then headroom else RELAYER_MAX_PRIORITY_FEE_WEI))
  }

  lemma DivisionBounds(n: int, d: int)
    requires d > 0
    ensures n / d * d <= n < (n / d + 1) * d
  {
    assert n == n / d * d + n % d;
    ProductSum(n / d, 1, d);
  }

  /** Floored division: a quotient is at least x exactly when x times the divisor fits. */
  lemma QuotientAtLeast(n: int, d: int, x: int)
    requires d > 0
    ensures n / d >= x <==> x * d <= n
    ensures n / d * d <= n < (n / d + 1) * d
  {
    DivisionBounds(n, d);
    if n / d >= x {
      ProductMonotone(x, n / d, d);
    } else {
      ProductMonotone(n / d + 1, x, d);
    }
  }

  /** An accepted claim spends at most its budget, uses the budget up to one wei per gas, outbids the
      next block's base fee and tips at most one gwei; acceptance is exactly affordability. */
  lemma FeeBound(baseFee: nat, budget: int, gas: int)
    ensures RelayedClaimFees(baseFee, budget, gas).Bounded? <==>
      gas > 0 && budget > 0 && 9 * baseFee / 8 * gas <= budget
    ensures RelayedClaimFees(baseFee, budget, gas).Bounded? ==>
      var f := RelayedClaimFees(baseFee, budget, gas).fees;
      && f.gas == gas && gas * f.maxFeePerGas <= budget < gas * (f.maxFeePerGas + 1)
      && 0 <= f.maxPriorityFeePerGas == Min(1_000_000_000, f.maxFeePerGas - 9 * baseFee / 8)
  {
    assert 9 * baseFee == baseFee * 9;
    if gas > 0 {
      QuotientAtLeast(budget, gas, NextBaseFee(baseFee));
    }
  }

  /** A relayed claim is sent with 300000 gas at exactly 6666666666 wei, exactly when the base fee may not
      rise above that in the next block; its whole cost stays within 2000000000000000 wei. */
  lemma ClaimFees(baseFee: nat)
    ensures var r := RelayedClaimFees(baseFee, RELAYED_CLAIM_COST_ESTIMATE_WEI, RELAYED_CLAIM_GAS_LIMIT);
      && (r.Bounded? <==> 9 * baseFee / 8 <= 6_666_666_666)
      && (r.Bounded? ==> r.fees.gas == 300_000 && r.fees.maxFeePerGas == 6_666_666_666)
    ensures Amount() == 2_000_000_000_000_000 >= 300_000 * 6_666_666_666
  {
    assert 9 * baseFee == baseFee * 9;
  }

  /** A lower base fee is accepted whenever a higher one is, with at least its tip. */
  lemma FeesMonotone(low: nat, high: nat, budget: int, gas: int)
    requires low <= high && RelayedClaimFees(high, budget, gas).Bounded?
    ensures RelayedClaimFees(low, budget, gas).Bounded?
    ensures RelayedClaimFees(low, budget, gas).fees.maxPriorityFeePerGas
         >= RelayedClaimFees(high, budget, gas).fees.maxPriorityFeePerGas
  {
    assert low * 9 / 8 <= high * 9 / 8;
  }

  /** In any block whose base fee has risen by at most one eighth, the claim can pay base fee and tip,
      and whatever gas it uses costs no more than the budget. */
  lemma CostWithinBudget(baseFee: nat, budget: int, gas: int, nextFee: nat, gasUsed: nat)
    requires RelayedClaimFees(baseFee, budget, gas).Bounded? && 8 * nextFee <= 9 * baseFee && gasUsed <= gas
    ensures var f := RelayedClaimFees(baseFee, budget, gas).fees;
      nextFee + f.maxPriorityFeePerGas <= f.maxFeePerGas
      && gasUsed * (nextFee + f.maxPriorityFeePerGas) <= budget
  {
    FeeBound(baseFee, budget, gas);
    hide RelayedClaimFees;
    var f := RelayedClaimFees(baseFee, budget, gas).fees;
    NextBlockFee(baseFee, nextFee);
    var price := nextFee + f.maxPriorityFeePerGas;
    ProductMonotone(gasUsed, gas, price);
    ProductMonotone(price, f.maxFeePerGas, gas);
  }

  lemma NextBlockFee(baseFee: nat, nextFee: nat)
    requires 8 * nextFee <= 9 * baseFee
    ensures nextFee <= NextBaseFee(baseFee)
  {
  }

  // ----- the ledger row of a day -----

  type Day = string

  function Spent(ledger: map<Day, int>, day: Day): int {
    if day in ledger then ledger[day] else 0
  }

  /** The atomic upsert: insert, or add when the total still fits. */
  function Reserved(ledger: map<Day, int>, cap: int, day: Day, amount: int): Option<map<Day, int>> {
    if amount <= 0 || amount > cap then None
    else if day !in ledger then Some(ledger[day := amount])
    else if ledger[day] + amount <= cap then Some(ledger[day := ledger[day] + amount])
    else None
  }

  function Released(ledger: map<Day, int>, day: Day, amount: int): map<Day, int> {
    if day !in ledger then ledger
    else ledger[day := if ledger[day] - amount < 0 then 0 else ledger[day] - amount]
  }

  class RelayerLedger {
    var wei: map<Day, int>
    const cap: int

    constructor (cap: int)
      ensures wei == map[] && this.cap == cap
    {
      this.wei, this.cap := map[], cap;
    }

    /** The check and the increment in one step. */
    method ReserveRelayerSpend(day: Day, amountWei: int) returns (ok: bool)
      modifies this`wei
      ensures ok <==> Reserved(old(wei), cap, day, amountWei).Some?
      ensures wei == if ok then Reserved(old(wei), cap, day, amountWei).value else old(wei)
      ensures ok <==> 0 < amountWei <= cap && Spent(old(wei), day) + amountWei <= cap
      ensures ok ==> wei == old(wei)[day := Spent(old(wei), day) + amountWei]
    {
      if amountWei <= 0 {
        return false;
      }
      if amountWei > cap {
        return false;
      }
      if day !in wei {
        wei := wei[day := amountWei];
        return true;
      }
      if wei[day] + amountWei <= cap {
        wei := wei[day := wei[day] + amountWei];
        return true;
      }
      return false;
    }

    method ReleaseRelayerSpend(day: Day, amountWei: int)
      modifies this`wei
      ensures wei == Released(old(wei), day, amountWei)
      ensures day in old(wei) ==> wei == old(wei)[day := Max(0, old(wei)[day] - amountWei)]
      ensures day !in old(wei) ==> wei == old(wei)
    {
      if day in wei {
        var left := wei[day] - amountWei;
        wei := wei[day := if left < 0 then 0 else left];
      }
    }
  }

  // ----- claims over whole runs -----

  /** A claim after its reservation: waiting, broadcast with its fee bound, given up before any
      broadcast, or closed with the reservation given back or left standing. */
  datatype Claim =
    | Waiting(day: Day)
    | Broadcast(day: Day, fees: Fees)
    | NotBroadcast(day: Day)
    | Closed

  datatype State = State(cap: int, ledger: map<Day, int>, claims: seq<Claim>)

  datatype Action =
    | Reserve(day: Day, acknowledged: bool)
    | Submit(claim: nat, baseFee: nat)
    | GiveUp(claim: nat)
    | Release(claim: nat, applied: bool)

  function Amount(): nat {
    RELAYED_CLAIM_COST_ESTIMATE_WEI
  }

  /** An unacknowledged reservation is one whose statement ran but whose answer was lost: the caller
      refuses the claim. A release may fail to be applied. */
  ghost predicate Step(s: State, s': State, a: Action) {
    match a
    case Reserve(day, acknowledged) =>
      var r := Reserved(s.ledger, s.cap, day, Amount());
      if r.None? then s' == s
      else s' == s.(ledger := r.value, claims := s.claims + (if acknowledged then [Waiting(day)] else []))
    case Submit(i, baseFee) =>
      && i < |s.claims| && s.claims[i].Waiting?
      && var fees := RelayedClaimFees(baseFee, Amount(), RELAYED_CLAIM_GAS_LIMIT);
      s' == s.(claims := s.claims[i :=
        if fees.Bounded? then Broadcast(s.claims[i].day, fees.fees) else NotBroadcast(s.claims[i].day)])
    case GiveUp(i) =>
      && i < |s.claims| && s.claims[i].Waiting?
      && s' == s.(claims := s.claims[i := NotBroadcast(s.claims[i].day)])
    case Release(i, applied) =>
      && i < |s.claims| && s.claims[i].NotBroadcast?
      && s' == s.(ledger := if applied then Released(s.ledger, s.claims[i].day, Amount()) else s.ledger,
                  claims := s.claims[i := Closed])
  }

  /** What a claim still holds of a day's reservations. */
  function HeldBy(c: Claim, day: Day): nat {
    if !c.Closed? && c.day == day then Amount() else 0
  }

  function Held(claims: seq<Claim>, day: Day): nat {
    if claims == [] then 0 else Held(claims[..|claims| - 1], day) + HeldBy(claims[|claims| - 1], day)
  }

  /** The most a broadcast claim can cost. */
  function WorstCase(c: Claim, day: Day): int {
    if c.Broadcast? && c.day == day then c.fees.gas * c.fees.maxFeePerGas else 0
  }

  function WorstSpend(claims: seq<Claim>, day: Day): int {
    if claims == [] then 0 else WorstSpend(claims[..|claims| - 1], day) + WorstCase(claims[|claims| - 1], day)
  }

  ghost predicate Inv(s: State) {
    && (forall day: Day :: Held(s.claims, day) <= Spent(s.ledger, day))
    && (forall day :: day in s.ledger ==> s.ledger[day] <= s.cap)
    && (forall i :: 0 <= i < |s.claims| && s.claims[i].Broadcast? ==>
          s.claims[i].fees.gas * s.claims[i].fees.maxFeePerGas <= Amount())
  }

  lemma {:induction false} HeldUpdate(claims: seq<Claim>, i: nat, c: Claim, day: Day)
    requires i < |claims|
    ensures Held(claims[i := c], day) == Held(claims, day) - HeldBy(claims[i], day) + HeldBy(c, day)
  {
    var n := |claims| - 1;
    if i == n {
      assert claims[i := c][..n] == claims[..n];
    } else {
      HeldUpdate(claims[..n], i, c, day);
      assert claims[i := c][..n] == claims[..n][i := c];
    }
  }

  lemma {:induction false} HeldAtLeast(claims: seq<Claim>, i: nat, day: Day)
    requires i < |claims|
    ensures HeldBy(claims[i], day) <= Held(claims, day)
  {
    if i < |claims| - 1 {
      HeldAtLeast(claims[..|claims| - 1], i, day);
    }
  }

  lemma {:induction false} WorstSpendHeld(claims: seq<Claim>, day: Day)
    requires forall i :: 0 <= i < |claims| && claims[i].Broadcast? ==>
      claims[i].fees.gas * claims[i].fees.maxFeePerGas <= Amount()
    ensures WorstSpend(claims, day) <= Held(claims, day)
  {
    if claims == [] {
    } else {
      WorstSpendHeld(claims[..|claims| - 1], day);
    }
  }

  /** Releasing what a claim holds never meets the clamp at zero. */
  lemma ClampNeverFires(s: State, i: nat)
    requires Inv(s) && i < |s.claims| && !s.claims[i].Closed?
    ensures s.claims[i].day in s.ledger && s.ledger[s.claims[i].day] - Amount() >= 0
  {
    HeldAtLeast(s.claims, i, s.claims[i].day);
  }

  lemma StepInv(s: State, s': State, a: Action)
    requires Inv(s) && Step(s, s', a)
    ensures Inv(s') && s'.cap == s.cap
  {
    hide RelayedClaimFees, Held;
    match a
    case Reserve(day, acknowledged) =>
      HeldAppend(s.claims, Waiting(day));
    case Submit(i, baseFee) =>
      FeeBound(baseFee, Amount(), RELAYED_CLAIM_GAS_LIMIT);
      forall day: Day
        ensures Held(s'.claims, day) == Held(s.claims, day)
      {
        HeldUpdate(s.claims, i, s'.claims[i], day);
      }
    case GiveUp(i) =>
      forall day: Day
        ensures Held(s'.claims, day) == Held(s.claims, day)
      {
        HeldUpdate(s.claims, i, s'.claims[i], day);
      }
    case Release(i, applied) =>
      ClampNeverFires(s, i);
      forall day: Day
        ensures Held(s'.claims, day) == Held(s.claims, day) - HeldBy(s.claims[i], day)
      {
        HeldUpdate(s.claims, i, Closed, day);
      }
  }

  lemma HeldAppend(claims: seq<Claim>, c: Claim)
    ensures forall day: Day :: Held(claims + [c], day) == Held(claims, day) + HeldBy(c, day)
    ensures claims + [] == claims
  {
    forall day: Day
      ensures Held(claims + [c], day) == Held(claims, day) + HeldBy(c, day)
    {
      assert (claims + [c])[..|claims|] == claims;
    }
  }

  ghost predicate Next(s: State, s': State) {
    exists a :: Step(s, s', a)
  }

  ghost predicate IsRun(run: seq<State>) {
    && run != [] && run[0].ledger == map[] && run[0].claims == []
    && forall k :: 0 <= k < |run| - 1 ==> Next(run[k], run[k + 1])
  }

  lemma NextInv(s: State, s': State)
    requires Inv(s) && Next(s, s')
    ensures Inv(s') && s'.cap == s.cap
  {
    hide Inv, Step;
    var a :| Step(s, s', a);
    StepInv(s, s', a);
  }

  lemma {:induction false} RunInv(run: seq<State>, k: nat)
    requires IsRun(run) && k < |run|
    ensures Inv(run[k]) && run[k].cap == run[0].cap
  {
    if k == 0 {
    } else {
      RunInv(run, k - 1);
      NextInv(run[k - 1], run[k]);
    }
  }

  // ----- runs in which no answer and no release is lost -----

  ghost predicate LosslessNext(s: State, s': State) {
    exists a :: Step(s, s', a) && (a.Reserve? ==> a.acknowledged) && (a.Release? ==> a.applied)
  }

  ghost predicate IsLosslessRun(run: seq<State>) {
    && run != [] && run[0].ledger == map[] && run[0].claims == []
    && forall k :: 0 <= k < |run| - 1 ==> LosslessNext(run[k], run[k + 1])
  }

  ghost predicate Exact(s: State) {
    forall day: Day :: Spent(s.ledger, day) == Held(s.claims, day)
  }

  lemma LosslessStep(s: State, s': State)
    requires Inv(s) && Exact(s) && LosslessNext(s, s')
    ensures Inv(s') && Exact(s')
  {
    hide RelayedClaimFees, Held, Inv;
    var a :| Step(s, s', a) && (a.Reserve? ==> a.acknowledged) && (a.Release? ==> a.applied);
    StepInv(s, s', a);
    if a.Reserve? {
      ReservedExactly(s, s', a);
    } else if a.Release? {
      ReleasedExactly(s, s', a);
    } else {
      HeldStays(s, s', a);
    }
  }

  lemma ReservedExactly(s: State, s': State, a: Action)
    requires Exact(s) && Step(s, s', a) && a.Reserve? && a.acknowledged
    ensures Exact(s')
  {
    hide RelayedClaimFees, Held;
    HeldAppend(s.claims, Waiting(a.day));
    forall day: Day
      ensures Spent(s'.ledger, day) == Held(s'.claims, day)
    {
      assert Spent(s.ledger, day) == Held(s.claims, day);
    }
  }

  lemma ReleasedExactly(s: State, s': State, a: Action)
    requires Inv(s) && Exact(s) && Step(s, s', a) && a.Release? && a.applied
    ensures Exact(s')
  {
    ClampNeverFires(s, a.claim);
    hide RelayedClaimFees, Held, Inv;
    forall day: Day
      ensures Spent(s'.ledger, day) == Held(s'.claims, day)
    {
      assert Spent(s.ledger, day) == Held(s.claims, day);
      HeldUpdate(s.claims, a.claim, Closed, day);
    }
  }

  lemma HeldStays(s: State, s': State, a: Action)
    requires Exact(s) && Step(s, s', a) && (a.Submit? || a.GiveUp?)
    ensures Exact(s')
  {
    hide RelayedClaimFees, Held;
    forall day: Day
      ensures Spent(s'.ledger, day) == Held(s'.claims, day)
    {
      assert Spent(s.ledger, day) == Held(s.claims, day);
      HeldUpdate(s.claims, a.claim, s'.claims[a.claim], day);
    }
  }

  lemma {:induction false} ExactInRun(run: seq<State>, k: nat)
    requires IsLosslessRun(run) && k < |run|
    ensures Inv(run[k]) && Exact(run[k])
  {
    hide LosslessNext;
    if k == 0 {
    } else {
      ExactInRun(run, k - 1);
      LosslessStep(run[k - 1], run[k]);
    }
  }

  /** Then every day's ledger is exactly what the claims hold: whatever is released is given back in full. */
  lemma LedgerIsHeld(run: seq<State>, k: nat, day: Day)
    requires IsLosslessRun(run) && k < |run|
    ensures Spent(run[k].ledger, day) == Held(run[k].claims, day)
  {
    hide Inv, LosslessNext, IsLosslessRun, Held, Spent;
    ExactInRun(run, k);
  }

  /** After any run, every day's ledger is within the cap, and so are the worst-case costs of all
      claims broadcast under that day's reservations. */
  lemma DailyCap(run: seq<State>, k: nat, day: Day)
    requires IsRun(run) && k < |run| && run[0].cap >= 0
    ensures Spent(run[k].ledger, day) <= run[0].cap
    ensures WorstSpend(run[k].claims, day) <= Held(run[k].claims, day) <= Spent(run[k].ledger, day)
  {
    RunInv(run, k);
    WorstSpendHeld(run[k].claims, day);
  }
}
