/** Allowance batches: the approve calls of a batch, and what running them does to the rock's account. */
module Approvals {
  import opened Arithmetic
  import opened Wrappers

  type Token = string
  type Stream = nat

  datatype Call =
    | Approve(token: Token, value: nat)
    | Push(stream: Stream, token: Token, amount: nat)
    | Ship(stream: Stream, balances: map<Token, nat>)

  datatype Want = Want(token: Token, amount: int)

  function Get(m: map<Token, nat>, token: Token): nat {
    if token in m then m[token] else 0
  }

  // ----- planning -----

  /** The approve calls from one allowance to another. */
  function ApprovalCalls(token: Token, current: nat, amount: nat): seq<Call> {
    if current == amount then []
    else if current > 0 && amount > 0 then [Approve(token, 0), Approve(token, amount)]
    else [Approve(token, amount)]
  }

  /** A want that the allowance read for its token does not cover yet. */
  predicate Raises(read: map<Token, nat>, want: Want) {
    want.amount > 0 && Get(read, want.token) < want.amount
  }

  function WantCalls(read: map<Token, nat>, want: Want): seq<Call> {
    if Raises(read, want) then ApprovalCalls(want.token, Get(read, want.token), want.amount) else []
  }

  function PlannedCalls(read: map<Token, nat>, wants: seq<Want>): seq<Call> {
    if wants == [] then [] else WantCalls(read, wants[0]) + PlannedCalls(read, wants[1..])
  }

  /** Whether every allowance that the plan asks for could be read. */
  predicate Readable(read: map<Token, nat>, wants: seq<Want>) {
    forall i :: 0 <= i < |wants| && wants[i].amount > 0 ==> wants[i].token in read
  }

  lemma PlannedFrom(calls: seq<Call>, read: map<Token, nat>, wants: seq<Want>, i: nat)
    requires i < |wants|
    ensures calls + PlannedCalls(read, wants[i..])
         == calls + WantCalls(read, wants[i]) + PlannedCalls(read, wants[i + 1..])
  {
    hide WantCalls;
    assert wants[i..][0] == wants[i] && wants[i..][1..] == wants[i + 1..];
  }

  lemma PlannedNone(read: map<Token, nat>, wants: seq<Want>)
    ensures PlannedCalls(read, wants[|wants|..]) == [] && wants[0..] == wants
  {
  }

  /** A token outside read is one whose allowance cannot be read. */
  method BuildApprovals(read: map<Token, nat>, wants: seq<Want>) returns (r: Option<seq<Call>>)
    ensures r.Some? <==> Readable(read, wants)
    ensures r.Some? ==> r.value == PlannedCalls(read, wants)
  {
    hide PlannedCalls, ApprovalCalls;
    PlannedNone(read, wants);
    var calls: seq<Call> := [];
    for i := 0 to |wants|
      invariant forall j :: 0 <= j < i && wants[j].amount > 0 ==> wants[j].token in read
      invariant PlannedCalls(read, wants) == calls + PlannedCalls(read, wants[i..])
    {
      var want := wants[i];
      PlannedFrom(calls, read, wants, i);
      if want.amount <= 0 {
        continue;
      }
      if want.token !in read {
        return None;
      }
      var current := read[want.token];
      if current >= want.amount {
        continue;
      }
      calls := calls + ApprovalCalls(want.token, current, want.amount);
    }
    return Some(calls);
  }

  // ----- running a batch -----

  /** The rock's account: tokens held, allowances to the spender, and each live stream's virtual balances. */
  datatype Rock = Rock(held: map<Token, nat>, allowance: map<Token, nat>, streams: map<Stream, map<Token, nat>>)

  function Virtual(r: Rock, s: Stream, token: Token): nat {
    if s in r.streams then Get(r.streams[s], token) else 0
  }

  /** One call. An approve from non-zero to non-zero reverts. A push transfers from the rock to itself as
      the spender: it moves nothing, needs the tokens and spends the allowance. */
  function Apply(r: Rock, call: Call): Option<Rock> {
    match call
    case Approve(token, value) =>
      if Get(r.allowance, token) > 0 && value > 0 then None
      else Some(Rock(r.held, r.allowance[token := value], r.streams))
    case Push(s, token, amount) =>
      if s !in r.streams || Get(r.held, token) < amount || Get(r.allowance, token) < amount then None
      else
        var balances: map<Token, nat> := r.streams[s];
        var raised: map<Token, nat> := balances[token := Get(balances, token) + amount];
        Some(Rock(r.held, r.allowance[token := Get(r.allowance, token) - amount], r.streams[s := raised]))
    case Ship(s, balances) =>
      if s in r.streams then None else Some(Rock(r.held, r.allowance, r.streams[s := balances]))
  }

  /** A batch is atomic: None when any of its calls reverts. */
  function Run(r: Rock, calls: seq<Call>): Option<Rock>
    decreases |calls|
  {
    if calls == [] then Some(r)
    else
      var next := Apply(r, calls[0]);
      if next.None? then None else Run(next.value, calls[1..])
  }

  lemma {:induction false} RunAppend(r: Rock, a: seq<Call>, b: seq<Call>)
    ensures Run(r, a + b) == if Run(r, a).None? then None else Run(Run(r, a).value, b)
    decreases |a|
  {
    if a == [] {
      assert a + b == b;
    } else {
      assert (a + b)[0] == a[0] && (a + b)[1..] == a[1..] + b;
      var next := Apply(r, a[0]);
      if next.Some? {
        RunAppend(next.value, a[1..], b);
      }
    }
  }

  // ----- what a plan does -----

  /** Token read as having no allowance is asked for twice. */
  ghost predicate AskedTwice(read: map<Token, nat>, wants: seq<Want>) {
    exists i, j :: 0 <= i < j < |wants| && wants[i].token == wants[j].token
      && Get(read, wants[i].token) == 0 && wants[i].amount > 0 && wants[j].amount > 0
  }

  /** A token read as having no allowance has been given one since. */
  ghost predicate Stale(r: Rock, read: map<Token, nat>, wants: seq<Want>) {
    exists i :: 0 <= i < |wants| && wants[i].amount > 0
      && Get(read, wants[i].token) == 0 && Get(r.allowance, wants[i].token) > 0
  }

  /** The allowance that the last raising want of a token leaves. */
  function LastWanted(read: map<Token, nat>, wants: seq<Want>, token: Token, before: nat): nat {
    if wants == [] then before
    else
      LastWanted(read, wants[1..], token,
                 if wants[0].token == token && Raises(read, wants[0]) then wants[0].amount else before)
  }

  /** The calls of one want. */
  lemma RunWant(r: Rock, read: map<Token, nat>, want: Want)
    ensures Run(r, WantCalls(read, want)).None? <==>
      want.amount > 0 && Get(read, want.token) == 0 && Get(r.allowance, want.token) > 0
    ensures Run(r, WantCalls(read, want)).Some? ==>
      Run(r, WantCalls(read, want)).value == AfterWant(r, read, want)
  {
    if Raises(read, want) {
      var raise := Approve(want.token, want.amount);
      if Get(read, want.token) == 0 {
        RunSingle(r, raise);
      } else {
        var reset := Approve(want.token, 0);
        assert WantCalls(read, want) == [reset] + [raise];
        RunAppend(r, [reset], [raise]);
        RunSingle(r, reset);
        RunSingle(Apply(r, reset).value, raise);
        assert r.allowance[want.token := 0][want.token := want.amount] == r.allowance[want.token := want.amount];
      }
    }
  }

  lemma RunSingle(r: Rock, call: Call)
    ensures Run(r, [call]) == Apply(r, call)
  {
    assert [call][1..] == [];
  }

  lemma AskedTwiceAt(read: map<Token, nat>, wants: seq<Want>, i: nat, j: nat)
    requires i < j < |wants| && wants[i].token == wants[j].token
    requires Get(read, wants[i].token) == 0 && wants[i].amount > 0 && wants[j].amount > 0
    ensures AskedTwice(read, wants)
  {
  }

  lemma StaleAt(r: Rock, read: map<Token, nat>, wants: seq<Want>, i: nat)
    requires i < |wants| && wants[i].amount > 0
    requires Get(read, wants[i].token) == 0 && Get(r.allowance, wants[i].token) > 0
    ensures Stale(r, read, wants)
  {
  }

  /** The account after one want. */
  function AfterWant(r: Rock, read: map<Token, nat>, want: Want): Rock {
    if Raises(read, want) then Rock(r.held, r.allowance[want.token := want.amount], r.streams) else r
  }

  lemma AfterWantAllowance(r: Rock, read: map<Token, nat>, want: Want, token: Token)
    ensures Get(AfterWant(r, read, want).allowance, token)
         == if want.token == token && Raises(read, want) then want.amount else Get(r.allowance, token)
  {
  }

  /** Asked for twice, or stale: either shows in what follows the first want, run on what that want leaves. */
  lemma ConditionsPassOn(r: Rock, read: map<Token, nat>, wants: seq<Want>)
    requires wants != [] && (AskedTwice(read, wants) || Stale(r, read, wants))
    requires !(wants[0].amount > 0 && Get(read, wants[0].token) == 0 && Get(r.allowance, wants[0].token) > 0)
    ensures AskedTwice(read, wants[1..]) || Stale(AfterWant(r, read, wants[0]), read, wants[1..])
  {
    hide AfterWant;
    if AskedTwice(read, wants) {
      var i, j :| 0 <= i < j < |wants| && wants[i].token == wants[j].token
        && Get(read, wants[i].token) == 0 && wants[i].amount > 0 && wants[j].amount > 0;
      hide *;
      PairPassesOn(r, read, wants, i, j);
    } else {
      var i :| 0 <= i < |wants| && wants[i].amount > 0
        && Get(read, wants[i].token) == 0 && Get(r.allowance, wants[i].token) > 0;
      hide *;
      AfterWantAllowance(r, read, wants[0], wants[i].token);
      StaleAt(AfterWant(r, read, wants[0]), read, wants[1..], i - 1);
    }
  }

  lemma PairPassesOn(r: Rock, read: map<Token, nat>, wants: seq<Want>, i: nat, j: nat)
    requires i < j < |wants| && wants[i].token == wants[j].token
    requires Get(read, wants[i].token) == 0 && wants[i].amount > 0 && wants[j].amount > 0
    ensures AskedTwice(read, wants[1..]) || Stale(AfterWant(r, read, wants[0]), read, wants[1..])
  {
    hide AfterWant, AskedTwice, Stale;
    if i == 0 {
      AfterWantAllowance(r, read, wants[0], wants[j].token);
      StaleAt(AfterWant(r, read, wants[0]), read, wants[1..], j - 1);
    } else {
      AskedTwiceAt(read, wants[1..], i - 1, j - 1);
    }
  }

  /** And the other way round. */
  lemma ConditionsComeFrom(r: Rock, read: map<Token, nat>, wants: seq<Want>)
    requires wants != []
    requires AskedTwice(read, wants[1..]) || Stale(AfterWant(r, read, wants[0]), read, wants[1..])
    ensures AskedTwice(read, wants) || Stale(r, read, wants)
  {
    hide AfterWant;
    var rest, after := wants[1..], AfterWant(r, read, wants[0]);
    if AskedTwice(read, rest) {
      var i, j :| 0 <= i < j < |rest| && rest[i].token == rest[j].token
        && Get(read, rest[i].token) == 0 && rest[i].amount > 0 && rest[j].amount > 0;
      hide AskedTwice, Stale;
      AskedTwiceAt(read, wants, i + 1, j + 1);
    } else {
      var i :| 0 <= i < |rest| && rest[i].amount > 0
        && Get(read, rest[i].token) == 0 && Get(after.allowance, rest[i].token) > 0;
      hide AskedTwice, Stale;
      AfterWantAllowance(r, read, wants[0], rest[i].token);
      if Get(r.allowance, rest[i].token) > 0 {
        StaleAt(r, read, wants, i + 1);
      } else {
        AskedTwiceAt(read, wants, 0, i + 1);
      }
    }
  }

  /** A plan reverts exactly when a token read as having no allowance has one, or is asked for twice.
      Otherwise it leaves every allowance at the last raising want of its token and touches nothing else. */
  lemma {:induction false} PlanRuns(r: Rock, read: map<Token, nat>, wants: seq<Want>)
    ensures Run(r, PlannedCalls(read, wants)).None? <==> AskedTwice(read, wants) || Stale(r, read, wants)
    ensures Run(r, PlannedCalls(read, wants)).Some? ==>
      var after := Run(r, PlannedCalls(read, wants)).value;
      && after.held == r.held && after.streams == r.streams
      && forall token: Token ::
           Get(after.allowance, token) == LastWanted(read, wants, token, Get(r.allowance, token))
    decreases |wants|
  {
    if wants == [] {
    } else {
      hide *;
      PlanSplit(r, read, wants);
      RunWant(r, read, wants[0]);
      if Run(r, WantCalls(read, wants[0])).Some? {
        var mid := AfterWant(r, read, wants[0]);
        PlanRuns(mid, read, wants[1..]);
        if AskedTwice(read, wants) || Stale(r, read, wants) {
          ConditionsPassOn(r, read, wants);
        }
        if AskedTwice(read, wants[1..]) || Stale(mid, read, wants[1..]) {
          ConditionsComeFrom(r, read, wants);
        }
        LastWantedSplit(r, read, wants);
      } else {
        StaleAt(r, read, wants, 0);
      }
    }
  }

  lemma PlanSplit(r: Rock, read: map<Token, nat>, wants: seq<Want>)
    requires wants != []
    ensures var first := Run(r, WantCalls(read, wants[0]));
      Run(r, PlannedCalls(read, wants))
      == if first.None? then None else Run(first.value, PlannedCalls(read, wants[1..]))
  {
    RunAppend(r, WantCalls(read, wants[0]), PlannedCalls(read, wants[1..]));
  }

  lemma LastWantedSplit(r: Rock, read: map<Token, nat>, wants: seq<Want>)
    requires wants != []
    ensures AfterWant(r, read, wants[0]).held == r.held && AfterWant(r, read, wants[0]).streams == r.streams
    ensures forall token: Token ::
      LastWanted(read, wants, token, Get(r.allowance, token))
      == LastWanted(read, wants[1..], token, Get(AfterWant(r, read, wants[0]).allowance, token))
  {
  }

  ghost predicate DistinctTokens(wants: seq<Want>) {
    forall i, j :: 0 <= i < j < |wants| ==> wants[i].token != wants[j].token
  }

  lemma {:induction false} LastWantedOfDistinct(read: map<Token, nat>, wants: seq<Want>, token: Token, before: nat)
    requires DistinctTokens(wants)
    ensures forall i :: 0 <= i < |wants| && wants[i].token == token ==>
      LastWanted(read, wants, token, before) == if Raises(read, wants[i]) then wants[i].amount else before
    ensures (forall i :: 0 <= i < |wants| ==> wants[i].token != token) ==>
      LastWanted(read, wants, token, before) == before
  {
    if wants == [] {
    } else {
      var rest := wants[1..];
      assert forall i :: 0 <= i < |rest| ==> rest[i] == wants[i + 1];
      assert DistinctTokens(rest);
      LastWantedOfDistinct(read, rest, token,
        if wants[0].token == token && Raises(read, wants[0]) then wants[0].amount else before);
      forall i | 0 < i < |wants| && wants[i].token == token
        ensures LastWanted(read, wants, token, before) == if Raises(read, wants[i]) then wants[i].amount else before
      {
        assert rest[i - 1] == wants[i];
      }
    }
  }

  /** For distinct tokens a plan never reverts, even when the allowances have been drawn on since they
      were read. Run on the allowances it read, it leaves each at the greater of what there was and what
      was wanted, and all others as they were. */
  lemma DistinctPlanRuns(r: Rock, read: map<Token, nat>, wants: seq<Want>)
    requires DistinctTokens(wants)
    requires forall token: Token :: Get(r.allowance, token) <= Get(read, token)
    ensures var run := Run(r, PlannedCalls(read, wants));
      && run.Some?
      && run.value.held == r.held && run.value.streams == r.streams
      && (forall token: Token :: (forall i :: 0 <= i < |wants| ==> wants[i].token != token) ==>
            Get(run.value.allowance, token) == Get(r.allowance, token))
      && (forall i :: 0 <= i < |wants| ==>
            Get(run.value.allowance, wants[i].token)
            == if Raises(read, wants[i]) then wants[i].amount else Get(r.allowance, wants[i].token))
      && (forall i :: 0 <= i < |wants| && Get(r.allowance, wants[i].token) == Get(read, wants[i].token) ==>
            Get(run.value.allowance, wants[i].token) == Max(Get(r.allowance, wants[i].token), wants[i].amount))
  {
    PlanRuns(r, read, wants);
    hide Apply, PlannedCalls, Run;
    var run := Run(r, PlannedCalls(read, wants));
    forall token: Token | (forall i :: 0 <= i < |wants| ==> wants[i].token != token)
      ensures Get(run.value.allowance, token) == Get(r.allowance, token)
    {
      LastWantedOfDistinct(read, wants, token, Get(r.allowance, token));
    }
    forall i | 0 <= i < |wants|
      ensures Get(run.value.allowance, wants[i].token)
           == if Raises(read, wants[i]) then wants[i].amount else Get(r.allowance, wants[i].token)
    {
      LastWantedOfDistinct(read, wants, wants[i].token, Get(r.allowance, wants[i].token));
    }
  }

  /** One token without an allowance, asked for twice: the plan reverts. */
  lemma RepeatedTokenReverts()
    ensures Run(Rock(map[], map[], map[]), PlannedCalls(map["usdc" := 0], [Want("usdc", 1), Want("usdc", 2)])).None?
  {
    var r, read, wants := Rock(map[], map[], map[]), map["usdc" := 0], [Want("usdc", 1), Want("usdc", 2)];
    PlanRuns(r, read, wants);
    assert wants[0].token == wants[1].token;
  }

  // ----- shipping and topping up a stream -----

  datatype Tokens = Tokens(usdc: Token, weth: Token)

  datatype Amounts = Amounts(usdc: int, weth: int)

  function Part(tokens: Tokens, amounts: Amounts, token: Token): int {
    if token == tokens.usdc then amounts.usdc else if token == tokens.weth then amounts.weth else 0
  }

  predicate Usable(amounts: Amounts) {
    amounts.usdc >= 0 && amounts.weth >= 0 && (amounts.usdc > 0 || amounts.weth > 0)
  }

  /** Room for the new virtual balance and for the push that makes it. */
  function TopUpWant(virtual: map<Token, nat>, token: Token, amount: int): seq<Want> {
    if amount > 0 then [Want(token, Get(virtual, token) + amount + amount)] else []
  }

  function TopUpWants(virtual: map<Token, nat>, tokens: Tokens, amounts: Amounts): seq<Want> {
    TopUpWant(virtual, tokens.usdc, amounts.usdc) + TopUpWant(virtual, tokens.weth, amounts.weth)
  }

  function PushOf(s: Stream, token: Token, amount: int): seq<Call> {
    if amount > 0 then [Push(s, token, amount)] else []
  }

  function Pushes(s: Stream, tokens: Tokens, amounts: Amounts): seq<Call> {
    PushOf(s, tokens.usdc, amounts.usdc) + PushOf(s, tokens.weth, amounts.weth)
  }

  /** None when the amounts are refused, the stream is not live or an allowance cannot be read. */
  method TopUpStrategy(live: map<Stream, map<Token, nat>>, read: map<Token, nat>, s: Stream,
                       tokens: Tokens, amounts: Amounts) returns (batch: Option<seq<Call>>)
    ensures batch.Some? <==>
      Usable(amounts) && s in live && Readable(read, TopUpWants(live[s], tokens, amounts))
    ensures batch.Some? ==> batch.value == TopUpCalls(live[s], read, s, tokens, amounts)
  {
    if amounts.usdc < 0 || amounts.weth < 0 {
      return None;
    }
    if amounts.usdc == 0 && amounts.weth == 0 {
      return None;
    }
    if s !in live {
      return None;
    }
    hide Readable, PlannedCalls;
    var wants: seq<Want> := [];
    if amounts.usdc > 0 {
      var newVirtual := Get(live[s], tokens.usdc) + amounts.usdc;
      wants := wants + [Want(tokens.usdc, newVirtual + amounts.usdc)];
    }
    if amounts.weth > 0 {
      var newVirtual := Get(live[s], tokens.weth) + amounts.weth;
      wants := wants + [Want(tokens.weth, newVirtual + amounts.weth)];
    }
    assert wants == TopUpWants(live[s], tokens, amounts);
    var approvals := BuildApprovals(read, wants);
    if approvals.None? {
      return None;
    }
    return Some(approvals.value + Pushes(s, tokens, amounts));
  }

  function TopUpCalls(virtual: map<Token, nat>, read: map<Token, nat>, s: Stream,
                      tokens: Tokens, amounts: Amounts): seq<Call>
  {
    PlannedCalls(read, TopUpWants(virtual, tokens, amounts)) + Pushes(s, tokens, amounts)
  }

  function ShipWants(tokens: Tokens, amounts: Amounts): seq<Want> {
    [Want(tokens.usdc, amounts.usdc), Want(tokens.weth, amounts.weth)]
  }

  function ShipCalls(read: map<Token, nat>, s: Stream, tokens: Tokens, amounts: Amounts): seq<Call>
    requires Usable(amounts)
  {
    PlannedCalls(read, ShipWants(tokens, amounts))
    + [Ship(s, map[tokens.usdc := amounts.usdc, tokens.weth := amounts.weth])]
  }

  method ShipStrategy(read: map<Token, nat>, s: Stream, tokens: Tokens, amounts: Amounts)
    returns (batch: Option<seq<Call>>)
    ensures batch.Some? <==> Usable(amounts) && Readable(read, ShipWants(tokens, amounts))
    ensures batch.Some? ==> batch.value == ShipCalls(read, s, tokens, amounts)
  {
    if !Usable(amounts) {
      return None;
    }
    var shipCall := Ship(s, map[tokens.usdc := amounts.usdc, tokens.weth := amounts.weth]);
    var approvals := BuildApprovals(read, [Want(tokens.usdc, amounts.usdc), Want(tokens.weth, amounts.weth)]);
    if approvals.None? {
      return None;
    }
    return Some(approvals.value + [shipCall]);
  }

  // ----- what a top-up does -----

  /** One push, or none for no amount. */
  lemma RunPush(r: Rock, s: Stream, token: Token, amount: nat)
    requires s in r.streams
    ensures Run(r, PushOf(s, token, amount)).Some? <==>
      Get(r.held, token) >= amount && Get(r.allowance, token) >= amount
    ensures Run(r, PushOf(s, token, amount)).Some? ==>
      var after := Run(r, PushOf(s, token, amount)).value;
      && after.held == r.held && after.streams.Keys == r.streams.Keys
      && (forall t: Token :: Get(after.allowance, t) == Get(r.allowance, t) - if t == token then amount else 0)
      && (forall o: Stream, t: Token :: Virtual(after, o, t)
           == Virtual(r, o, t) + if o == s && t == token then amount else 0)
  {
    if amount > 0 {
      RunSingle(r, Push(s, token, amount));
    }
  }

  /** The two pushes of a top-up. */
  lemma RunPushes(r: Rock, s: Stream, tokens: Tokens, amounts: Amounts)
    requires s in r.streams && tokens.usdc != tokens.weth && amounts.usdc >= 0 && amounts.weth >= 0
    ensures Run(r, Pushes(s, tokens, amounts)).Some? <==>
      && Get(r.held, tokens.usdc) >= amounts.usdc && Get(r.allowance, tokens.usdc) >= amounts.usdc
      && Get(r.held, tokens.weth) >= amounts.weth && Get(r.allowance, tokens.weth) >= amounts.weth
    ensures Run(r, Pushes(s, tokens, amounts)).Some? ==>
      var after := Run(r, Pushes(s, tokens, amounts)).value;
      && after.held == r.held && after.streams.Keys == r.streams.Keys
      && (forall t: Token :: Get(after.allowance, t) == Get(r.allowance, t) - Part(tokens, amounts, t))
      && (forall o: Stream, t: Token :: Virtual(after, o, t)
           == Virtual(r, o, t) + if o == s then Part(tokens, amounts, t) else 0)
  {
    hide Run, PushOf, Get, Virtual;
    RunAppend(r, PushOf(s, tokens.usdc, amounts.usdc), PushOf(s, tokens.weth, amounts.weth));
    RunPush(r, s, tokens.usdc, amounts.usdc);
    var mid := Run(r, PushOf(s, tokens.usdc, amounts.usdc));
    if mid.Some? {
      RunPush(mid.value, s, tokens.weth, amounts.weth);
    }
  }

  /** The allowance that a top-up's approvals leave for its pushes: what it asks for where the allowance read
      falls short of that, and what there is otherwise. */
  function RoomFor(virtual: nat, amount: int, read: nat, live: nat): int {
    if amount > 0 && read < virtual + amount + amount then virtual + amount + amount else live
  }

  /** No allowance has grown since it was read. */
  ghost predicate DrawnOn(live: map<Token, nat>, read: map<Token, nat>) {
    forall token: Token :: Get(live, token) <= Get(read, token)
  }

  lemma TopUpApprovals(r: Rock, virtual: map<Token, nat>, read: map<Token, nat>, tokens: Tokens, amounts: Amounts)
    requires tokens.usdc != tokens.weth && Usable(amounts) && DrawnOn(r.allowance, read)
    ensures var run := Run(r, PlannedCalls(read, TopUpWants(virtual, tokens, amounts)));
      && run.Some? && run.value.held == r.held && run.value.streams == r.streams
      && forall t: Token :: Get(run.value.allowance, t)
           == RoomFor(Get(virtual, t), Part(tokens, amounts, t), Get(read, t), Get(r.allowance, t))
  {
    hide Run, PlannedCalls, Get;
    var wants := TopUpWants(virtual, tokens, amounts);
    DistinctPlanRuns(r, read, wants);
    var after := Run(r, PlannedCalls(read, wants)).value;
    forall t: Token
      ensures Get(after.allowance, t)
           == RoomFor(Get(virtual, t), Part(tokens, amounts, t), Get(read, t), Get(r.allowance, t))
    {
      WantedToken(virtual, tokens, amounts, t);
    }
  }

  /** Which tokens a top-up asks room for, and how much. */
  lemma WantedToken(virtual: map<Token, nat>, tokens: Tokens, amounts: Amounts, t: Token)
    requires tokens.usdc != tokens.weth && Usable(amounts)
    ensures var wants, amount := TopUpWants(virtual, tokens, amounts), Part(tokens, amounts, t);
      if amount > 0 then Want(t, Get(virtual, t) + amount + amount) in wants
      else forall i :: 0 <= i < |wants| ==> wants[i].token != t
  {
    var wants := TopUpWants(virtual, tokens, amounts);
    if Part(tokens, amounts, t) > 0 {
      var i := if t == tokens.usdc || amounts.usdc == 0 then 0 else 1;
      assert wants[i] == Want(t, Get(virtual, t) + Part(tokens, amounts, t) + Part(tokens, amounts, t));
    }
  }

  /** A top-up whose allowances have been drawn on since they were read goes through exactly when the tokens
      are held and each approval that was left out still has room for its push. It moves no token, raises
      the stream's virtual balances by the amounts and no other stream's, and spends the amounts. */
  lemma TopUpRunsLater(r: Rock, virtual: map<Token, nat>, read: map<Token, nat>, s: Stream,
                       tokens: Tokens, amounts: Amounts)
    requires s in r.streams && tokens.usdc != tokens.weth && Usable(amounts) && DrawnOn(r.allowance, read)
    ensures var run := Run(r, TopUpCalls(virtual, read, s, tokens, amounts));
      && (run.Some? <==> forall t :: t in {tokens.usdc, tokens.weth} ==>
            && Get(r.held, t) >= Part(tokens, amounts, t)
            && RoomFor(Get(virtual, t), Part(tokens, amounts, t), Get(read, t), Get(r.allowance, t))
               >= Part(tokens, amounts, t))
      && (run.Some? ==>
            && run.value.held == r.held && run.value.streams.Keys == r.streams.Keys
            && (forall t: Token :: Get(run.value.allowance, t)
                  == RoomFor(Get(virtual, t), Part(tokens, amounts, t), Get(read, t), Get(r.allowance, t))
                     - Part(tokens, amounts, t))
            && (forall o: Stream, t: Token :: Virtual(run.value, o, t)
                  == Virtual(r, o, t) + if o == s then Part(tokens, amounts, t) else 0))
  {
    hide Run, PlannedCalls, Get, TopUpWants, Pushes, RoomFor;
    var approvals := PlannedCalls(read, TopUpWants(virtual, tokens, amounts));
    RunAppend(r, approvals, Pushes(s, tokens, amounts));
    TopUpApprovals(r, virtual, read, tokens, amounts);
    RunPushes(Run(r, approvals).value, s, tokens, amounts);
  }

  /** A top-up planned on the allowances it runs on goes through exactly when the tokens are held, and leaves
      each pushed token the greater of current and asked, less the amount pushed. */
  lemma TopUpRuns(r: Rock, s: Stream, tokens: Tokens, amounts: Amounts)
    requires s in r.streams && tokens.usdc != tokens.weth && Usable(amounts)
    ensures var run := Run(r, TopUpCalls(r.streams[s], r.allowance, s, tokens, amounts));
      && (run.Some? <==> Get(r.held, tokens.usdc) >= amounts.usdc && Get(r.held, tokens.weth) >= amounts.weth)
      && (run.Some? ==>
            && run.value.held == r.held && run.value.streams.Keys == r.streams.Keys
            && (forall t: Token :: Get(run.value.allowance, t) == Leftover(r, s, t, Part(tokens, amounts, t)))
            && (forall o: Stream, t: Token :: Virtual(run.value, o, t)
                  == Virtual(r, o, t) + if o == s then Part(tokens, amounts, t) else 0))
  {
    hide Run, TopUpCalls, Get;
    TopUpRunsLater(r, r.streams[s], r.allowance, s, tokens, amounts);
    assert tokens.usdc in {tokens.usdc, tokens.weth} && tokens.weth in {tokens.usdc, tokens.weth};
  }

  /** The allowance of a token after a top-up of the stream by an amount. */
  function Leftover(r: Rock, s: Stream, token: Token, amount: int): int {
    if amount > 0 then Max(Get(r.allowance, token), Virtual(r, s, token) + amount + amount) - amount
    else Get(r.allowance, token) - amount
  }

  /** The allowance lets the stream's pulls settle all that it offers of the token. */
  predicate Covered(r: Rock, s: Stream, token: Token) {
    Virtual(r, s, token) <= Get(r.allowance, token)
  }

  /** After a top-up the allowance covers the stream's new balance of each pushed token. Another stream
      stays covered exactly when its balance is no greater than that new balance, or the allowance had room
      for the push beside it. */
  lemma TopUpCover(r: Rock, s: Stream, tokens: Tokens, amounts: Amounts, token: Token, other: Stream)
    requires s in r.streams && tokens.usdc != tokens.weth && Usable(amounts)
    requires Run(r, TopUpCalls(r.streams[s], r.allowance, s, tokens, amounts)).Some?
    requires Part(tokens, amounts, token) > 0
    ensures var after := Run(r, TopUpCalls(r.streams[s], r.allowance, s, tokens, amounts)).value;
      && Covered(after, s, token)
      && (other != s ==> (Covered(after, other, token) <==>
            || Virtual(r, other, token) <= Virtual(r, s, token) + Part(tokens, amounts, token)
            || Virtual(r, other, token) + Part(tokens, amounts, token) <= Get(r.allowance, token)))
  {
    hide Run, TopUpCalls, Get, Virtual;
    TopUpRuns(r, s, tokens, amounts);
  }

  /** Two streams of 100 and 10 share an allowance of 100: adding 50 to the smaller leaves only 60 for
      the larger. */
  lemma SiblingLosesCover()
    ensures var tokens, amounts := Tokens("usdc", "weth"), Amounts(50, 0);
      var r := Rock(map["usdc" := 200], map["usdc" := 100], map[0 := map["usdc" := 100], 1 := map["usdc" := 10]]);
      var run := Run(r, TopUpCalls(r.streams[1], r.allowance, 1, tokens, amounts));
      && Covered(r, 0, "usdc") && Covered(r, 1, "usdc")
      && run.Some? && !Covered(run.value, 0, "usdc")
  {
    hide Run, TopUpCalls;
    var r := Rock(map["usdc" := 200], map["usdc" := 100], map[0 := map["usdc" := 100], 1 := map["usdc" := 10]]);
    TopUpRuns(r, 1, Tokens("usdc", "weth"), Amounts(50, 0));
    TopUpCover(r, 1, Tokens("usdc", "weth"), Amounts(50, 0), "usdc", 0);
  }

  // ----- what a ship does -----

  /** A ship planned on the allowances it runs on always goes through: each allowance becomes the greater of
      what it was and the stream's own amount, and the stream is live with those amounts. */
  lemma ShipRuns(r: Rock, s: Stream, tokens: Tokens, amounts: Amounts)
    requires s !in r.streams && tokens.usdc != tokens.weth && Usable(amounts)
    ensures var run := Run(r, ShipCalls(r.allowance, s, tokens, amounts));
      && run.Some? && run.value.held == r.held && run.value.streams.Keys == r.streams.Keys + {s}
      && (forall t: Token :: Get(run.value.allowance, t) == Max(Get(r.allowance, t), Part(tokens, amounts, t)))
      && (forall o: Stream, t: Token :: Virtual(run.value, o, t)
            == if o == s then Part(tokens, amounts, t) else Virtual(r, o, t))
  {
    var approvals := PlannedCalls(r.allowance, ShipWants(tokens, amounts));
    var ship := Ship(s, map[tokens.usdc := amounts.usdc, tokens.weth := amounts.weth]);
    hide Run, PlannedCalls, Apply, Get, Virtual, Part, ShipWants;
    RunAppend(r, approvals, [ship]);
    ShipApprovals(r, tokens, amounts);
    RunSingle(Run(r, approvals).value, ship);
    ShipEffect(Run(r, approvals).value, s, tokens, amounts);
  }

  lemma ShipApprovals(r: Rock, tokens: Tokens, amounts: Amounts)
    requires tokens.usdc != tokens.weth && Usable(amounts)
    ensures var run := Run(r, PlannedCalls(r.allowance, ShipWants(tokens, amounts)));
      && run.Some? && run.value.held == r.held && run.value.streams == r.streams
      && forall t: Token :: Get(run.value.allowance, t) == Max(Get(r.allowance, t), Part(tokens, amounts, t))
  {
    hide Run, PlannedCalls, Get;
    var wants := ShipWants(tokens, amounts);
    DistinctPlanRuns(r, r.allowance, wants);
    var mid := Run(r, PlannedCalls(r.allowance, wants)).value;
    forall t: Token
      ensures Get(mid.allowance, t) == Max(Get(r.allowance, t), Part(tokens, amounts, t))
    {
      assert wants[0].token == tokens.usdc && wants[1].token == tokens.weth;
    }
  }

  lemma ShipEffect(r: Rock, s: Stream, tokens: Tokens, amounts: Amounts)
    requires s !in r.streams && tokens.usdc != tokens.weth && Usable(amounts)
    ensures var after := Apply(r, Ship(s, map[tokens.usdc := amounts.usdc, tokens.weth := amounts.weth]));
      && after.Some? && after.value.held == r.held && after.value.streams.Keys == r.streams.Keys + {s}
      && after.value.allowance == r.allowance
      && (forall o: Stream, t: Token :: Virtual(after.value, o, t)
            == if o == s then Part(tokens, amounts, t) else Virtual(r, o, t))
  {
  }

  // ----- what the shared allowance does not cover -----

  /** The allowance covers all that the rock holds of the token. */
  predicate ReserveCovered(r: Rock, token: Token) {
    Get(r.held, token) <= Get(r.allowance, token)
  }

  /** What the first n streams offer of the token together. */
  function Offered(r: Rock, token: Token, n: nat): nat {
    if n == 0 then 0 else Offered(r, token, n - 1) + Virtual(r, n - 1, token)
  }

  lemma {:induction false} OfferedChange(r: Rock, after: Rock, s: Stream, token: Token, d: int, n: nat)
    requires forall o: Stream :: Virtual(after, o, token) == Virtual(r, o, token) + if o == s then d else 0
    ensures Offered(after, token, n) == Offered(r, token, n) + if s < n then d else 0
  {
    hide Virtual;
    if n > 0 {
      OfferedChange(r, after, s, token, d, n - 1);
    }
  }

  lemma {:induction false} OfferedAtLeast(r: Rock, s: Stream, token: Token, n: nat)
    requires s < n
    ensures Virtual(r, s, token) <= Offered(r, token, n)
  {
    hide Virtual;
    if s < n - 1 {
      OfferedAtLeast(r, s, token, n - 1);
    }
  }

  /** After a ship the allowance covers what the rock holds exactly when it did before, or the stream's own
      amount does; and it covers what the streams offer together exactly when it had room for the new one
      beside the others, or the others offer nothing. */
  lemma ShipCoversReserve(r: Rock, s: Stream, tokens: Tokens, amounts: Amounts, token: Token, n: nat)
    requires s !in r.streams && s < n && tokens.usdc != tokens.weth && Usable(amounts)
    ensures Run(r, ShipCalls(r.allowance, s, tokens, amounts)).Some?
    ensures var after := Run(r, ShipCalls(r.allowance, s, tokens, amounts)).value;
      var amount := Part(tokens, amounts, token);
      && (ReserveCovered(after, token) <==> ReserveCovered(r, token) || Get(r.held, token) <= amount)
      && (Offered(after, token, n) <= Get(after.allowance, token) <==>
            Offered(r, token, n) + amount <= Get(r.allowance, token) || Offered(r, token, n) == 0)
  {
    ShipRuns(r, s, tokens, amounts);
    NotLive(r, s, token);
    hide Run, ShipCalls, Get, Virtual, Offered;
    var after := Run(r, ShipCalls(r.allowance, s, tokens, amounts)).value;
    OfferedChange(r, after, s, token, Part(tokens, amounts, token), n);
  }

  lemma NotLive(r: Rock, s: Stream, token: Token)
    requires s !in r.streams
    ensures Virtual(r, s, token) == 0
  {
  }

  /** After a top-up of a token the allowance covers what the rock holds exactly when the stream's new balance
      does, or there was room for the push beside it; and it covers what the streams offer together exactly
      when there was room for twice the amount beside that, or no other stream offers anything. */
  lemma TopUpCoversReserve(r: Rock, s: Stream, tokens: Tokens, amounts: Amounts, token: Token, n: nat)
    requires s in r.streams && s < n && tokens.usdc != tokens.weth && Usable(amounts)
    requires Run(r, TopUpCalls(r.streams[s], r.allowance, s, tokens, amounts)).Some?
    ensures var after := Run(r, TopUpCalls(r.streams[s], r.allowance, s, tokens, amounts)).value;
      var amount := Part(tokens, amounts, token);
      && (ReserveCovered(after, token) <==>
            || Get(r.held, token) + amount <= Get(r.allowance, token)
            || (amount > 0 && Get(r.held, token) <= Virtual(r, s, token) + amount))
      && (Offered(after, token, n) <= Get(after.allowance, token) <==>
            || Offered(r, token, n) + amount + amount <= Get(r.allowance, token)
            || (amount > 0 && Offered(r, token, n) == Virtual(r, s, token)))
  {
    TopUpRuns(r, s, tokens, amounts);
    hide Run, TopUpCalls, Get, Virtual, Offered;
    var after := Run(r, TopUpCalls(r.streams[s], r.allowance, s, tokens, amounts)).value;
    OfferedChange(r, after, s, token, Part(tokens, amounts, token), n);
    OfferedAtLeast(r, s, token, n);
    UntouchedToken(tokens, amounts, token);
  }

  lemma UntouchedToken(tokens: Tokens, amounts: Amounts, token: Token)
    requires Usable(amounts)
    ensures Part(tokens, amounts, token) >= 0
  {
  }

  // ----- any history of ships and top-ups -----

  datatype Operation = ShipIt(stream: Stream, amounts: Amounts) | TopItUp(stream: Stream, amounts: Amounts)

  /** The operation planned on the allowances that exist; None when it is refused or reverts. */
  function Perform(r: Rock, tokens: Tokens, op: Operation): Option<Rock> {
    if !Usable(op.amounts) then None
    else
      match op
      case ShipIt(s, amounts) => Run(r, ShipCalls(r.allowance, s, tokens, amounts))
      case TopItUp(s, amounts) =>
        if s in r.streams then Run(r, TopUpCalls(r.streams[s], r.allowance, s, tokens, amounts)) else None
  }

  /** A refused or reverted operation changes nothing. */
  function After(r: Rock, tokens: Tokens, ops: seq<Operation>): Rock {
    if ops == [] then r
    else
      var before := After(r, tokens, ops[..|ops| - 1]);
      var next := Perform(before, tokens, ops[|ops| - 1]);
      if next.Some? then next.value else before
  }

  ghost predicate AllCovered(r: Rock) {
    forall s: Stream, t: Token :: Covered(r, s, t)
  }

  /** No other stream of a topped-up token needs the allowance that the push spends. */
  ghost predicate SiblingsFit(r: Rock, tokens: Tokens, op: Operation) {
    op.TopItUp? ==>
      forall o: Stream, t: Token :: o != op.stream && Part(tokens, op.amounts, t) > 0 ==>
        || Virtual(r, o, t) <= Virtual(r, op.stream, t) + Part(tokens, op.amounts, t)
        || Virtual(r, o, t) + Part(tokens, op.amounts, t) <= Get(r.allowance, t)
  }

  lemma TopUpKeepsCover(r: Rock, tokens: Tokens, s: Stream, amounts: Amounts)
    requires tokens.usdc != tokens.weth && AllCovered(r) && Perform(r, tokens, TopItUp(s, amounts)).Some?
    ensures AllCovered(Perform(r, tokens, TopItUp(s, amounts)).value)
       <==> SiblingsFit(r, tokens, TopItUp(s, amounts))
  {
    hide Run, TopUpCalls, Get, Virtual;
    TopUpRuns(r, s, tokens, amounts);
    var after := Perform(r, tokens, TopItUp(s, amounts)).value;
    forall o: Stream, t: Token
      ensures Part(tokens, amounts, t) > 0 && o != s ==> (Covered(after, o, t) <==>
        || Virtual(r, o, t) <= Virtual(r, s, t) + Part(tokens, amounts, t)
        || Virtual(r, o, t) + Part(tokens, amounts, t) <= Get(r.allowance, t))
      ensures Part(tokens, amounts, t) <= 0 || o == s ==> Covered(after, o, t)
    {
      assert Covered(r, o, t);
    }
  }

  lemma ShipKeepsCover(r: Rock, tokens: Tokens, s: Stream, amounts: Amounts)
    requires tokens.usdc != tokens.weth && AllCovered(r) && s !in r.streams && Usable(amounts)
    ensures Perform(r, tokens, ShipIt(s, amounts)).Some?
    ensures AllCovered(Perform(r, tokens, ShipIt(s, amounts)).value)
  {
    hide Run, ShipCalls, Get, Virtual;
    ShipRuns(r, s, tokens, amounts);
    var after := Perform(r, tokens, ShipIt(s, amounts)).value;
    forall o: Stream, t: Token
      ensures Covered(after, o, t)
    {
      assert Covered(r, o, t);
    }
  }

  /** An operation that goes through on covered streams leaves them all covered exactly when the siblings
      fit; a ship always does. */
  lemma OperationKeepsCover(r: Rock, tokens: Tokens, op: Operation)
    requires tokens.usdc != tokens.weth && AllCovered(r) && Perform(r, tokens, op).Some?
    ensures AllCovered(Perform(r, tokens, op).value) <==> SiblingsFit(r, tokens, op)
  {
    hide AllCovered, Run;
    match op
    case ShipIt(s, amounts) =>
      if s in r.streams {
        ShippedTwice(r, s, tokens, amounts);
      } else {
        ShipKeepsCover(r, tokens, s, amounts);
      }
    case TopItUp(s, amounts) =>
      TopUpKeepsCover(r, tokens, s, amounts);
  }

  /** A stream that is live cannot be shipped again. */
  lemma ShippedTwice(r: Rock, s: Stream, tokens: Tokens, amounts: Amounts)
    requires tokens.usdc != tokens.weth && Usable(amounts) && s in r.streams
    ensures Run(r, ShipCalls(r.allowance, s, tokens, amounts)).None?
  {
    var wants := ShipWants(tokens, amounts);
    var approvals := PlannedCalls(r.allowance, wants);
    var ship := Ship(s, map[tokens.usdc := amounts.usdc, tokens.weth := amounts.weth]);
    hide Run, PlannedCalls;
    RunAppend(r, approvals, [ship]);
    DistinctPlanRuns(r, r.allowance, wants);
    RunSingle(Run(r, approvals).value, ship);
  }

  /** A history whose top-ups all leave room for the siblings keeps every stream covered. */
  lemma {:induction false} HistoryKeepsCover(r: Rock, tokens: Tokens, ops: seq<Operation>)
    requires tokens.usdc != tokens.weth && AllCovered(r)
    requires forall k :: 0 <= k < |ops| ==> SiblingsFit(After(r, tokens, ops[..k]), tokens, ops[k])
    ensures AllCovered(After(r, tokens, ops))
  {
    if ops == [] {
    } else {
      hide AllCovered, SiblingsFit, Perform;
      var n := |ops| - 1;
      var init := ops[..n];
      forall k | 0 <= k < n
        ensures SiblingsFit(After(r, tokens, init[..k]), tokens, init[k])
      {
        assert init[..k] == ops[..k];
      }
      HistoryKeepsCover(r, tokens, init);
      var before := After(r, tokens, init);
      if Perform(before, tokens, ops[n]).Some? {
        OperationKeepsCover(before, tokens, ops[n]);
      }
    }
  }

  /** A rock with one stream is always covered, whatever its top-ups. */
  lemma {:induction false} OneStreamCovered(r: Rock, tokens: Tokens, s: Stream, ops: seq<Operation>)
    requires tokens.usdc != tokens.weth && AllCovered(r) && r.streams.Keys <= {s}
    requires forall k :: 0 <= k < |ops| ==> ops[k].stream == s
    ensures AllCovered(After(r, tokens, ops)) && After(r, tokens, ops).streams.Keys <= {s}
  {
    if ops == [] {
    } else {
      hide AllCovered, Perform;
      var n := |ops| - 1;
      OneStreamCovered(r, tokens, s, ops[..n]);
      var before := After(r, tokens, ops[..n]);
      if Perform(before, tokens, ops[n]).Some? {
        OperationKeepsCover(before, tokens, ops[n]);
        OperationStreams(before, tokens, ops[n]);
      }
    }
  }

  lemma OperationStreams(r: Rock, tokens: Tokens, op: Operation)
    requires tokens.usdc != tokens.weth && Perform(r, tokens, op).Some?
    ensures Perform(r, tokens, op).value.streams.Keys == r.streams.Keys + {op.stream}
  {
    match op
    case ShipIt(s, amounts) =>
      if s in r.streams {
        ShippedTwice(r, s, tokens, amounts);
      } else {
        ShipRuns(r, s, tokens, amounts);
      }
    case TopItUp(s, amounts) =>
      TopUpRuns(r, s, tokens, amounts);
  }

  /** A rock that holds 100 ships a stream of 60 and one of 40: both are covered, but the allowance is 60,
      less than the reserve and less than the two streams offer together. */
  lemma TwoShipsLeaveTheReserveUncovered()
    ensures var tokens := Tokens("usdc", "weth");
      var r := After(Rock(map["usdc" := 100], map[], map[]), tokens,
                     [ShipIt(0, Amounts(60, 0)), ShipIt(1, Amounts(40, 0))]);
      && Covered(r, 0, "usdc") && Covered(r, 1, "usdc")
      && Get(r.held, "usdc") == 100 == Offered(r, "usdc", 2) && Get(r.allowance, "usdc") == 60
  {
    hide Run, ShipCalls;
    var tokens := Tokens("usdc", "weth");
    var empty := Rock(map["usdc" := 100], map[], map[]);
    var ops := [ShipIt(0, Amounts(60, 0)), ShipIt(1, Amounts(40, 0))];
    ShipRuns(empty, 0, tokens, Amounts(60, 0));
    var one := Perform(empty, tokens, ops[0]).value;
    ShipRuns(one, 1, tokens, Amounts(40, 0));
    assert ops[..1][..0] == [] && ops[..1] == [ops[0]];
    assert After(empty, tokens, ops[..1]) == one;
    var two := Perform(one, tokens, ops[1]).value;
    assert After(empty, tokens, ops) == two;
    assert Offered(two, "usdc", 1) == Offered(two, "usdc", 0) + Virtual(two, 0, "usdc");
    assert Offered(two, "usdc", 2) == Virtual(two, 0, "usdc") + Virtual(two, 1, "usdc");
  }
}
