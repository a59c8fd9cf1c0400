/** Registry events: their order, the merge of stored and recent events, and the logs of a chain. */
module Events {
  import opened Arithmetic

  /** A log is identified by its transaction and its index there. */
  datatype EventId = EventId(tx: nat, logIndex: nat)

  /** A decoded registry event; details stands for type, payload and timestamp. */
  datatype Event = Event(tx: nat, logIndex: nat, rock: nat, block: nat, details: string)

  function Id(e: Event): EventId {
    EventId(e.tx, e.logIndex)
  }

  /** a comes strictly before b in an activity list. */
  predicate Newer(a: Event, b: Event) {
    a.block > b.block || (a.block == b.block && a.logIndex > b.logIndex)
  }

  ghost predicate NewestFirst(s: seq<Event>) {
    forall i, j :: 0 <= i < j < |s| ==> !Newer(s[j], s[i])
  }

  ghost predicate StrictlyNewestFirst(s: seq<Event>) {
    forall i, j :: 0 <= i < j < |s| ==> Newer(s[i], s[j])
  }

  ghost predicate DistinctIds(s: seq<Event>) {
    forall i, j :: 0 <= i < j < |s| ==> Id(s[i]) != Id(s[j])
  }

  // ----- stable sorting -----

  /** Inserts e behind everything it is not strictly newer than. */
  function Insert(s: seq<Event>, e: Event): seq<Event> {
    if s == [] then [e]
    else
      var n := |s| - 1;
      if Newer(e, s[n]) then Insert(s[..n], e) + [s[n]] else s + [e]
  }

  function SortNewestFirst(s: seq<Event>): seq<Event> {
    if s == [] then [] else Insert(SortNewestFirst(s[..|s| - 1]), s[|s| - 1])
  }

  lemma {:induction false} InsertMultiset(s: seq<Event>, e: Event)
    ensures multiset(Insert(s, e)) == multiset(s) + multiset{e}
  {
    if s == [] {
    } else {
      var n := |s| - 1;
      assert s == s[..n] + [s[n]];
      InsertMultiset(s[..n], e);
    }
  }

  lemma {:induction false} InsertSorted(s: seq<Event>, e: Event)
    requires NewestFirst(s)
    ensures NewestFirst(Insert(s, e))
  {
    if s == [] {
    } else {
      var n := |s| - 1;
      if Newer(e, s[n]) {
        var r := Insert(s[..n], e);
        InsertSorted(s[..n], e);
        InsertMultiset(s[..n], e);
        forall i | 0 <= i < |r|
          ensures !Newer(s[n], r[i])
        {
          assert r[i] in multiset(r);
          assert r[i] == e || r[i] in s[..n];
        }
      }
    }
  }

  /** Sorting keeps the events and puts the newest first. */
  lemma {:induction false} SortFacts(s: seq<Event>)
    ensures multiset(SortNewestFirst(s)) == multiset(s)
    ensures NewestFirst(SortNewestFirst(s))
    ensures var t := SortNewestFirst(s); forall i, j :: 0 <= i < j < |t| ==>
      t[i].block > t[j].block || (t[i].block == t[j].block && t[i].logIndex >= t[j].logIndex)
  {
    if s == [] {
    } else {
      var n := |s| - 1;
      assert s == s[..n] + [s[n]];
      SortFacts(s[..n]);
      InsertMultiset(SortNewestFirst(s[..n]), s[n]);
      InsertSorted(SortNewestFirst(s[..n]), s[n]);
    }
  }

  /** A list in this order stays as it is: the sort does not move what it need not. */
  lemma {:induction false} SortLeavesSorted(s: seq<Event>)
    requires forall i, j :: 0 <= i < j < |s| ==>
      s[i].block > s[j].block || (s[i].block == s[j].block && s[i].logIndex >= s[j].logIndex)
    ensures SortNewestFirst(s) == s
  {
    if s == [] {
    } else {
      var n := |s| - 1;
      SortLeavesSorted(s[..n]);
      InsertLast(s[..n], s[n]);
      hide Insert;
      assert s == s[..n] + [s[n]];
    }
  }

  lemma InsertLast(s: seq<Event>, e: Event)
    requires s == [] || !Newer(e, s[|s| - 1])
    ensures Insert(s, e) == s + [e]
  {
  }

  lemma SortMembers(s: seq<Event>, e: Event)
    ensures e in SortNewestFirst(s) <==> e in s
  {
    SortFacts(s);
    assert e in multiset(SortNewestFirst(s)) <==> e in multiset(s);
  }

  /** Distinct ids in terms of multiplicities, which sorting keeps. */
  lemma DistinctAsMultiset(s: seq<Event>)
    ensures DistinctIds(s) <==>
      (forall e, f :: e in multiset(s) && f in multiset(s) && Id(e) == Id(f) ==> e == f)
      && (forall e :: e in multiset(s) ==> multiset(s)[e] == 1)
  {
    if DistinctIds(s) {
      forall e | e in multiset(s)
        ensures multiset(s)[e] == 1
      {
        OnceInDistinct(s, e);
      }
    } else {
      var i, j :| 0 <= i < j < |s| && Id(s[i]) == Id(s[j]);
      TwiceInMultiset(s, i, j);
    }
  }

  lemma SortKeepsDistinct(s: seq<Event>)
    requires DistinctIds(s)
    ensures DistinctIds(SortNewestFirst(s))
  {
    SortFacts(s);
    DistinctAsMultiset(s);
    DistinctAsMultiset(SortNewestFirst(s));
  }

  lemma TwiceInMultiset(r: seq<Event>, i: int, j: int)
    requires 0 <= i < j < |r|
    ensures r[i] == r[j] ==> multiset(r)[r[i]] >= 2
    ensures r[i] in multiset(r) && r[j] in multiset(r)
  {
    var rest := r[..i] + r[i + 1..];
    assert r == r[..i] + [r[i]] + r[i + 1..];
    assert multiset(r) == multiset(rest) + multiset{r[i]};
    assert rest[j - 1] == r[j];
    assert r[j] in multiset(rest);
  }

  lemma {:induction false} OnceInDistinct(s: seq<Event>, e: Event)
    requires DistinctIds(s)
    ensures multiset(s)[e] <= 1
  {
    if s == [] {
    } else {
      var n := |s| - 1;
      assert s == s[..n] + [s[n]];
      OnceInDistinct(s[..n], e);
      assert e in multiset(s[..n]) ==> Id(e) != Id(s[n]);
    }
  }

  lemma FirstMember(s: seq<Event>)
    ensures s != [] ==> s[0] in s
  {
  }

  /** A strictly ordered list is determined by its members. */
  lemma {:induction false} StrictOrderUnique(a: seq<Event>, b: seq<Event>)
    requires StrictlyNewestFirst(a) && StrictlyNewestFirst(b)
    requires forall e :: e in a <==> e in b
    ensures a == b
  {
    if a == [] {
      FirstMember(b);
    } else {
      assert a[0] in b;
      var m, n := |a| - 1, |b| - 1;
      assert a[m] in b && b[n] in a;
      assert a[m] == b[n];
      forall e: Event
        ensures e in a[..m] <==> e in b[..n]
      {
        assert e in a[..m] <==> e in a && e != a[m];
        assert e in b[..n] <==> e in b && e != b[n];
      }
      StrictOrderUnique(a[..m], b[..n]);
    }
  }

  // ----- the merge, newest copy of an id wins -----

  /** An insertion-ordered map by id: replace in place, or append. */
  function Put(acc: seq<Event>, e: Event): seq<Event> {
    if acc == [] then [e]
    else if Id(acc[0]) == Id(e) then [e] + acc[1..]
    else [acc[0]] + Put(acc[1..], e)
  }

  function PutAll(acc: seq<Event>, es: seq<Event>): seq<Event> {
    if es == [] then acc else Put(PutAll(acc, es[..|es| - 1]), es[|es| - 1])
  }

  function Merge(stored: seq<Event>, recent: seq<Event>): seq<Event> {
    SortNewestFirst(PutAll(PutAll([], stored), recent))
  }

  lemma {:induction false} PutFacts(acc: seq<Event>, e: Event)
    requires DistinctIds(acc)
    ensures DistinctIds(Put(acc, e))
    ensures forall x :: x in Put(acc, e) <==> x == e || (x in acc && Id(x) != Id(e))
  {
    if acc == [] {
    } else if Id(acc[0]) == Id(e) {
      forall x | x in acc[1..]
        ensures Id(x) != Id(e)
      {
        var k :| 1 <= k < |acc| && acc[k] == x;
      }
    } else {
      PutFacts(acc[1..], e);
      var r := Put(acc[1..], e);
      forall k | 0 <= k < |r|
        ensures Id(r[k]) != Id(acc[0])
      {
        assert r[k] in r;
        if r[k] in acc[1..] {
          var l :| 1 <= l < |acc| && acc[l] == r[k];
        }
      }
      assert acc == [acc[0]] + acc[1..];
    }
  }

  /** No event of es shares the id of x unless it is x. */
  ghost predicate OnlyOneOf(es: seq<Event>, x: Event) {
    forall y :: y in es && Id(y) == Id(x) ==> y == x
  }

  lemma {:induction false} PutAllFacts(acc: seq<Event>, es: seq<Event>)
    requires DistinctIds(acc)
    ensures DistinctIds(PutAll(acc, es))
    ensures forall x :: x in PutAll(acc, es) ==> x in acc || x in es
    ensures forall x :: OnlyOneOf(es, x) && (x in es || x in acc) ==> x in PutAll(acc, es)
  {
    if es == [] {
    } else {
      var init, last := es[..|es| - 1], es[|es| - 1];
      assert es == init + [last];
      PutAllFacts(acc, init);
      PutFacts(PutAll(acc, init), last);
      forall x | OnlyOneOf(es, x) && (x in es || x in acc)
        ensures x in PutAll(acc, es)
      {
        assert OnlyOneOf(init, x);
        if x != last {
          assert last in es;
        }
      }
    }
  }

  /** Members of a merge come from one side; an event that no recent event replaces stays. */
  lemma MergeFacts(stored: seq<Event>, recent: seq<Event>)
    ensures NewestFirst(Merge(stored, recent)) && DistinctIds(Merge(stored, recent))
    ensures forall x :: x in Merge(stored, recent) ==> x in stored || x in recent
    ensures forall x :: OnlyOneOf(stored, x) && OnlyOneOf(recent, x) && (x in stored || x in recent) ==>
      x in Merge(stored, recent)
  {
    PutAllFacts([], stored);
    PutAllFacts(PutAll([], stored), recent);
    var merged := PutAll(PutAll([], stored), recent);
    SortFacts(merged);
    SortKeepsDistinct(merged);
    forall x: Event
      ensures x in Merge(stored, recent) <==> x in merged
    {
      SortMembers(merged, x);
    }
  }

  /** Some event of es has the id of x. */
  ghost predicate IdIn(es: seq<Event>, x: Event) {
    exists y :: y in es && Id(y) == Id(x)
  }

  lemma MemberUnique(es: seq<Event>, x: Event, y: Event)
    requires DistinctIds(es) && x in es && y in es && Id(x) == Id(y)
    ensures x == y
  {
    var i :| 0 <= i < |es| && es[i] == x;
    var j :| 0 <= j < |es| && es[j] == y;
  }

  lemma {:induction false} PutAllMembers(acc: seq<Event>, es: seq<Event>, x: Event)
    requires DistinctIds(acc) && DistinctIds(es)
    ensures x in PutAll(acc, es) <==> x in es || (x in acc && !IdIn(es, x))
  {
    hide OnlyOneOf, DistinctIds, Put;
    if es != [] {
      var init, last := es[..|es| - 1], es[|es| - 1];
      assert es == init + [last];
      DistinctPrefix(es);
      PutAllMembers(acc, init, x);
      PutAllFacts(acc, init);
      PutFacts(PutAll(acc, init), last);
      IdInAppend(init, last, x);
      if x in init && Id(x) == Id(last) {
        MemberUnique(es, x, last);
      }
    }
  }

  lemma DistinctPrefix(es: seq<Event>)
    requires DistinctIds(es) && es != []
    ensures DistinctIds(es[..|es| - 1])
  {
  }

  lemma IdInAppend(init: seq<Event>, last: Event, x: Event)
    ensures IdIn(init + [last], x) <==> IdIn(init, x) || Id(last) == Id(x)
  {
    if Id(last) == Id(x) {
      assert last in init + [last];
    } else if IdIn(init, x) {
      var y :| y in init && Id(y) == Id(x);
      assert y in init + [last];
    }
  }

  /** Exactly what a merge holds: the recent events, and the stored ones whose ids are not recent. */
  lemma MergeMembers(stored: seq<Event>, recent: seq<Event>, x: Event)
    requires DistinctIds(stored) && DistinctIds(recent)
    ensures x in Merge(stored, recent) <==> x in recent || (x in stored && !IdIn(recent, x))
  {
    hide IdIn, PutAll, DistinctIds, OnlyOneOf, SortNewestFirst;
    assert DistinctIds([]) by {
      EmptyDistinct();
    }
    PutAllMembers([], stored, x);
    PutAllFacts([], stored);
    PutAllMembers(PutAll([], stored), recent, x);
    SortMembers(PutAll(PutAll([], stored), recent), x);
  }

  lemma EmptyDistinct()
    ensures DistinctIds([])
  {
  }

  /** The values of the map in insertion order. */
  function Values(order: seq<EventId>, byId: map<EventId, Event>): seq<Event>
    requires forall id :: id in order ==> id in byId
  {
    seq(|order|, k requires 0 <= k < |order| => byId[order[k]])
  }

  lemma PutEmpty(byId: map<EventId, Event>, e: Event)
    ensures Put(Values([], byId), e) == Values([] + [Id(e)], byId[Id(e) := e])
  {
  }

  lemma PutCons(a: Event, rest: seq<Event>, e: Event)
    ensures Put([a] + rest, e) == if Id(a) == Id(e) then [e] + rest else [a] + Put(rest, e)
  {
    assert ([a] + rest)[1..] == rest;
  }

  lemma ValuesCons(order: seq<EventId>, byId: map<EventId, Event>)
    requires order != [] && forall id :: id in order ==> id in byId
    ensures Values(order, byId) == [byId[order[0]]] + Values(order[1..], byId)
  {
  }

  lemma ValuesOutside(order: seq<EventId>, byId: map<EventId, Event>, e: Event)
    requires Id(e) !in order && forall id :: id in order ==> id in byId
    ensures Values(order, byId) == Values(order, byId[Id(e) := e])
  {
  }

  /** byId.set(id, e), where the order of first insertion is kept. */
  lemma {:induction false} PutIsMapUpdate(order: seq<EventId>, byId: map<EventId, Event>, e: Event)
    requires forall id :: id in order ==> id in byId && Id(byId[id]) == id
    requires forall i, j :: 0 <= i < j < |order| ==> order[i] != order[j]
    ensures Put(Values(order, byId), e)
         == Values(if Id(e) in order then order else order + [Id(e)], byId[Id(e) := e])
  {
    hide Put, Values;
    var byId' := byId[Id(e) := e];
    if order == [] {
      PutEmpty(byId, e);
    } else {
      var rest := order[1..];
      ValuesCons(order, byId);
      PutCons(byId[order[0]], Values(rest, byId), e);
      if order[0] == Id(e) {
        ValuesCons(order, byId');
        ValuesOutside(rest, byId, e);
      } else {
        PutIsMapUpdate(rest, byId, e);
        var order' := if Id(e) in order then order else order + [Id(e)];
        assert order'[1..] == if Id(e) in rest then rest else rest + [Id(e)];
        ValuesCons(order', byId');
      }
    }
  }

  method SetAll(order: seq<EventId>, byId: map<EventId, Event>, events: seq<Event>)
    returns (order': seq<EventId>, byId': map<EventId, Event>)
    requires forall id :: id in order ==> id in byId && Id(byId[id]) == id
    requires forall i, j :: 0 <= i < j < |order| ==> order[i] != order[j]
    ensures forall id :: id in order' ==> id in byId' && Id(byId'[id]) == id
    ensures forall i, j :: 0 <= i < j < |order'| ==> order'[i] != order'[j]
    ensures Values(order', byId') == PutAll(Values(order, byId), events)
  {
    order', byId' := order, byId;
    for i := 0 to |events|
      invariant forall id :: id in order' ==> id in byId' && Id(byId'[id]) == id
      invariant forall i, j :: 0 <= i < j < |order'| ==> order'[i] != order'[j]
      invariant Values(order', byId') == PutAll(Values(order, byId), events[..i])
    {
      var e := events[i];
      PutIsMapUpdate(order', byId', e);
      assert events[..i + 1][..i] == events[..i];
      if Id(e) !in order' {
        order' := order' + [Id(e)];
      }
      byId' := byId'[Id(e) := e];
    }
    assert events[..|events|] == events;
  }

  /** Stored events first, recent ones over them, then sorted. */
  method MergeEvents(stored: seq<Event>, recent: seq<Event>) returns (merged: seq<Event>)
    ensures merged == Merge(stored, recent)
    ensures forall i, j :: 0 <= i < j < |merged| ==>
      merged[i].block > merged[j].block
      || (merged[i].block == merged[j].block && merged[i].logIndex >= merged[j].logIndex)
  {
    var order, byId := SetAll([], map[], stored);
    assert Values([], map[]) == [];
    order, byId := SetAll(order, byId, recent);
    merged := SortNewestFirst(Values(order, byId));
    SortFacts(Values(order, byId));
  }

  // ----- the chain -----

  /** The registry events of each block, in log order. */
  type Chain = seq<seq<Event>>

  ghost predicate InChain(chain: Chain, e: Event) {
    e.block < |chain| && e in chain[e.block]
  }

  /** Events know their block, logs of a block are numbered upwards, ids are unique. */
  ghost predicate ValidChain(chain: Chain) {
    && (forall b: nat, e :: b < |chain| && e in chain[b] ==> e.block == b)
    && (forall b: nat, i, j :: b < |chain| && 0 <= i < j < |chain[b]| ==> chain[b][i].logIndex < chain[b][j].logIndex)
    && (forall d, e :: InChain(chain, d) && InChain(chain, e) && Id(d) == Id(e) ==> d == e)
  }

  /** All events of blocks from..upTo, in chain order. */
  function Logs(chain: Chain, from: nat, upTo: int): seq<Event>
    decreases upTo
  {
    if upTo < from then [] else Logs(chain, from, upTo - 1) + (if upTo < |chain| then chain[upTo] else [])
  }

  function OfRock(events: seq<Event>, rock: nat): seq<Event> {
    if events == [] then []
    else
      var e := events[|events| - 1];
      OfRock(events[..|events| - 1], rock) + (if e.rock == rock then [e] else [])
  }

  lemma {:induction false} OfRockMembers(events: seq<Event>, rock: nat, e: Event)
    ensures e in OfRock(events, rock) <==> e in events && e.rock == rock
  {
    if events == [] {
    } else {
      var n := |events| - 1;
      assert events == events[..n] + [events[n]];
      OfRockMembers(events[..n], rock, e);
    }
  }

  lemma {:induction false} LogsMembers(chain: Chain, from: nat, upTo: int, e: Event)
    requires ValidChain(chain)
    ensures e in Logs(chain, from, upTo) <==> InChain(chain, e) && from <= e.block <= upTo
    decreases upTo
  {
    if upTo < from {
    } else {
      LogsMembers(chain, from, upTo - 1, e);
    }
  }

  lemma {:induction false} LogsSplit(chain: Chain, from: nat, mid: nat, upTo: int)
    requires from <= mid <= upTo + 1
    ensures Logs(chain, from, upTo) == Logs(chain, from, mid - 1) + Logs(chain, mid, upTo)
    decreases upTo
  {
    if upTo < mid {
      NoLogs(chain, mid, upTo);
    } else {
      LogsSplit(chain, from, mid, upTo - 1);
      LastLogs(chain, from, upTo);
      LastLogs(chain, mid, upTo);
      hide Logs;
    }
  }

  lemma NoLogs(chain: Chain, from: nat, upTo: int)
    requires upTo < from
    ensures Logs(chain, from, upTo) == []
  {
  }

  lemma LastLogs(chain: Chain, from: nat, upTo: int)
    requires upTo >= from
    ensures Logs(chain, from, upTo) == Logs(chain, from, upTo - 1) + (if upTo < |chain| then chain[upTo] else [])
  {
  }

  /** Two chains agree on blocks below n. */
  ghost predicate Agree(chain: Chain, chain': Chain, n: int) {
    n <= |chain| && n <= |chain'| && forall b :: 0 <= b < n ==> chain[b] == chain'[b]
  }

  /** Logs depend only on the blocks they come from. */
  lemma {:induction false} LogsSame(chain: Chain, chain': Chain, from: nat, upTo: int)
    requires Agree(chain, chain', upTo + 1)
    ensures Logs(chain, from, upTo) == Logs(chain', from, upTo)
    decreases upTo
  {
    if upTo >= from {
      AgreeLess(chain, chain', upTo);
      hide Agree;
      LogsSame(chain, chain', from, upTo - 1);
    }
  }

  lemma AgreeLess(chain: Chain, chain': Chain, n: int)
    requires Agree(chain, chain', n + 1) && n >= 0
    ensures Agree(chain, chain', n) && n < |chain| && n < |chain'| && chain[n] == chain'[n]
  {
  }

  /** In a chain, block and log index tell events apart. */
  lemma ChainKeys(chain: Chain, d: Event, e: Event)
    requires ValidChain(chain) && InChain(chain, d) && InChain(chain, e)
    requires d.block == e.block && d.logIndex == e.logIndex
    ensures d == e
  {
    var i :| 0 <= i < |chain[d.block]| && chain[d.block][i] == d;
    var j :| 0 <= j < |chain[e.block]| && chain[e.block][j] == e;
  }

  lemma ChainOrderStrict(chain: Chain, s: seq<Event>)
    requires ValidChain(chain) && NewestFirst(s) && DistinctIds(s)
    requires forall e :: e in s ==> InChain(chain, e)
    ensures StrictlyNewestFirst(s)
  {
    forall i, j | 0 <= i < j < |s|
      ensures Newer(s[i], s[j])
    {
      if !Newer(s[i], s[j]) {
        assert s[i] in s && s[j] in s;
        ChainKeys(chain, s[i], s[j]);
      }
    }
  }

  /** The answer that a scan from the deploy block up to head gives. */
  function FullScan(chain: Chain, deploy: nat, head: nat, rock: nat): seq<Event> {
    SortNewestFirst(OfRock(Logs(chain, deploy, head), rock))
  }

  lemma {:induction false} LogsDistinct(chain: Chain, from: nat, upTo: int)
    requires ValidChain(chain)
    ensures DistinctIds(Logs(chain, from, upTo))
    decreases upTo
  {
    if upTo >= from {
      LogsDistinct(chain, from, upTo - 1);
      var s := Logs(chain, from, upTo);
      var n := |Logs(chain, from, upTo - 1)|;
      forall i, j | 0 <= i < j < |s|
        ensures Id(s[i]) != Id(s[j])
      {
        assert s[i] in s && s[j] in s;
        LogsMembers(chain, from, upTo, s[i]);
        LogsMembers(chain, from, upTo, s[j]);
        if i < n <= j {
          assert s[i] in Logs(chain, from, upTo - 1);
          LogsMembers(chain, from, upTo - 1, s[i]);
          assert s[j] in chain[upTo];
        }
      }
    }
  }

  lemma {:induction false} OfRockDistinct(events: seq<Event>, rock: nat)
    requires DistinctIds(events)
    ensures DistinctIds(OfRock(events, rock))
  {
    if events == [] {
    } else {
      var n := |events| - 1;
      OfRockDistinct(events[..n], rock);
      var init := OfRock(events[..n], rock);
      forall i | 0 <= i < |init|
        ensures Id(init[i]) != Id(events[n])
      {
        assert init[i] in init;
        OfRockMembers(events[..n], rock, init[i]);
      }
    }
  }

  /** A full scan lists exactly the events of the rock, strictly newest first and without duplicates. */
  lemma FullScanFacts(chain: Chain, deploy: nat, head: nat, rock: nat)
    requires ValidChain(chain)
    ensures NewestFirst(FullScan(chain, deploy, head, rock)) && DistinctIds(FullScan(chain, deploy, head, rock))
    ensures StrictlyNewestFirst(FullScan(chain, deploy, head, rock))
    ensures var full := FullScan(chain, deploy, head, rock); forall i, j :: 0 <= i < j < |full| ==>
      full[i].block > full[j].block || (full[i].block == full[j].block && full[i].logIndex > full[j].logIndex)
    ensures forall e :: e in FullScan(chain, deploy, head, rock) <==>
      InChain(chain, e) && e.rock == rock && deploy <= e.block <= head
  {
    var logs := Logs(chain, deploy, head);
    var mine := OfRock(logs, rock);
    forall e: Event
      ensures e in SortNewestFirst(mine) <==> InChain(chain, e) && e.rock == rock && deploy <= e.block <= head
    {
      SortMembers(mine, e);
      OfRockMembers(logs, rock, e);
      LogsMembers(chain, deploy, head, e);
    }
    LogsDistinct(chain, deploy, head);
    OfRockDistinct(logs, rock);
    SortFacts(mine);
    SortKeepsDistinct(mine);
    ChainOrderStrict(chain, SortNewestFirst(mine));
  }

  // ----- the mirror table -----

  /** An insert that does nothing when the id is taken. */
  function InsertRow(mirror: map<EventId, Event>, e: Event): map<EventId, Event> {
    if Id(e) in mirror then mirror else mirror[Id(e) := e]
  }

  function InsertRows(mirror: map<EventId, Event>, events: seq<Event>): map<EventId, Event> {
    if events == [] then mirror else InsertRow(InsertRows(mirror, events[..|events| - 1]), events[|events| - 1])
  }

  lemma {:induction false} InsertRowsKeeps(mirror: map<EventId, Event>, events: seq<Event>)
    ensures forall id :: id in mirror ==>
      id in InsertRows(mirror, events) && InsertRows(mirror, events)[id] == mirror[id]
    ensures forall e :: e in events ==> Id(e) in InsertRows(mirror, events)
    ensures (forall e :: e in events ==> Id(e) in mirror) ==> InsertRows(mirror, events) == mirror
  {
    if events != [] {
      var init := events[..|events| - 1];
      assert events == init + [events[|events| - 1]];
      InsertRowsKeeps(mirror, init);
    }
  }

  /** Old rows stay, every event has its id in the table, and every new row is one of the events. */
  lemma {:induction false} InsertRowsExact(mirror: map<EventId, Event>, events: seq<Event>)
    ensures var rows := InsertRows(mirror, events);
      && (forall id :: id in mirror ==> id in rows && rows[id] == mirror[id])
      && (forall e :: e in events ==> EventId(e.tx, e.logIndex) in rows)
      && (forall id :: id in rows && id !in mirror ==>
            rows[id] in events && id == EventId(rows[id].tx, rows[id].logIndex))
  {
    if events != [] {
      var init, last := events[..|events| - 1], events[|events| - 1];
      assert events == init + [last];
      InsertRowsExact(mirror, init);
    }
  }

  lemma NoRows(mirror: map<EventId, Event>)
    ensures InsertRows(mirror, []) == mirror
  {
  }

  lemma MoreRows(mirror: map<EventId, Event>, events: seq<Event>, i: nat)
    requires i < |events|
    ensures InsertRows(mirror, events[..i + 1]) == InsertRow(InsertRows(mirror, events[..i]), events[i])
  {
    assert events[..i + 1][..i] == events[..i];
  }

  /** Mirroring a range again, wholly or in part, changes nothing. */
  lemma MirroringIdempotent(mirror: map<EventId, Event>, events: seq<Event>, k: nat)
    requires k <= |events|
    ensures InsertRows(InsertRows(mirror, events), events[..k]) == InsertRows(mirror, events)
  {
    InsertRowsKeeps(mirror, events);
    InsertRowsKeeps(InsertRows(mirror, events), events[..k]);
  }

  class MirrorTable {
    var rows: map<EventId, Event>

    constructor ()
      ensures rows == map[]
    {
      rows := map[];
    }

    /** Inserts row by row; the write after the first failAfter rows fails. */
    method Mirror(events: seq<Event>, failAfter: nat) returns (ok: bool)
      modifies this
      ensures ok <==> |events| <= failAfter
      ensures rows == InsertRows(old(rows), if ok then events else events[..failAfter])
      ensures forall id :: id in old(rows) ==> id in rows && rows[id] == old(rows)[id]
      ensures forall e :: e in events[..Min(|events|, failAfter)] ==> EventId(e.tx, e.logIndex) in rows
      ensures forall id :: id in rows && id !in old(rows) ==>
        rows[id] in events[..Min(|events|, failAfter)] && id == EventId(rows[id].tx, rows[id].logIndex)
    {
      hide InsertRows;
      InsertRowsExact(rows, events[..Min(|events|, failAfter)]);
      NoRows(rows);
      for i := 0 to |events|
        invariant i <= failAfter
        invariant rows == InsertRows(old(rows), events[..i])
      {
        if i == failAfter {
          return false;
        }
        MoreRows(old(rows), events, i);
        rows := InsertRow(rows, events[i]);
      }
      assert events[..|events|] == events;
      return true;
    }
  }
}
