/**
  The merge of issueJobs in web/lib/google-ads-script-bridge.ts (664-690): one queue per customer,
  served in turn until the limit is reached or every queue is empty.
*/
module RoundRobin {
  import opened Prelude

  /** A customer's deliveries, oldest first. */
  datatype Queue = Queue(customer: string, items: seq<string>)

  predicate NonEmpty(queues: seq<Queue>) { forall i | 0 <= i < |queues| :: queues[i].items != [] }

  function Total(queues: seq<Queue>): nat {
    if queues == [] then 0 else |queues[0].items| + Total(queues[1..])
  }

  lemma {:induction false} TotalJoin(a: seq<Queue>, b: seq<Queue>)
    ensures Total(a + b) == Total(a) + Total(b)
  {
    if a == [] {
      assert a + b == b;
    } else {
      assert (a + b)[1..] == a[1..] + b;
      TotalJoin(a[1..], b);
    }
  }

  lemma TotalAt(queues: seq<Queue>, at: nat)
    requires at < |queues|
    ensures Total(queues) == Total(queues[..at]) + |queues[at].items| + Total(queues[at + 1..])
  {
    assert queues == queues[..at] + ([queues[at]] + queues[at + 1..]);
    TotalJoin(queues[..at], [queues[at]] + queues[at + 1..]);
  }

  /** queue.shift(), and splice when it was the last item. */
  function Served(queues: seq<Queue>, at: nat): (rest: seq<Queue>)
    requires at < |queues| && NonEmpty(queues)
    ensures NonEmpty(rest)
  {
    if |queues[at].items| == 1 then queues[..at] + queues[at + 1..]
    else queues[at := queues[at].(items := queues[at].items[1..])]
  }

  lemma ServedTotal(queues: seq<Queue>, at: nat)
    requires at < |queues| && NonEmpty(queues)
    ensures Total(Served(queues, at)) == Total(queues) - 1
  {
    TotalAt(queues, at);
    var rest := Served(queues, at);
    if |queues[at].items| == 1 {
      TotalJoin(queues[..at], queues[at + 1..]);
    } else {
      TotalAt(rest, at);
      assert rest[..at] == queues[..at] && rest[at + 1..] == queues[at + 1..];
    }
  }

  function NextIndex(queues: seq<Queue>, at: nat, index: nat): nat
    requires at < |queues|
  {
    if |queues[at].items| == 1 then index else index + 1
  }

  function Merge(queues: seq<Queue>, index: nat, limit: nat): seq<string>
    requires NonEmpty(queues)
    decreases limit
  {
    if limit == 0 || queues == [] then []
    else
      var at := index % |queues|;
      [queues[at].items[0]] + Merge(Served(queues, at), NextIndex(queues, at, index), limit - 1)
  }

  /** The merge is work-conserving: it ends with the limit, or with every delivery. */
  lemma {:induction false} MergeCount(queues: seq<Queue>, index: nat, limit: nat)
    requires NonEmpty(queues)
    ensures |Merge(queues, index, limit)| == Min(limit, Total(queues))
    decreases limit
  {
    if limit > 0 && queues != [] {
      var at := index % |queues|;
      ServedTotal(queues, at);
      MergeCount(Served(queues, at), NextIndex(queues, at, index), limit - 1);
    }
  }

  // ---------- a prefix of every queue, nothing twice ----------

  /** Each item is in one place of one queue. */
  ghost predicate Distinct(queues: seq<Queue>) {
    forall i, j, k, l | 0 <= i < |queues| && 0 <= j < |queues[i].items| && 0 <= k < |queues|
      && 0 <= l < |queues[k].items|
      && queues[i].items[j] == queues[k].items[l] :: i == k && j == l
  }

  ghost predicate DistinctCustomers(queues: seq<Queue>) {
    forall i, k | 0 <= i < k < |queues| :: queues[i].customer != queues[k].customer
  }

  /** `owner` gives every item's customer. */
  ghost predicate Owned(queues: seq<Queue>, owner: map<string, string>) {
    forall i, j | 0 <= i < |queues| && 0 <= j < |queues[i].items| ::
      queues[i].items[j] in owner && owner[queues[i].items[j]] == queues[i].customer
  }

  ghost predicate Sound(queues: seq<Queue>, owner: map<string, string>) {
    NonEmpty(queues) && Distinct(queues) && DistinctCustomers(queues) && Owned(queues, owner)
  }

  function Of(items: seq<string>, owner: map<string, string>, customer: string): seq<string> {
    if items == [] then []
    else (if items[0] in owner && owner[items[0]] == customer then [items[0]] else []) + Of(items[1..], owner, customer)
  }

  /** What waits for a customer. */
  ghost function Waiting(queues: seq<Queue>, customer: string): seq<string> {
    if queues == [] then []
    else if queues[0].customer == customer then queues[0].items
    else Waiting(queues[1..], customer)
  }

  lemma {:induction false} WaitingAt(queues: seq<Queue>, i: nat)
    requires DistinctCustomers(queues) && i < |queues|
    ensures Waiting(queues, queues[i].customer) == queues[i].items
  {
    if i > 0 {
      WaitingAt(queues[1..], i - 1);
    }
  }

  lemma {:induction false} WaitingNone(queues: seq<Queue>, customer: string)
    requires forall i | 0 <= i < |queues| :: queues[i].customer != customer
    ensures Waiting(queues, customer) == []
  {
    if queues != [] { WaitingNone(queues[1..], customer); }
  }

  /** Serving a queue takes the head of its customer's items, and touches no other customer. */
  lemma ServedWaiting(queues: seq<Queue>, at: nat, owner: map<string, string>, customer: string)
    requires Sound(queues, owner) && at < |queues|
    ensures Sound(Served(queues, at), owner)
    ensures Waiting(queues, customer)
         == (if queues[at].customer == customer then [queues[at].items[0]] else [])
           + Waiting(Served(queues, at), customer)
  {
    var rest := Served(queues, at);
    ServedSound(queues, at, owner);
    hide Distinct, Owned;
    if i: nat :| i < |queues| && queues[i].customer == customer {
      WaitingAt(queues, i);
      if i == at && |queues[at].items| == 1 {
        WaitingNone(rest, customer);
      } else {
        WaitingAt(rest, if |queues[at].items| == 1 && i > at then i - 1 else i);
      }
    } else {
      WaitingNone(queues, customer);
      WaitingNone(rest, customer);
    }
  }

  lemma ServedSound(queues: seq<Queue>, at: nat, owner: map<string, string>)
    requires Sound(queues, owner) && at < |queues|
    ensures Sound(Served(queues, at), owner)
    ensures forall i, j | 0 <= i < |Served(queues, at)| && 0 <= j < |Served(queues, at)[i].items| ::
      Served(queues, at)[i].items[j] != queues[at].items[0]
  {
    var rest, ended := Served(queues, at), |queues[at].items| == 1;
    forall i | 0 <= i < |rest|
      ensures var k := Origin(queues, at, i);
        && 0 <= k < |queues| && rest[i].customer == queues[k].customer
        && rest[i].items == if k == at then queues[k].items[1..] else queues[k].items
    {
    }
    hide Served;
  }

  /** Where a queue that is left stood before. */
  function Origin(queues: seq<Queue>, at: nat, i: int): int
    requires at < |queues|
  {
    if |queues[at].items| == 1 && i >= at then i + 1 else i
  }

  lemma MergeCons(queues: seq<Queue>, index: nat, limit: nat, at: nat, rest: seq<Queue>, next: nat)
    requires NonEmpty(queues) && limit > 0 && queues != [] && at == index % |queues|
    requires rest == Served(queues, at) && next == NextIndex(queues, at, index)
    ensures Merge(queues, index, limit) == [queues[at].items[0]] + Merge(rest, next, limit - 1)
  {
  }

  lemma OfCons(head: string, tail: seq<string>, owner: map<string, string>, customer: string)
    ensures Of([head] + tail, owner, customer)
         == (if head in owner && owner[head] == customer then [head] else []) + Of(tail, owner, customer)
  {
    assert ([head] + tail)[1..] == tail;
  }

  lemma {:induction false} MergeLeaves(queues: seq<Queue>, index: nat, limit: nat, owner: map<string, string>,
      customer: string)
      returns (left: seq<string>)
    requires Sound(queues, owner)
    ensures Waiting(queues, customer) == Of(Merge(queues, index, limit), owner, customer) + left
    decreases limit
  {
    if limit == 0 || queues == [] {
      left := Waiting(queues, customer);
      NoneOf(queues, index, limit, owner, customer);
      hide *;
    } else {
      var first, rest, next := MergeOf(queues, index, limit, owner, customer);
      hide *;
      left := MergeLeaves(rest, next, limit - 1, owner, customer);
      Regroup(first, Of(Merge(rest, next, limit - 1), owner, customer), left);
    }
  }

  lemma Regroup(a: seq<string>, b: seq<string>, c: seq<string>)
    ensures a + (b + c) == (a + b) + c
  {
  }

  lemma NoneOf(queues: seq<Queue>, index: nat, limit: nat, owner: map<string, string>, customer: string)
    requires NonEmpty(queues) && (limit == 0 || queues == [])
    ensures Of(Merge(queues, index, limit), owner, customer) == []
  {
    MergeEnds(queues, index, limit);
  }

  /** From each customer the merge takes a prefix of that customer's own order. */
  lemma MergePrefix(queues: seq<Queue>, index: nat, limit: nat, owner: map<string, string>, customer: string)
    requires Sound(queues, owner)
    ensures Of(Merge(queues, index, limit), owner, customer) <= Waiting(queues, customer)
  {
    var left := MergeLeaves(queues, index, limit, owner, customer);
  }

  lemma MergeOf(queues: seq<Queue>, index: nat, limit: nat, owner: map<string, string>, customer: string)
      returns (first: seq<string>, rest: seq<Queue>, next: nat)
    requires Sound(queues, owner) && limit > 0 && queues != []
    ensures Sound(rest, owner) && NonEmpty(rest)
    ensures var at := index % |queues|; rest == Served(queues, at) && next == NextIndex(queues, at, index)
    ensures Of(Merge(queues, index, limit), owner, customer)
      == first + Of(Merge(rest, next, limit - 1), owner, customer)
    ensures Waiting(queues, customer) == first + Waiting(rest, customer)
  {
    var at := index % |queues|;
    var head := queues[at].items[0];
    first := if queues[at].customer == customer then [head] else [];
    rest, next := Served(queues, at), NextIndex(queues, at, index);
    assert head in owner && owner[head] == queues[at].customer;
    hide Waiting, Distinct, DistinctCustomers, Owned, Of, Merge, Served, NextIndex;
    ServedWaiting(queues, at, owner, customer);
    MergeCons(queues, index, limit, at, rest, next);
    OfCons(head, Merge(rest, next, limit - 1), owner, customer);
  }

  ghost predicate InSome(queues: seq<Queue>, x: string) { exists i :: 0 <= i < |queues| && x in queues[i].items }

  lemma ServedSome(queues: seq<Queue>, at: nat, owner: map<string, string>)
    requires Sound(queues, owner) && at < |queues|
    ensures InSome(queues, queues[at].items[0]) && !InSome(Served(queues, at), queues[at].items[0])
    ensures forall x | InSome(Served(queues, at), x) :: InSome(queues, x)
  {
    var rest := Served(queues, at);
    ServedSound(queues, at, owner);
    forall x | InSome(rest, x) ensures x != queues[at].items[0] && InSome(queues, x) {
      var i :| 0 <= i < |rest| && x in rest[i].items;
      assert x in queues[Origin(queues, at, i)].items;
    }
  }

  /** Nothing is taken twice, and only what waits in some queue. */
  lemma {:induction false} MergeDistinct(queues: seq<Queue>, index: nat, limit: nat, owner: map<string, string>)
    requires Sound(queues, owner)
    ensures var merged := Merge(queues, index, limit);
      && (forall i, k | 0 <= i < k < |merged| :: merged[i] != merged[k])
      && (forall x | x in merged :: InSome(queues, x))
    decreases limit
  {
    if limit > 0 && queues != [] {
      var at := index % |queues|;
      var rest, next, head := Served(queues, at), NextIndex(queues, at, index), queues[at].items[0];
      ServedSound(queues, at, owner);
      ServedSome(queues, at, owner);
      MergeDistinct(rest, next, limit - 1, owner);
      MergeCons(queues, index, limit, at, rest, next);
      hide *;
      var tail := Merge(rest, next, limit - 1);
      assert forall x | x in tail :: x != head;
    }
  }

  // ---------- no customer is left out of the first round ----------

  /** While the limit lasts, every queue from the index on is served once before any is served again. */
  lemma {:induction false} FirstRound(queues: seq<Queue>, index: nat, limit: nat, k: nat)
    requires NonEmpty(queues) && index <= k < |queues| && k - index < limit
    ensures queues[k].items[0] in Merge(queues, index, limit)
    decreases limit
  {
    var rest, next := Served(queues, index), NextIndex(queues, index, index);
    FirstServed(queues, index, limit, rest, next);
    if index < k {
      var later := StillLater(queues, index, k);
      hide *;
      FirstRound(rest, next, limit - 1, later);
    }
  }

  lemma FirstServed(queues: seq<Queue>, index: nat, limit: nat, rest: seq<Queue>, next: nat)
    requires NonEmpty(queues) && index < |queues| && limit > 0
    requires rest == Served(queues, index) && next == NextIndex(queues, index, index)
    ensures queues[index].items[0] in Merge(queues, index, limit)
    ensures forall x | x in Merge(rest, next, limit - 1) :: x in Merge(queues, index, limit)
  {
    assert index % |queues| == index;
    hide *;
    MergeCons(queues, index, limit, index, rest, next);
  }

  /** A queue behind the one that is served stays behind, where the index will come to it. */
  lemma StillLater(queues: seq<Queue>, index: nat, k: nat) returns (later: nat)
    requires NonEmpty(queues) && index < k < |queues|
    ensures var rest, next := Served(queues, index), NextIndex(queues, index, index);
      next <= later < |rest| && rest[later] == queues[k] && later - next == k - index - 1
  {
    later := if |queues[index].items| == 1 then k - 1 else k;
  }

  // ---------- grouping by customer ----------

  /** group.push, with a new group at the end for a customer not seen before. */
  function Append(queues: seq<Queue>, customer: string, x: string): seq<Queue>
  {
    if queues == [] then [Queue(customer, [x])]
    else if queues[0].customer == customer then [Queue(customer, queues[0].items + [x])] + queues[1..]
    else [queues[0]] + Append(queues[1..], customer, x)
  }

  function Grouped(order: seq<string>, owner: map<string, string>): seq<Queue>
    requires forall x | x in order :: x in owner
  {
    if order == [] then []
    else var last := order[|order| - 1]; Append(Grouped(order[..|order| - 1], owner), owner[last], last)
  }

  lemma {:induction false} AppendWaiting(queues: seq<Queue>, customer: string, x: string, c: string)
    requires NonEmpty(queues)
    ensures NonEmpty(Append(queues, customer, x)) && Total(Append(queues, customer, x)) == Total(queues) + 1
    ensures Waiting(Append(queues, customer, x), c) == Waiting(queues, c) + if c == customer then [x] else []
  {
    if queues != [] && queues[0].customer != customer {
      AppendWaiting(queues[1..], customer, x, c);
    }
  }

  /** The queue at each place, after an append, is the one before, or has x added, or is new. */
  lemma {:induction false} AppendAt(queues: seq<Queue>, customer: string, x: string, i: nat)
    requires DistinctCustomers(queues) && i < |Append(queues, customer, x)|
    ensures var q := Append(queues, customer, x)[i];
      if i < |queues|
        then q == (if queues[i].customer == customer then Queue(customer, queues[i].items + [x]) else queues[i])
      else i == |queues| && q == Queue(customer, [x]) && forall k | 0 <= k < |queues| :: queues[k].customer != customer
  {
    if queues != [] && queues[0].customer != customer && i > 0 {
      AppendAt(queues[1..], customer, x, i - 1);
    }
  }

  /** One queue has x at its end, or a new queue holds x alone. */
  ghost predicate Longer(queues: seq<Queue>, more: seq<Queue>, customer: string, x: string) {
    && |queues| <= |more| <= |queues| + 1
    && (forall i | 0 <= i < |queues| ::
          more[i] == if queues[i].customer == customer then Queue(customer, queues[i].items + [x]) else queues[i])
    && (|queues| < |more| ==>
        more[|queues|] == Queue(customer, [x]) && forall k | 0 <= k < |queues| :: queues[k].customer != customer)
    && exists i :: 0 <= i < |more| && x in more[i].items
  }

  lemma AppendLonger(queues: seq<Queue>, customer: string, x: string)
    requires DistinctCustomers(queues)
    ensures Longer(queues, Append(queues, customer, x), customer, x)
  {
    AppendLength(queues, customer, x);
    var more := Append(queues, customer, x);
    forall i: nat | i < |more|
      ensures if i < |queues|
        then more[i] == (if queues[i].customer == customer then Queue(customer, queues[i].items + [x]) else queues[i])
              else i == |queues| && more[i] == Queue(customer, [x]) && forall k | 0 <= k < |queues| ::
                queues[k].customer != customer
    {
      AppendAt(queues, customer, x, i);
    }
    hide Append;
  }

  lemma LongerSome(queues: seq<Queue>, more: seq<Queue>, customer: string, x: string, y: string)
    requires Longer(queues, more, customer, x)
    ensures InSome(more, y) <==> y == x || InSome(queues, y)
  {
    if InSome(queues, y) {
      var i :| 0 <= i < |queues| && y in queues[i].items;
      assert y in more[i].items;
    }
    if InSome(more, y) && y != x {
      var i :| 0 <= i < |more| && y in more[i].items;
      assert i < |queues|;
      assert y in queues[i].items;
    }
  }

  lemma LongerDistinct(queues: seq<Queue>, more: seq<Queue>, customer: string, x: string)
    requires Longer(queues, more, customer, x) && Distinct(queues) && DistinctCustomers(queues) && !InSome(queues, x)
    ensures Distinct(more)
  {
    forall i, j | 0 <= i < |queues| && 0 <= j < |queues[i].items| ensures queues[i].items[j] != x {
      assert queues[i].items[j] in queues[i].items;
    }
    forall i, j | 0 <= i < |more| && 0 <= j < |more[i].items|
      ensures if more[i].customer == customer && j == |more[i].items| - 1 then more[i].items[j] == x
              else i < |queues| && j < |queues[i].items| && more[i].items[j] == queues[i].items[j]
    {
    }
    assert DistinctCustomers(more);
    hide Longer;
  }

  lemma AppendSound(queues: seq<Queue>, owner: map<string, string>, x: string)
    requires Sound(queues, owner) && x in owner && !InSome(queues, x)
    ensures Sound(Append(queues, owner[x], x), owner)
    ensures forall y :: InSome(Append(queues, owner[x], x), y) <==> y == x || InSome(queues, y)
  {
    var more := Append(queues, owner[x], x);
    AppendWaiting(queues, owner[x], x, "");
    AppendLonger(queues, owner[x], x);
    LongerDistinct(queues, more, owner[x], x);
    LongerOwned(queues, more, owner, x);
    hide *;
    forall y ensures InSome(more, y) <==> y == x || InSome(queues, y) { LongerSome(queues, more, owner[x], x, y); }
    assert Sound(more, owner) by { SoundParts(more, owner); }
  }

  lemma SoundParts(queues: seq<Queue>, owner: map<string, string>)
    requires NonEmpty(queues) && Distinct(queues) && DistinctCustomers(queues) && Owned(queues, owner)
    ensures Sound(queues, owner)
  {
  }

  lemma LongerOwned(queues: seq<Queue>, more: seq<Queue>, owner: map<string, string>, x: string)
    requires x in owner && Longer(queues, more, owner[x], x) && DistinctCustomers(queues) && Owned(queues, owner)
    ensures DistinctCustomers(more) && Owned(more, owner)
  {
    forall i, j | 0 <= i < |more| && 0 <= j < |more[i].items|
      ensures more[i].items[j] in owner && owner[more[i].items[j]] == more[i].customer
    {
    }
  }

  lemma {:induction false} AppendLength(queues: seq<Queue>, customer: string, x: string)
    ensures |queues| <= |Append(queues, customer, x)| <= |queues| + 1
    ensures exists i :: 0 <= i < |Append(queues, customer, x)| && x in Append(queues, customer, x)[i].items
  {
    if queues != [] && queues[0].customer != customer {
      AppendLength(queues[1..], customer, x);
      var i :| 0 <= i < |Append(queues[1..], customer, x)| && x in Append(queues[1..], customer, x)[i].items;
      assert x in Append(queues, customer, x)[i + 1].items;
    } else {
      assert x in Append(queues, customer, x)[0].items;
    }
  }

  ghost predicate NoRepeats(order: seq<string>) { forall i, k | 0 <= i < k < |order| :: order[i] != order[k] }

  lemma {:induction false} OfAppend(order: seq<string>, x: string, owner: map<string, string>, c: string)
    ensures Of(order + [x], owner, c) == Of(order, owner, c) + if x in owner && owner[x] == c then [x] else []
  {
    if order == [] {
      assert order + [x] == [x];
    } else {
      assert (order + [x])[1..] == order[1..] + [x];
      OfAppend(order[1..], x, owner, c);
    }
  }

  /** The groups hold every delivery once, each customer's in the given order. */
  lemma {:induction false} GroupedSound(order: seq<string>, owner: map<string, string>, c: string)
    requires NoRepeats(order) && forall x | x in order :: x in owner
    ensures Sound(Grouped(order, owner), owner) && Total(Grouped(order, owner)) == |order|
    ensures Waiting(Grouped(order, owner), c) == Of(order, owner, c)
    ensures forall y :: InSome(Grouped(order, owner), y) <==> y in order
  {
    if order != [] {
      var shorter, last := order[..|order| - 1], order[|order| - 1];
      assert order == shorter + [last];
      GroupedSound(shorter, owner, c);
      OfAppend(shorter, last, owner, c);
      AppendSound(Grouped(shorter, owner), owner, last);
      AppendWaiting(Grouped(shorter, owner), owner[last], last, c);
      hide Sound, Append, Waiting, Of, InSome;
    }
  }

  // ---------- oldest first for each customer ----------

  ghost predicate Sorted(order: seq<string>, since: map<string, int>) {
    (forall x | x in order :: x in since) && forall i, k | 0 <= i < k < |order| :: since[order[i]] <= since[order[k]]
  }

  lemma {:induction false} OfSorted(order: seq<string>, since: map<string, int>, owner: map<string, string>, c: string)
    requires Sorted(order, since)
    ensures Sorted(Of(order, owner, c), since)
    ensures forall x :: x in Of(order, owner, c) <==> x in order && x in owner && owner[x] == c
  {
    if order != [] {
      OfSorted(order[1..], since, owner, c);
      assert order == [order[0]] + order[1..];
      assert forall x | x in order[1..] :: since[order[0]] <= since[x];
    }
  }

  /**
    What issueJobs takes of the waiting deliveries: as many as the limit allows, none twice, and of
    each customer the oldest.
  */
  ghost predicate Chosen(picked: seq<string>, order: seq<string>, limit: nat, since: map<string, int>,
      owner: map<string, string>) {
    && |picked| == Min(limit, |order|) && NoRepeats(picked)
    && (forall x | x in picked :: x in order && x in since && x in owner)
    && forall x, y | x in picked && y in order && y !in picked && y in since && y in owner && owner[x] == owner[y] ::
         since[x] <= since[y]
  }

  /** With a single customer to serve, the oldest are simply the first. */
  lemma PrefixChooses(order: seq<string>, limit: nat, since: map<string, int>, owner: map<string, string>)
    requires NoRepeats(order) && Sorted(order, since) && forall x | x in order :: x in owner
    ensures Chosen(order[..Min(limit, |order|)], order, limit, since, owner)
  {
    var picked := order[..Min(limit, |order|)];
    forall x, y | x in picked && y in order && y !in picked ensures since[x] <= since[y] {
      var i :| 0 <= i < |picked| && picked[i] == x;
      var k :| 0 <= k < |order| && order[k] == y;
      assert forall m | 0 <= m < |picked| :: picked[m] in picked;
    }
  }

  lemma MergeChooses(order: seq<string>, limit: nat, since: map<string, int>, owner: map<string, string>)
    requires NoRepeats(order) && Sorted(order, since) && forall x | x in order :: x in owner
    ensures NonEmpty(Grouped(order, owner))
      && Chosen(Merge(Grouped(order, owner), 0, limit), order, limit, since, owner)
  {
    GroupedSound(order, owner, "");
    var queues := Grouped(order, owner);
    var picked := Merge(queues, 0, limit);
    MergeCount(queues, 0, limit);
    MergeDistinct(queues, 0, limit, owner);
    forall x, y | x in picked && y in order && y !in picked && y in since && y in owner && owner[x] == owner[y]
      ensures since[x] <= since[y]
    {
      OldestTaken(order, limit, since, owner, x, y);
    }
    hide Merge, Sound, Grouped;
  }

  lemma OldestTaken(order: seq<string>, limit: nat, since: map<string, int>, owner: map<string, string>, x: string,
      y: string)
    requires NoRepeats(order) && Sorted(order, since) && forall z | z in order :: z in owner
    requires NonEmpty(Grouped(order, owner))
    requires var picked := Merge(Grouped(order, owner), 0, limit); x in picked && y in order && y !in picked
    requires x in order && owner[x] == owner[y]
    ensures since[x] <= since[y]
  {
    var c := owner[x];
    var picked := Merge(Grouped(order, owner), 0, limit);
    GroupedSound(order, owner, c);
    MergePrefix(Grouped(order, owner), 0, limit, owner, c);
    OfMembers(picked, owner, c);
    OfSorted(order, since, owner, c);
    hide Merge, Grouped, Sound, Of;
    var all, some := Of(order, owner, c), Of(picked, owner, c);
    var i :| 0 <= i < |some| && some[i] == x;
    var k :| 0 <= k < |all| && all[k] == y;
    assert all[i] == x;
    assert forall m | 0 <= m < |some| :: some[m] != y;
  }

  lemma {:induction false} OfMembers(items: seq<string>, owner: map<string, string>, c: string)
    ensures forall x :: x in Of(items, owner, c) <==> x in items && x in owner && owner[x] == c
  {
    if items != [] { OfMembers(items[1..], owner, c); }
  }

  // ---------- the loop ----------

  /** shift, and splice when the group is empty; the index moves on only in the other case. */
  method ServeNext(queues: seq<Queue>, at: nat, index: nat) returns (rest: seq<Queue>, next: nat)
    requires at < |queues| && NonEmpty(queues)
    ensures rest == Served(queues, at) && next == NextIndex(queues, at, index)
  {
    var group := queues[at];
    rest, next := queues[at := group.(items := group.items[1..])], index;
    if rest[at].items == [] {
      rest := rest[..at] + rest[at + 1..];
    } else {
      next := index + 1;
    }
  }

  lemma MergeEnds(queues: seq<Queue>, index: nat, limit: nat)
    requires NonEmpty(queues) && (limit == 0 || queues == [])
    ensures Merge(queues, index, limit) == []
  {
  }

  method MergeQueues(groups: seq<Queue>, limit: nat) returns (candidates: seq<string>)
    requires NonEmpty(groups)
    ensures candidates == Merge(groups, 0, limit)
  {
    hide Merge, Served;
    var queues := groups;
    var index: nat := 0;
    candidates := [];
    while |candidates| < limit && |queues| > 0
      invariant NonEmpty(queues) && |candidates| <= limit
      invariant candidates + Merge(queues, index, limit - |candidates|) == Merge(groups, 0, limit)
      decreases Total(queues)
    {
      var at := index % |queues|;
      ServedTotal(queues, at);
      MergeCons(queues, index, limit - |candidates|, at, Served(queues, at), NextIndex(queues, at, index));
      candidates := candidates + [queues[at].items[0]];
      queues, index := ServeNext(queues, at, index);
    }
    MergeEnds(queues, index, limit - |candidates|);
  }
}
