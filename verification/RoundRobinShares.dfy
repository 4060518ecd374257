/**
  How evenly the merge of web/lib/google-ads-script-bridge.ts (681-689) serves the customers: within
  one delivery of each other until the first queue ends, and after that only for some queues, because
  the index is not adapted when a queue is removed.
*/
module RoundRobinShares {
  import opened RoundRobin
  import Schedule

  /** If customer a has k deliveries picked then every other has at least k - 1, or all its deliveries. */
  ghost predicate EvenShares(queues: seq<Queue>, owner: map<string, string>, picked: seq<string>) {
    forall a, b | 0 <= a < |queues| && 0 <= b < |queues| ::
      || Share(queues, owner, picked, b) + 1 >= Share(queues, owner, picked, a)
      || Share(queues, owner, picked, b) == |queues[b].items|
  }

  function Share(queues: seq<Queue>, owner: map<string, string>, picked: seq<string>, i: nat): nat
    requires i < |queues|
  {
    |Of(picked, owner, queues[i].customer)|
  }

  // ---------- the state of the loop ----------

  datatype Turn = Turn(queues: seq<Queue>, index: nat)

  /** Queues and index after some turns of the loop. */
  function After(queues: seq<Queue>, index: nat, turns: nat): (t: Turn)
    requires NonEmpty(queues)
    ensures NonEmpty(t.queues)
    decreases turns
  {
    if turns == 0 || queues == [] then Turn(queues, index)
    else
      var at := index % |queues|;
      After(Served(queues, at), NextIndex(queues, at, index), turns - 1)
  }

  lemma AfterCons(queues: seq<Queue>, index: nat, turns: nat, at: nat)
    requires NonEmpty(queues) && queues != [] && turns > 0 && at == index % |queues|
    ensures After(queues, index, turns) == After(Served(queues, at), NextIndex(queues, at, index), turns - 1)
  {
  }

  /** The last turn, instead of the first. */
  lemma {:induction false} AfterLast(queues: seq<Queue>, index: nat, turns: nat)
    requires NonEmpty(queues) && turns > 0
    ensures var t := After(queues, index, turns - 1);
      After(queues, index, turns)
      == if t.queues == [] then t
        else var at := t.index % |t.queues|; Turn(Served(t.queues, at), NextIndex(t.queues, at, t.index))
    decreases turns
  {
    if turns > 1 && queues != [] {
      var at := index % |queues|;
      AfterLast(Served(queues, at), NextIndex(queues, at, index), turns - 1);
    }
  }

  lemma MergeSplitNow(queues: seq<Queue>, index: nat, a: nat, b: nat)
    requires NonEmpty(queues) && (a == 0 || queues == [])
    ensures var t := After(queues, index, a);
      Merge(queues, index, a + b) == Merge(queues, index, a) + Merge(t.queues, t.index, b)
  {
    assert Merge(queues, index, a) == [];
    assert After(queues, index, a) == Turn(queues, index);
    assert queues == [] ==> Merge(queues, index, a + b) == [] && Merge(queues, index, b) == [];
  }

  /** The merge goes on from where it is. */
  lemma {:induction false} MergeSplit(queues: seq<Queue>, index: nat, a: nat, b: nat)
    requires NonEmpty(queues)
    ensures var t := After(queues, index, a);
      Merge(queues, index, a + b) == Merge(queues, index, a) + Merge(t.queues, t.index, b)
    decreases a
  {
    if a == 0 || queues == [] {
      MergeSplitNow(queues, index, a, b);
    } else {
      var at := index % |queues|;
      var rest, next := Served(queues, at), NextIndex(queues, at, index);
      hide *;
      MergeSplit(rest, next, a - 1, b);
      MergeCons(queues, index, a + b, at, rest, next);
      MergeCons(queues, index, a, at, rest, next);
      AfterCons(queues, index, a, at);
    }
  }

  lemma {:induction false} OfJoin(a: seq<string>, b: seq<string>, owner: map<string, string>, c: string)
    ensures Of(a + b, owner, c) == Of(a, owner, c) + Of(b, owner, c)
  {
    if a == [] {
      assert a + b == b;
    } else {
      assert a + b == [a[0]] + (a[1..] + b);
      OfCons(a[0], a[1..] + b, owner, c);
      OfJoin(a[1..], b, owner, c);
    }
  }

  /** What a customer has had, and what still waits for it. */
  lemma {:induction false} TakenAndWaiting(queues: seq<Queue>, index: nat, turns: nat, owner: map<string, string>,
      c: string)
    requires Sound(queues, owner)
    ensures Sound(After(queues, index, turns).queues, owner)
    ensures Of(Merge(queues, index, turns), owner, c) + Waiting(After(queues, index, turns).queues, c)
      == Waiting(queues, c)
    decreases turns
  {
    if turns == 0 || queues == [] {
      NoneOf(queues, index, turns, owner, c);
    } else {
      assert NonEmpty(queues);
      AfterCons(queues, index, turns, index % |queues|);
      hide *;
      var first, rest, next := MergeOf(queues, index, turns, owner, c);
      TakenAndWaiting(rest, next, turns - 1, owner, c);
      Regroup(first, Of(Merge(rest, next, turns - 1), owner, c), Waiting(After(rest, next, turns - 1).queues, c));
    }
  }

  /** No customer's share shrinks with the limit. */
  lemma ShareGrows(queues: seq<Queue>, owner: map<string, string>, a: nat, b: nat, i: nat)
    requires NonEmpty(queues) && a <= b && i < |queues|
    ensures Share(queues, owner, Merge(queues, 0, a), i) <= Share(queues, owner, Merge(queues, 0, b), i)
  {
    MergeSplit(queues, 0, a, b - a);
    var t := After(queues, 0, a);
    OfJoin(Merge(queues, 0, a), Merge(t.queues, t.index, b - a), owner, queues[i].customer);
    hide Merge, After, Of;
  }

  lemma ShareBounded(queues: seq<Queue>, owner: map<string, string>, limit: nat, i: nat)
    requires Sound(queues, owner) && i < |queues|
    ensures Share(queues, owner, Merge(queues, 0, limit), i) <= |queues[i].items|
  {
    MergePrefix(queues, 0, limit, owner, queues[i].customer);
    WaitingAt(queues, i);
    hide Merge, Of, Waiting, Distinct, Owned;
  }

  // ---------- full rounds ----------

  /** How often position i comes up in the first turns, while n queues go round. */
  function Rounds(i: nat, turns: nat, n: nat): nat
    requires 0 < n
  {
    if turns == 0 then 0 else Rounds(i, turns - 1, n) + if (turns - 1) % n == i then 1 else 0
  }

  lemma NextTurn(turns: nat, n: nat)
    requires 0 < n
    ensures if turns % n + 1 < n then (turns + 1) / n == turns / n && (turns + 1) % n == turns % n + 1
            else (turns + 1) / n == turns / n + 1 && (turns + 1) % n == 0
  {
    var q, r := turns / n, turns % n;
    assert turns == q * n + r;
    if r + 1 < n { DivMod(turns + 1, q, r + 1, n); } else { DivMod(turns + 1, q + 1, 0, n); }
  }

  lemma DivMod(x: int, q: int, r: int, n: int)
    requires 0 < n && x == q * n + r && 0 <= r < n
    ensures x / n == q && x % n == r
  {
    var d := x / n - q;
    assert d * n == r - x % n;
    Schedule.Multiple(d, n);
  }

  /** Full rounds, and one more for the positions that the current round has passed. */
  lemma {:induction false} RoundsAre(i: nat, turns: nat, n: nat)
    requires i < n
    ensures Rounds(i, turns, n) == turns / n + if i < turns % n then 1 else 0
  {
    if turns > 0 {
      RoundsAre(i, turns - 1, n);
      NextTurn(turns - 1, n);
    } else {
      DivMod(0, 0, 0, n);
    }
  }

  /** p is the first position of a queue of the least length m: the queue that ends first. */
  ghost predicate EndsFirst(queues: seq<Queue>, p: nat, m: nat) {
    && p < |queues| && |queues[p].items| == m && 1 <= m
    && (forall i | 0 <= i < |queues| :: m <= |queues[i].items|)
    && forall i | 0 <= i < p :: m < |queues[i].items|
  }

  /** The turns in which no queue ends. */
  function FullTurns(n: nat, p: nat, m: nat): nat
    requires 1 <= m
  {
    n * (m - 1) + p
  }

  /** A queue that is served in these turns has another item after it. */
  lemma NotLast(queues: seq<Queue>, p: nat, m: nat, turns: nat)
    requires EndsFirst(queues, p, m) && turns < FullTurns(|queues|, p, m)
    ensures var at := turns % |queues|; Rounds(at, turns, |queues|) + 2 <= |queues[at].items|
  {
    var n := |queues|;
    RoundsAre(turns % n, turns, n);
    RoundBefore(turns, n, p, m);
  }

  lemma RoundBefore(turns: nat, n: nat, p: nat, m: nat)
    requires p < n && 1 <= m && turns < n * (m - 1) + p
    ensures turns / n <= m - 1 && (turns / n == m - 1 ==> turns % n < p)
  {
    var q, r := turns / n, turns % n;
    assert turns == q * n + r && n * (m - 1) == (m - 1) * n;
    Schedule.Distributes(q, -(m - 1), n);
    Schedule.Distributes(0, m - 1, n);
    Schedule.Multiple(q - (m - 1), n);
  }

  function Shortened(queues: seq<Queue>, turns: nat): (rest: seq<Queue>)
    requires queues != [] && forall i | 0 <= i < |queues| :: Rounds(i, turns, |queues|) <= |queues[i].items|
    ensures |rest| == |queues|
  {
    seq(|queues|, i requires 0 <= i < |queues| => queues[i].(items := queues[i].items[Rounds(i, turns, |queues|)..]))
  }

  /** Until a queue ends every round is full, and the index counts the turns. */
  lemma {:induction false} FullRounds(queues: seq<Queue>, p: nat, m: nat, turns: nat)
    requires NonEmpty(queues) && EndsFirst(queues, p, m) && turns <= FullTurns(|queues|, p, m)
    ensures forall i | 0 <= i < |queues| :: Rounds(i, turns, |queues|) <= |queues[i].items|
    ensures After(queues, 0, turns) == Turn(Shortened(queues, turns), turns)
  {
    if turns == 0 {
      assert Shortened(queues, 0) == queues;
    } else {
      hide After, EndsFirst, FullTurns, Rounds, Shortened;
      FullRounds(queues, p, m, turns - 1);
      NextRound(queues, p, m, turns);
    }
  }

  lemma NextRound(queues: seq<Queue>, p: nat, m: nat, turns: nat)
    requires NonEmpty(queues) && EndsFirst(queues, p, m) && 0 < turns <= FullTurns(|queues|, p, m)
    requires forall i | 0 <= i < |queues| :: Rounds(i, turns - 1, |queues|) <= |queues[i].items|
    requires After(queues, 0, turns - 1) == Turn(Shortened(queues, turns - 1), turns - 1)
    ensures forall i | 0 <= i < |queues| :: Rounds(i, turns, |queues|) <= |queues[i].items|
    ensures After(queues, 0, turns) == Turn(Shortened(queues, turns), turns)
  {
    assert p < |queues|;
    hide After, EndsFirst, FullTurns, Shortened, Rounds, NonEmpty;
    RoundsNext(turns, |queues|);
    NotLast(queues, p, m, turns - 1);
    AfterLast(queues, 0, turns);
    OneTurn(queues, Shortened(queues, turns - 1), turns, (turns - 1) % |queues|);
  }

  lemma RoundsNext(turns: nat, n: nat)
    requires 0 < turns && 0 < n
    ensures var at := (turns - 1) % n;
      && Rounds(at, turns, n) == Rounds(at, turns - 1, n) + 1
      && forall i | 0 <= i < n && i != at :: Rounds(i, turns, n) == Rounds(i, turns - 1, n)
  {
  }

  lemma OneTurn(queues: seq<Queue>, before: seq<Queue>, turns: nat, at: nat)
    requires turns > 0 && queues != [] && at == (turns - 1) % |queues|
    requires forall i | 0 <= i < |queues| :: Rounds(i, turns - 1, |queues|) <= |queues[i].items|
    requires before == Shortened(queues, turns - 1) && NonEmpty(before)
    requires Rounds(at, turns - 1, |queues|) + 2 <= |queues[at].items|
    requires forall i | 0 <= i < |queues| && i != at :: Rounds(i, turns, |queues|) == Rounds(i, turns - 1, |queues|)
    requires Rounds(at, turns, |queues|) == Rounds(at, turns - 1, |queues|) + 1
    ensures forall i | 0 <= i < |queues| :: Rounds(i, turns, |queues|) <= |queues[i].items|
    ensures Served(before, at) == Shortened(queues, turns) && NextIndex(before, at, turns - 1) == turns
  {
    hide Rounds;
    var after := Shortened(queues, turns);
    assert before[at].items[1..] == after[at].items;
    assert Served(before, at) == after;
  }

  /** So far every share is the number of times the position came up. */
  lemma ShareInRounds(queues: seq<Queue>, owner: map<string, string>, p: nat, m: nat, limit: nat, i: nat)
    requires Sound(queues, owner) && EndsFirst(queues, p, m) && limit <= FullTurns(|queues|, p, m) && i < |queues|
    ensures Share(queues, owner, Merge(queues, 0, limit), i) == limit / |queues| + if i < limit % |queues| then 1 else 0
  {
    FullRounds(queues, p, m, limit);
    TakenAndWaiting(queues, 0, limit, owner, queues[i].customer);
    RoundsAre(i, limit, |queues|);
    var rest := Shortened(queues, limit);
    assert rest[i].customer == queues[i].customer && |rest[i].items| == |queues[i].items| - Rounds(i, limit, |queues|);
    WaitingAt(queues, i);
    WaitingAt(rest, i);
    hide *;
  }

  // ---------- when the merge is even ----------

  /** Before the turn in which the first queue ends. */
  lemma ShareBeforeEnd(queues: seq<Queue>, owner: map<string, string>, p: nat, m: nat, i: nat)
    requires Sound(queues, owner) && EndsFirst(queues, p, m) && i < |queues|
    ensures Share(queues, owner, Merge(queues, 0, FullTurns(|queues|, p, m)), i) == m - 1 + if i < p then 1 else 0
  {
    FullTurnsSplit(|queues|, p, m);
    ShareInRounds(queues, owner, p, m, FullTurns(|queues|, p, m), i);
    hide *;
  }

  lemma LastOfFirst(queues: seq<Queue>, p: nat, m: nat) returns (rest: seq<Queue>)
    requires NonEmpty(queues) && EndsFirst(queues, p, m)
    ensures |rest| == |queues| && NonEmpty(rest) && |rest[p].items| == 1
    ensures forall i | 0 <= i < |rest| :: rest[i].items[0] in queues[i].items
    ensures After(queues, 0, FullTurns(|queues|, p, m)) == Turn(rest, FullTurns(|queues|, p, m))
  {
    var turns := FullTurns(|queues|, p, m);
    FullTurnsSplit(|queues|, p, m);
    FullRounds(queues, p, m, turns);
    RoundsAre(p, turns, |queues|);
    rest := Shortened(queues, turns);
    assert Rounds(p, turns, |queues|) == m - 1;
    hide FullTurns, Rounds, After;
    forall i | 0 <= i < |rest| ensures rest[i].items[0] in queues[i].items {
      assert rest[i].items[0] == queues[i].items[Rounds(i, turns, |queues|)];
    }
  }

  /** The turn in which the first queue ends: it has had everything, and the others are one round behind at most. */
  lemma ShareAtFirstEnd(queues: seq<Queue>, owner: map<string, string>, p: nat, m: nat, i: nat)
    requires Sound(queues, owner) && EndsFirst(queues, p, m) && i < |queues|
    ensures Share(queues, owner, Merge(queues, 0, FullTurns(|queues|, p, m) + 1), i) == m - 1 + if i <= p then 1 else 0
  {
    var turns := FullTurns(|queues|, p, m);
    assert NonEmpty(queues) && p < |queues|;
    hide *;
    FullTurnsSplit(|queues|, p, m);
    ShareBeforeEnd(queues, owner, p, m, i);
    var rest := LastOfFirst(queues, p, m);
    LastPick(queues, owner, rest, turns, p, p, i);
    OneMoreTurn(queues, owner, turns, rest, turns, i);
  }

  lemma OneMoreTurn(queues: seq<Queue>, owner: map<string, string>, turns: nat, rest: seq<Queue>, index: nat, i: nat)
    requires NonEmpty(queues) && i < |queues| && NonEmpty(rest) && After(queues, 0, turns) == Turn(rest, index)
    ensures Share(queues, owner, Merge(queues, 0, turns + 1), i)
         == Share(queues, owner, Merge(queues, 0, turns), i) + |Of(Merge(rest, index, 1), owner, queues[i].customer)|
  {
    MergeSplit(queues, 0, turns, 1);
    OfJoin(Merge(queues, 0, turns), Merge(rest, index, 1), owner, queues[i].customer);
    hide Merge, After, Of;
  }

  lemma FullTurnsSplit(n: nat, p: nat, m: nat)
    requires p < n && 1 <= m
    ensures FullTurns(n, p, m) / n == m - 1 && FullTurns(n, p, m) % n == p
  {
    assert n * (m - 1) == (m - 1) * n;
    DivMod(FullTurns(n, p, m), m - 1, p, n);
  }

  /** The customer of queue k is served if an item of queue k stands first where the index points. */
  lemma LastPick(queues: seq<Queue>, owner: map<string, string>, rest: seq<Queue>, index: nat, at: nat, k: nat, i: nat)
    requires Sound(queues, owner) && NonEmpty(rest) && rest != [] && index % |rest| == at && i < |queues|
    requires k < |queues| && rest[at].items[0] in queues[k].items
    ensures |Of(Merge(rest, index, 1), owner, queues[i].customer)| == if i == k then 1 else 0
  {
    var head := rest[at].items[0];
    MergeCons(rest, index, 1, at, Served(rest, at), NextIndex(rest, at, index));
    MergeEnds(Served(rest, at), NextIndex(rest, at, index), 0);
    assert Merge(rest, index, 1) == [head];
    var j :| 0 <= j < |queues[k].items| && queues[k].items[j] == head;
    assert owner[head] == queues[k].customer;
    OfCons(head, [], owner, queues[i].customer);
    assert [head] + [] == [head];
  }

  /**
    Until the first queue has ended the merge is even: for every limit up to the turn in which the first
    of the shortest queues is served for the last time.
  */
  lemma EvenUntilFirstEnds(queues: seq<Queue>, owner: map<string, string>, p: nat, m: nat, limit: nat)
    requires Sound(queues, owner) && EndsFirst(queues, p, m) && limit <= FullTurns(|queues|, p, m) + 1
    ensures EvenShares(queues, owner, Merge(queues, 0, limit))
  {
    forall i | 0 <= i < |queues|
      ensures limit <= FullTurns(|queues|, p, m) ==>
        limit / |queues| <= Share(queues, owner, Merge(queues, 0, limit), i) <= limit / |queues| + 1
      ensures limit > FullTurns(|queues|, p, m) ==> m - 1 <= Share(queues, owner, Merge(queues, 0, limit), i) <= m
    {
      if limit <= FullTurns(|queues|, p, m) {
        ShareInRounds(queues, owner, p, m, limit, i);
      } else {
        ShareAtFirstEnd(queues, owner, p, m, i);
      }
    }
    hide FullTurns, Share, Merge, Sound;
  }

  /** With queues of one length it is even at every limit. */
  lemma EvenForEqualLengths(queues: seq<Queue>, owner: map<string, string>, m: nat, limit: nat)
    requires Sound(queues, owner) && forall i | 0 <= i < |queues| :: |queues[i].items| == m
    ensures EvenShares(queues, owner, Merge(queues, 0, limit))
  {
    if queues != [] {
      assert EndsFirst(queues, 0, m) by { assert queues[0].items != []; }
      if limit <= FullTurns(|queues|, 0, m) {
        EvenUntilFirstEnds(queues, owner, 0, m, limit);
      } else {
        forall i | 0 <= i < |queues| ensures m - 1 <= Share(queues, owner, Merge(queues, 0, limit), i) <= m {
          ShareBeforeEnd(queues, owner, 0, m, i);
          ShareGrows(queues, owner, FullTurns(|queues|, 0, m), limit, i);
          ShareBounded(queues, owner, limit, i);
        }
        hide FullTurns, Share, Merge, Sound;
      }
    }
  }

  /** So it is for two queues: when one has ended only the other is left. */
  lemma EvenForTwoQueues(queues: seq<Queue>, owner: map<string, string>, limit: nat)
    requires Sound(queues, owner) && |queues| == 2
    ensures EvenShares(queues, owner, Merge(queues, 0, limit))
  {
    var p := if |queues[0].items| <= |queues[1].items| then 0 else 1;
    var m := |queues[p].items|;
    assert EndsFirst(queues, p, m) by { assert queues[0].items != [] && queues[1].items != []; }
    if limit <= FullTurns(2, p, m) + 1 {
      EvenUntilFirstEnds(queues, owner, p, m, limit);
    } else {
      forall i | 0 <= i < 2
        ensures m - 1 <= Share(queues, owner, Merge(queues, 0, limit), i)
        ensures Share(queues, owner, Merge(queues, 0, limit), p) == m
      {
        ShareAtFirstEnd(queues, owner, p, m, i);
        ShareAtFirstEnd(queues, owner, p, m, p);
        ShareGrows(queues, owner, FullTurns(2, p, m) + 1, limit, i);
        ShareGrows(queues, owner, FullTurns(2, p, m) + 1, limit, p);
        ShareBounded(queues, owner, limit, p);
      }
      hide FullTurns, Share, Merge, Sound, EndsFirst;
    }
  }

  // ---------- and when it is not ----------

  /** The index counts turns for all queues; modulo one queue less it points further by the rounds that went. */
  lemma SpliceShift(index: nat, n: nat)
    requires 2 <= n
    ensures index % (n - 1) == (index % n + index / n) % (n - 1)
  {
    var q, r := index / n, index % n;
    assert index == q * (n - 1) + (r + q);
    var t, u := (r + q) / (n - 1), (r + q) % (n - 1);
    assert r + q == t * (n - 1) + u;
    assert q * (n - 1) + t * (n - 1) == (q + t) * (n - 1);
    DivMod(index, q + t, u, n - 1);
  }

  /**
    What goes wrong: when a queue ends in round q its turn does not pass to the queue behind it, but q
    queues further on - it skips q modulo n - 1 queues of those that are left.
  */
  lemma SpliceSkips(queues: seq<Queue>, index: nat, limit: nat)
    requires NonEmpty(queues) && 2 <= |queues| && 2 <= limit && |queues[index % |queues|].items| == 1
    ensures var n, at := |queues|, index % |queues|;
      var rest := queues[..at] + queues[at + 1..];
      && |rest| == n - 1
      && |Merge(queues, index, limit)| >= 2
      && Merge(queues, index, limit)[0] == queues[at].items[0]
      && Merge(queues, index, limit)[1] == rest[(at + index / n) % (n - 1)].items[0]
  {
    var n, at := |queues|, index % |queues|;
    var rest := queues[..at] + queues[at + 1..];
    SpliceShift(index, n);
    assert Served(queues, at) == rest && NextIndex(queues, at, index) == index;
    hide Served, NextIndex, Merge;
    MergeCons(queues, index, limit, at, rest, index);
    MergeStarts(rest, index, limit - 1);
  }

  lemma MergeStarts(queues: seq<Queue>, index: nat, limit: nat)
    requires NonEmpty(queues) && queues != [] && limit > 0
    ensures Merge(queues, index, limit) != [] && Merge(queues, index, limit)[0] == queues[index % |queues|].items[0]
  {
    var at := index % |queues|;
    MergeCons(queues, index, limit, at, Served(queues, at), NextIndex(queues, at, index));
  }

  /** The queue that is served in the turn after the first one has ended, if there are others. */
  function Follower(n: nat, p: nat, m: nat): nat
    requires 2 <= n && 1 <= m
  {
    var j := (p + m - 1) % (n - 1);
    if j < p then j else j + 1
  }

  lemma AfterFirstEnd(queues: seq<Queue>, p: nat, m: nat) returns (rest: seq<Queue>, at: nat)
    requires NonEmpty(queues) && EndsFirst(queues, p, m) && 2 <= |queues|
    ensures var n, turns := |queues|, FullTurns(|queues|, p, m);
      && After(queues, 0, turns + 1) == Turn(rest, turns) && NonEmpty(rest) && rest != [] && turns % |rest| == at
      && Follower(n, p, m) < n && rest[at].items[0] in queues[Follower(n, p, m)].items
  {
    var n, turns := |queues|, FullTurns(|queues|, p, m);
    assert p < n && 1 <= m;
    hide FullTurns, After, EndsFirst, NonEmpty;
    FullTurnsSplit(n, p, m);
    var before := LastOfFirst(queues, p, m);
    AfterLast(queues, 0, turns + 1);
    SpliceShift(turns, n);
    rest, at := before[..p] + before[p + 1..], turns % (n - 1);
    FollowerAt(before, p, m, at);
    hide Follower;
  }

  /** Without queue p, the queue at the index is the follower. */
  lemma FollowerAt(before: seq<Queue>, p: nat, m: nat, at: nat)
    requires 2 <= |before| && p < |before| && 1 <= m && at == (p + m - 1) % (|before| - 1)
    ensures at < |before| - 1 && Follower(|before|, p, m) < |before|
    ensures (before[..p] + before[p + 1..])[at] == before[Follower(|before|, p, m)]
  {
  }

  lemma NextPick(queues: seq<Queue>, owner: map<string, string>, p: nat, m: nat, i: nat) returns (rest: seq<Queue>)
    requires Sound(queues, owner) && EndsFirst(queues, p, m) && 2 <= |queues| && i < |queues|
    ensures var turns := FullTurns(|queues|, p, m);
      && After(queues, 0, turns + 1) == Turn(rest, turns) && NonEmpty(rest)
      && |Of(Merge(rest, turns, 1), owner, queues[i].customer)| == if i == Follower(|queues|, p, m) then 1 else 0
  {
    assert NonEmpty(queues);
    hide Sound, EndsFirst, FullTurns, Follower, After, Merge, Of;
    var at;
    rest, at := AfterFirstEnd(queues, p, m);
    LastPick(queues, owner, rest, FullTurns(|queues|, p, m), at, Follower(|queues|, p, m), i);
  }

  lemma ShareAfterEnd(queues: seq<Queue>, owner: map<string, string>, p: nat, m: nat, i: nat)
    requires Sound(queues, owner) && EndsFirst(queues, p, m) && 2 <= |queues| && i < |queues|
    ensures Share(queues, owner, Merge(queues, 0, FullTurns(|queues|, p, m) + 2), i)
         == m - 1 + (if i <= p then 1 else 0) + if i == Follower(|queues|, p, m) then 1 else 0
  {
    assert NonEmpty(queues);
    hide *;
    ShareAtFirstEnd(queues, owner, p, m, i);
    var rest := NextPick(queues, owner, p, m, i);
    OneMoreTurn(queues, owner, FullTurns(|queues|, p, m) + 1, rest, FullTurns(|queues|, p, m), i);
  }

  lemma FollowerBefore(n: nat, p: nat, m: nat)
    requires 2 <= n && 1 <= m && p < n
    ensures var k := Follower(n, p, m); k < n && k != p && (k < p <==> (p + m - 1) % (n - 1) < p)
  {
  }

  lemma EvenAmong(queues: seq<Queue>, owner: map<string, string>, picked: seq<string>, p: nat, m: nat, k: nat)
    requires 1 <= m && p < |queues| && k < |queues| && k != p && forall i | 0 <= i < |queues| :: m <= |queues[i].items|
    requires forall i | 0 <= i < |queues| ::
      Share(queues, owner, picked, i) == m - 1 + (if i <= p then 1 else 0) + if i == k then 1 else 0
    ensures EvenShares(queues, owner, picked) <==> !(p + 1 < |queues| && k < p)
  {
    hide Share;
    if p + 1 < |queues| && k < p {
      assert Share(queues, owner, picked, k) == m + 1 && Share(queues, owner, picked, |queues| - 1) == m - 1;
    }
  }

  lemma EvenByFollower(queues: seq<Queue>, owner: map<string, string>, p: nat, m: nat)
    requires Sound(queues, owner) && EndsFirst(queues, p, m) && 2 <= |queues|
    ensures EvenShares(queues, owner, Merge(queues, 0, FullTurns(|queues|, p, m) + 2))
      <==> !(p + 1 < |queues| && Follower(|queues|, p, m) < p)
  {
    assert p < |queues| && 1 <= m && forall i | 0 <= i < |queues| :: m <= |queues[i].items|;
    hide *;
    var picked := Merge(queues, 0, FullTurns(|queues|, p, m) + 2);
    forall i | 0 <= i < |queues|
      ensures Share(queues, owner, picked, i)
        == m - 1 + (if i <= p then 1 else 0) + if i == Follower(|queues|, p, m) then 1 else 0
    {
      ShareAfterEnd(queues, owner, p, m, i);
    }
    FollowerBefore(|queues|, p, m);
    EvenAmong(queues, owner, picked, p, m, Follower(|queues|, p, m));
  }

  lemma OneQueueEven(queues: seq<Queue>, owner: map<string, string>, picked: seq<string>)
    requires |queues| <= 1
    ensures EvenShares(queues, owner, picked)
  {
  }

  /**
    One turn after the first queue has ended the merge is still even, exactly unless another queue waits
    behind it and the index has come back to one before it.
  */
  lemma EvenAfterFirstEnd(queues: seq<Queue>, owner: map<string, string>, p: nat, m: nat)
    requires Sound(queues, owner) && EndsFirst(queues, p, m)
    ensures EvenShares(queues, owner, Merge(queues, 0, FullTurns(|queues|, p, m) + 2))
      <==> !(p + 1 < |queues| && (p + m - 1) % (|queues| - 1) < p)
  {
    assert p < |queues| && 1 <= m && NonEmpty(queues);
    hide *;
    if 2 <= |queues| {
      EvenByFollower(queues, owner, p, m);
      FollowerBefore(|queues|, p, m);
    } else {
      OneQueueEven(queues, owner, Merge(queues, 0, FullTurns(|queues|, p, m) + 2));
    }
  }

  // The bound is sharp: even at 5, not at 6, where one customer has three and another, who waits, one.

  function Lopsided(): seq<Queue> {
    [Queue("A", ["a1", "a2", "a3"]), Queue("B", ["b1", "b2"]), Queue("C", ["c1", "c2"])]
  }

  const LopsidedOwner := map["a1" := "A", "a2" := "A", "a3" := "A", "b1" := "B", "b2" := "B", "c1" := "C", "c2" := "C"]

  lemma LopsidedMerge()
    ensures NonEmpty(Lopsided()) && Merge(Lopsided(), 0, 6) == ["a1", "b1", "c1", "a2", "b2", "a3"]
  {
    hide Merge;
    var a, b, c := Queue("A", ["a2", "a3"]), Queue("B", ["b2"]), Queue("C", ["c2"]);
    var q1 := [a, Queue("B", ["b1", "b2"]), Queue("C", ["c1", "c2"])];
    var q2 := [a, b, Queue("C", ["c1", "c2"])];
    var last := Queue("A", ["a3"]);
    MergeCons(Lopsided(), 0, 6, 0, q1, 1);
    MergeCons(q1, 1, 5, 1, q2, 2);
    MergeCons(q2, 2, 4, 2, [a, b, c], 3);
    MergeCons([a, b, c], 3, 3, 0, [last, b, c], 4);
    MergeCons([last, b, c], 4, 2, 1, [last, c], 4);
    MergeCons([last, c], 4, 1, 0, [c], 4);
    MergeEnds([c], 4, 0);
  }

  lemma LopsidedShares(picked: seq<string>)
    requires picked == ["a1", "b1", "c1", "a2", "b2", "a3"]
    ensures Of(picked, LopsidedOwner, "A") == ["a1", "a2", "a3"] && Of(picked, LopsidedOwner, "C") == ["c1"]
  {
    LopsidedOf(picked, "A");
    LopsidedOf(picked, "C");
  }

  lemma LopsidedOf(picked: seq<string>, c: string)
    requires picked == ["a1", "b1", "c1", "a2", "b2", "a3"]
    ensures Of(picked, LopsidedOwner, c)
         == (if c == "A" then ["a1"] else []) + (if c == "B" then ["b1"] else []) + (if c == "C" then ["c1"] else [])
            + (if c == "A" then ["a2"] else []) + (if c == "B" then ["b2"] else []) + (if c == "A" then ["a3"] else [])
  {
    hide Of;
    assert Of([], LopsidedOwner, c) == [] by { OfMembers([], LopsidedOwner, c); NothingOf(LopsidedOwner, c); }
    OfCons("a3", [], LopsidedOwner, c);
    OfCons("b2", ["a3"], LopsidedOwner, c);
    OfCons("a2", ["b2", "a3"], LopsidedOwner, c);
    OfCons("c1", ["a2", "b2", "a3"], LopsidedOwner, c);
    OfCons("b1", ["c1", "a2", "b2", "a3"], LopsidedOwner, c);
    OfCons("a1", ["b1", "c1", "a2", "b2", "a3"], LopsidedOwner, c);
    assert picked == ["a1"] + ["b1", "c1", "a2", "b2", "a3"];
    assert ["b1", "c1", "a2", "b2", "a3"] == ["b1"] + ["c1", "a2", "b2", "a3"];
    assert ["c1", "a2", "b2", "a3"] == ["c1"] + ["a2", "b2", "a3"];
    assert ["a2", "b2", "a3"] == ["a2"] + ["b2", "a3"];
    assert ["b2", "a3"] == ["b2"] + ["a3"];
    assert ["a3"] == ["a3"] + [];
  }

  lemma NothingOf(owner: map<string, string>, c: string)
    ensures Of([], owner, c) == []
  {
  }

  lemma LopsidedEnds()
    ensures NonEmpty(Lopsided()) && EndsFirst(Lopsided(), 1, 2) && FullTurns(3, 1, 2) + 1 == 5
  {
  }

  lemma LaterRoundsUnfair()
    ensures NonEmpty(Lopsided()) && EndsFirst(Lopsided(), 1, 2) && FullTurns(3, 1, 2) + 1 == 5
    ensures Share(Lopsided(), LopsidedOwner, Merge(Lopsided(), 0, 6), 0) == 3
    ensures Share(Lopsided(), LopsidedOwner, Merge(Lopsided(), 0, 6), 2) == 1 < |Lopsided()[2].items|
    ensures !EvenShares(Lopsided(), LopsidedOwner, Merge(Lopsided(), 0, 6))
  {
    LopsidedMerge();
    LopsidedShares(Merge(Lopsided(), 0, 6));
    LopsidedEnds();
    hide Merge, Of, NonEmpty, EndsFirst, FullTurns;
    assert Lopsided()[0].customer == "A" && Lopsided()[2].customer == "C";
  }
}
