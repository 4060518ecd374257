/**
  reconcileFleetShards of web/lib/google-ads-script-bridge.ts (323-368): every active account gets one
  shard of its own manager. A shard's account list is sorted at the end and holds no account twice,
  so it is a set here. Sort orders that compare strings by locale are left open.
*/
module ShardReconcile {
  import opened Prelude
  import opened ShardNames

  datatype Account = Account(manager: string, customer: string)

  datatype Shard = Shard(manager: string, accounts: set<string>, lastPollAt: Option<int>, lastAckAt: Option<int>)

  datatype Fleet = Fleet(shards: map<string, Shard>, assignments: map<Account, string>)

  const CAPACITY := 2_000

  function ShardSize(requested: int): (size: nat)
    ensures 1 <= size <= 50
  {
    Max(1, Min(50, if requested == 0 then 40 else requested))
  }

  predicate Usable(shards: map<string, Shard>, s: string, manager: string) {
    s in shards && s != "legacy" && shards[s].manager == manager
  }

  /** The account's present assignment can stay. */
  predicate Keeps(f: Fleet, a: Account) { a in f.assignments && Usable(f.shards, f.assignments[a], a.manager) }

  predicate Open(f: Fleet, s: string, manager: string, size: nat) {
    Usable(f.shards, s, manager) && |f.shards[s].accounts| < size
  }

  predicate LeastFilled(f: Fleet, s: string, manager: string, size: nat) {
    && Open(f, s, manager, size)
    && forall o | o in f.shards && Open(f, o, manager, size) :: |f.shards[s].accounts| <= |f.shards[o].accounts|
  }

  /** nextShardId: the first unused number up to the capacity. */
  function NextShard(shards: map<string, Shard>, manager: string, from: nat): (name: Option<string>)
    ensures name.Some? ==>
      name.value !in shards && exists n :: from <= n <= CAPACITY && name.value == NumberedShard(manager, n)
    ensures name.None? ==> forall n | from <= n <= CAPACITY :: NumberedShard(manager, n) in shards
    decreases CAPACITY + 1 - from
  {
    if from > CAPACITY then None
    else if NumberedShard(manager, from) !in shards then Some(NumberedShard(manager, from))
    else NextShard(shards, manager, from + 1)
  }

  function Join(f: Fleet, s: string, a: Account): Fleet
    requires s in f.shards
  {
    f.(shards := f.shards[s := f.shards[s].(accounts := f.shards[s].accounts + {a.customer})])
  }

  function Assigned(f: Fleet, s: string, a: Account): Fleet
    requires s in f.shards
  {
    Join(f.(assignments := f.assignments[a := s]), s, a)
  }

  function Founded(f: Fleet, s: string, a: Account): Fleet {
    f.(shards := f.shards[s := Shard(a.manager, {a.customer}, None, None)], assignments := f.assignments[a := s])
  }

  ghost predicate AnyOpen(f: Fleet, manager: string, size: nat) {
    exists s :: s in f.shards && Open(f, s, manager, size)
  }

  /** One turn of the loop over the accounts. */
  ghost predicate Placed(f: Fleet, a: Account, size: nat, after: Fleet) {
    if Keeps(f, a) then after == Join(f, f.assignments[a], a)
    else if AnyOpen(f, a.manager, size) then exists s ::
      s in f.shards && LeastFilled(f, s, a.manager, size) && after == Assigned(f, s, a)
    else
      var name := NextShard(f.shards, a.manager, 1);
      name.Some? && after == Founded(f, name.value, a)
  }

  /** Assignments of inactive accounts are dropped, and all lists emptied. */
  function Start(f: Fleet, active: set<Account>): Fleet {
    Fleet(map s | s in f.shards :: f.shards[s].(accounts := {}),
          map a | a in f.assignments && a in active :: f.assignments[a])
  }

  ghost predicate Enumerates(order: seq<Account>, active: set<Account>) {
    (forall a :: a in order <==> a in active) && forall i, k | 0 <= i < k < |order| :: order[i] != order[k]
  }

  /** The states of a reconciliation as far as it has come: some active accounts, in the given order. */
  ghost predicate Trace(f: Fleet, active: set<Account>, order: seq<Account>, size: nat, states: seq<Fleet>) {
    && (forall a | a in order :: a in active) && (forall i, k | 0 <= i < k < |order| :: order[i] != order[k])
    && |states| == |order| + 1 && states[0] == Start(f, active)
    && forall i | 0 <= i < |order| :: Placed(states[i], order[i], size, states[i + 1])
  }

  /** The states of a reconciliation that takes all active accounts in the given order. */
  ghost predicate Reconciles(f: Fleet, active: set<Account>, order: seq<Account>, size: nat, states: seq<Fleet>) {
    Enumerates(order, active) && Trace(f, active, order, size, states)
  }

  // ---------- what a reconciliation guarantees ----------

  /** Accounts of `some` that are assigned to s. */
  function On(f: Fleet, some: set<Account>, s: string): set<string> {
    set a | a in some && a in f.assignments && f.assignments[a] == s :: a.customer
  }

  /** Every account in `some` sits on exactly one shard, of its own manager, and no shard lists anything else. */
  ghost predicate Partitioned(f: Fleet, some: set<Account>) {
    && (forall a | a in some :: a in f.assignments && Usable(f.shards, f.assignments[a], a.manager))
    && (forall s | s in f.shards :: f.shards[s].accounts == On(f, some, s))
  }

  /** Shards are only added, each for an account whose own assignment could not stay. */
  ghost predicate Grown(f: Fleet, some: set<Account>, after: Fleet) {
    && (forall s | s in f.shards ::
          s in after.shards && after.shards[s] == f.shards[s].(accounts := after.shards[s].accounts))
    && (forall s | s in after.shards && s !in f.shards ::
          exists a :: a in some && !Keeps(f, a) && a in after.assignments && after.assignments[a] == s)
  }

  /** What has become of the assignments once the accounts in `some` are placed. */
  ghost predicate Moved(f: Fleet, active: set<Account>, some: set<Account>, after: Fleet) {
    && (forall a | a in after.assignments :: a in active)
    && (forall a | a in active && a !in some ::
          (a in after.assignments <==> a in f.assignments)
            && (a in f.assignments ==> after.assignments[a] == f.assignments[a]))
    && (forall a | a in active && Keeps(f, a) :: a in after.assignments && after.assignments[a] == f.assignments[a])
  }

  ghost predicate Progress(f: Fleet, active: set<Account>, some: set<Account>, after: Fleet) {
    Partitioned(after, some) && Grown(f, some, after) && Moved(f, active, some, after)
  }

  lemma StartProgress(f: Fleet, active: set<Account>)
    ensures Progress(f, active, {}, Start(f, active))
  {
  }

  /** The three outcomes of a turn, as one: the account is assigned to s, which may be new. */
  ghost predicate Turn(f: Fleet, a: Account, after: Fleet, s: string) {
    && s != "legacy" && after.assignments == f.assignments[a := s]
    && s in after.shards && after.shards[s].manager == a.manager
    && (if s in f.shards
        then after.shards == f.shards[s := f.shards[s].(accounts := f.shards[s].accounts + {a.customer})]
        else after.shards == f.shards[s := Shard(a.manager, {a.customer}, None, None)])
    && (Keeps(f, a) ==> s == f.assignments[a])
    && (s !in f.shards ==> !Keeps(f, a))
  }

  lemma TurnOf(f: Fleet, a: Account, size: nat, after: Fleet) returns (s: string)
    requires Placed(f, a, size, after)
    ensures Turn(f, a, after, s)
    ensures !Keeps(f, a) && s in f.shards ==> LeastFilled(f, s, a.manager, size) && |f.shards[s].accounts| < size
    ensures s !in f.shards ==> !AnyOpen(f, a.manager, size) && after.shards[s].accounts == {a.customer}
  {
    if Keeps(f, a) {
      s := f.assignments[a];
      assert f.assignments[a := s] == f.assignments;
    } else if AnyOpen(f, a.manager, size) {
      s :| s in f.shards && LeastFilled(f, s, a.manager, size) && after == Assigned(f, s, a);
    } else {
      s := NextShard(f.shards, a.manager, 1).value;
      NotLegacy(a.manager, s);
    }
  }

  lemma NotLegacy(manager: string, s: string)
    requires exists n: nat :: s == NumberedShard(manager, n)
    ensures s != "legacy"
  {
    var n: nat :| s == NumberedShard(manager, n);
    assert s[0] == 'm';
  }

  lemma TurnProgress(f: Fleet, active: set<Account>, some: set<Account>, mid: Fleet, a: Account, after: Fleet,
      s: string)
    requires Progress(f, active, some, mid) && Turn(mid, a, after, s) && a in active && a !in some
    ensures Progress(f, active, some + {a}, after)
  {
    TurnPartitioned(f, active, some, mid, a, after, s);
    TurnMoved(f, active, some, mid, a, after, s);
    TurnGrown(f, active, some, mid, a, after, s);
    hide Partitioned, Moved, Grown, Turn;
  }

  lemma TurnMoved(f: Fleet, active: set<Account>, some: set<Account>, mid: Fleet, a: Account, after: Fleet, s: string)
    requires Progress(f, active, some, mid) && Turn(mid, a, after, s) && a in active && a !in some
    ensures Moved(f, active, some + {a}, after)
  {
    assert Keeps(f, a) ==> Keeps(mid, a);
    hide Partitioned, Grown, Keeps;
  }

  lemma TurnGrown(f: Fleet, active: set<Account>, some: set<Account>, mid: Fleet, a: Account, after: Fleet, s: string)
    requires Progress(f, active, some, mid) && Turn(mid, a, after, s) && a in active && a !in some
    ensures Grown(f, some + {a}, after)
  {
    assert Keeps(f, a) ==> Keeps(mid, a);
    hide Partitioned, Moved, Keeps;
    forall t | t in after.shards && t !in f.shards
      ensures exists b :: b in some + {a} && !Keeps(f, b) && b in after.assignments && after.assignments[b] == t
    {
      if t in mid.shards {
        var b :| b in some && !Keeps(f, b) && b in mid.assignments && mid.assignments[b] == t;
        assert b in some + {a} && b in after.assignments && after.assignments[b] == t;
      } else {
        assert t == s && a in some + {a};
      }
    }
  }

  lemma TurnPartitioned(f: Fleet, active: set<Account>, some: set<Account>, mid: Fleet, a: Account, after: Fleet,
      s: string)
    requires Partitioned(mid, some) && Turn(mid, a, after, s) && a !in some
    ensures Partitioned(after, some + {a})
  {
    hide Keeps;
    forall t | t in after.shards ensures after.shards[t].accounts == On(after, some + {a}, t) {
      if t == s && s !in mid.shards {
        assert On(after, some, s) == {};
      }
      assert On(after, some, t) == On(mid, some, t);
      assert On(after, some + {a}, t) == On(after, some, t) + if t == s then {a.customer} else {};
    }
  }

  function Done(order: seq<Account>, i: nat): set<Account>
    requires i <= |order|
  {
    set a | a in order[..i]
  }

  lemma DoneNext(order: seq<Account>, i: nat)
    requires i < |order|
    ensures Done(order, i + 1) == Done(order, i) + {order[i]}
  {
  }

  lemma {:induction false} ReconcileProgress(f: Fleet, active: set<Account>, order: seq<Account>, size: nat,
      states: seq<Fleet>, i: nat)
    requires Trace(f, active, order, size, states) && i <= |order|
    ensures Progress(f, active, Done(order, i), states[i])
  {
    hide Progress, Placed;
    if i == 0 {
      StartProgress(f, active);
      assert Done(order, 0) == {};
    } else {
      ReconcileProgress(f, active, order, size, states, i - 1);
      assert Placed(states[i - 1], order[i - 1], size, states[i]);
      var s := TurnOf(states[i - 1], order[i - 1], size, states[i]);
      TurnProgress(f, active, Done(order, i - 1), states[i - 1], order[i - 1], states[i], s);
      DoneNext(order, i - 1);
    }
  }

  /**
    The active accounts are partitioned among the shards of their managers, assignments that could
    stay did, and nothing else is assigned.
  */
  lemma ReconcilePartitions(f: Fleet, active: set<Account>, order: seq<Account>, size: nat, states: seq<Fleet>)
    requires Reconciles(f, active, order, size, states)
    ensures var after := states[|order|];
      && after.assignments.Keys == active && Partitioned(after, active)
      && (forall a | a in active && Keeps(f, a) :: after.assignments[a] == f.assignments[a])
      && Grown(f, active, after)
  {
    hide Partitioned, Grown;
    ReconcileProgress(f, active, order, size, states, |order|);
    assert order[..|order|] == order;
    assert Done(order, |order|) == active;
    assert forall a | a in active :: a in states[|order|].assignments by {
      hide *;
      RevealPartition(states[|order|], active);
    }
  }

  lemma RevealPartition(f: Fleet, some: set<Account>)
    requires Partitioned(f, some)
    ensures forall a | a in some :: a in f.assignments && Keeps(f, a)
  {
  }

  /** Every assignment names a shard that exists. */
  ghost predicate Rooted(f: Fleet) { forall a | a in f.assignments :: f.assignments[a] in f.shards }

  lemma ReconcileRooted(f: Fleet, active: set<Account>, order: seq<Account>, size: nat, states: seq<Fleet>)
    requires Reconciles(f, active, order, size, states)
    ensures Rooted(states[|order|])
  {
    ReconcilePartitions(f, active, order, size, states);
    RevealPartition(states[|order|], active);
    hide Partitioned, Grown, Reconciles;
  }

  /** A second reconciliation of the same campaigns changes nothing, whatever order it takes. */
  lemma ReconcileTwice(f: Fleet, active: set<Account>, order: seq<Account>, size: nat, states: seq<Fleet>,
      again: seq<Account>, later: nat, final: seq<Fleet>)
    requires Reconciles(f, active, order, size, states) && Reconciles(states[|order|], active, again, later, final)
    ensures final[|again|] == states[|order|]
  {
    var once, twice := states[|order|], final[|again|];
    ReconcilePartitions(f, active, order, size, states);
    ReconcilePartitions(once, active, again, later, final);
    RevealPartition(once, active);
    assert twice.assignments == once.assignments;
    forall s | s in once.shards ensures twice.shards[s] == once.shards[s] {
      assert On(twice, active, s) == On(once, active, s);
    }
    assert twice.shards == once.shards;
  }

  // ---------- shard sizes ----------

  /** Active accounts that came in with an assignment to s, whether it could stay or not. */
  function Prior(f: Fleet, some: set<Account>, s: string): set<Account> {
    set a | a in some && a in f.assignments && f.assignments[a] == s
  }

  ghost predicate Bounded(f: Fleet, some: set<Account>, size: nat, after: Fleet) {
    forall s | s in after.shards :: |after.shards[s].accounts| <= size + |Prior(f, some, s)|
  }

  lemma PriorGrows(f: Fleet, some: set<Account>, a: Account, s: string)
    requires a !in some
    ensures |Prior(f, some + {a}, s)|
      == |Prior(f, some, s)| + if a in f.assignments && f.assignments[a] == s then 1 else 0
  {
    assert Prior(f, some + {a}, s)
      == Prior(f, some, s) + if a in f.assignments && f.assignments[a] == s then {a} else {};
  }

  /** An account whose turn comes still has the assignment it came with. */
  lemma TurnComes(f: Fleet, active: set<Account>, order: seq<Account>, size: nat, states: seq<Fleet>, i: nat)
    requires Trace(f, active, order, size, states) && i < |order|
    ensures Placed(states[i], order[i], size, states[i + 1]) && order[i] !in Done(order, i)
    ensures order[i] in states[i].assignments ==>
      order[i] in f.assignments && f.assignments[order[i]] == states[i].assignments[order[i]]
  {
    ReconcileProgress(f, active, order, size, states, i);
    hide Partitioned, Grown, Placed, Keeps;
    assert order[i] in active && order[i] !in Done(order, i);
  }

  lemma TurnKeeps(f: Fleet, mid: Fleet, a: Account, after: Fleet, s: string)
    requires Turn(mid, a, after, s)
    requires a in mid.assignments ==> a in f.assignments && f.assignments[a] == mid.assignments[a]
    ensures Keeps(mid, a) ==> a in f.assignments && f.assignments[a] == s
  {
  }

  lemma TurnBound(f: Fleet, some: set<Account>, size: nat, mid: Fleet, a: Account, after: Fleet, s: string)
    requires Bounded(f, some, size, mid) && Turn(mid, a, after, s) && a !in some && 1 <= size
    requires Keeps(mid, a) ==> a in f.assignments && f.assignments[a] == s
    requires !Keeps(mid, a) && s in mid.shards ==> |mid.shards[s].accounts| < size
    ensures Bounded(f, some + {a}, size, after)
  {
    hide Keeps, Prior;
    forall t | t in after.shards ensures |after.shards[t].accounts| <= size + |Prior(f, some + {a}, t)| {
      PriorGrows(f, some, a, t);
    }
  }

  lemma StartBounded(f: Fleet, active: set<Account>, some: set<Account>, size: nat)
    ensures Bounded(f, some, size, Start(f, active))
  {
  }

  /** A shard holds at most `size` accounts on top of those that were assigned to it before. */
  lemma {:induction false} SizeBound(f: Fleet, active: set<Account>, order: seq<Account>, size: nat, states: seq<Fleet>,
      i: nat)
    requires Trace(f, active, order, size, states) && i <= |order| && 1 <= size
    ensures Bounded(f, Done(order, i), size, states[i])
  {
    assert |states| == |order| + 1 && states[0] == Start(f, active);
    hide *;
    if i == 0 {
      StartBounded(f, active, Done(order, 0), size);
    } else {
      SizeBound(f, active, order, size, states, i - 1);
      BoundTurn(f, active, order, size, states, i - 1);
    }
  }

  lemma BoundTurn(f: Fleet, active: set<Account>, order: seq<Account>, size: nat, states: seq<Fleet>, i: nat)
    requires Trace(f, active, order, size, states) && i < |order| && 1 <= size
    requires Bounded(f, Done(order, i), size, states[i])
    ensures Bounded(f, Done(order, i + 1), size, states[i + 1])
  {
    TurnComes(f, active, order, size, states, i);
    hide *;
    DoneNext(order, i);
    var s := TurnOf(states[i], order[i], size, states[i + 1]);
    TurnKeeps(f, states[i], order[i], states[i + 1], s);
    TurnBound(f, Done(order, i), size, states[i], order[i], states[i + 1], s);
  }

  /** Without prior assignments no shard exceeds the size. */
  lemma FreshSizeBound(f: Fleet, active: set<Account>, order: seq<Account>, size: nat, states: seq<Fleet>)
    requires Trace(f, active, order, size, states) && 1 <= size
    requires forall a | a in active :: a !in f.assignments
    ensures forall s | s in states[|order|].shards :: |states[|order|].shards[s].accounts| <= size
  {
    SizeBound(f, active, order, size, states, |order|);
    forall s ensures Prior(f, Done(order, |order|), s) == {} { }
  }

  /** A kept account joins a shard that is full already. */
  ghost predicate Overfills(f: Fleet, a: Account, size: nat) {
    Keeps(f, a) && size <= |f.shards[f.assignments[a]].accounts|
  }

  /** Shards only fill up; one that is over the size stays over it. */
  lemma {:induction false} ShardsFill(f: Fleet, active: set<Account>, order: seq<Account>, size: nat,
      states: seq<Fleet>, i: nat, k: nat, s: string)
    requires Trace(f, active, order, size, states) && i <= k <= |order| && s in states[i].shards
    ensures s in states[k].shards && |states[i].shards[s].accounts| <= |states[k].shards[s].accounts|
  {
    if i < k {
      ShardsFill(f, active, order, size, states, i, k - 1, s);
      var t := TurnOf(states[k - 1], order[k - 1], size, states[k]);
      hide Trace, Placed;
      if t == s {
        var before := states[k - 1].shards[s].accounts;
        NoLarger(before, before + {order[k - 1].customer});
      }
    }
  }

  lemma {:induction false} NeverOver(f: Fleet, active: set<Account>, order: seq<Account>, size: nat, states: seq<Fleet>,
      i: nat)
    requires Trace(f, active, order, size, states) && 1 <= size && i <= |order|
    requires forall k | 0 <= k < i :: !Overfills(states[k], order[k], size)
    ensures forall s | s in states[i].shards :: |states[i].shards[s].accounts| <= size
  {
    if i > 0 {
      NeverOver(f, active, order, size, states, i - 1);
      var t := TurnOf(states[i - 1], order[i - 1], size, states[i]);
      hide Trace, Placed;
    }
  }

  /** A kept account is not on its shard's list before its turn. */
  lemma KeptIsNew(f: Fleet, active: set<Account>, order: seq<Account>, size: nat, states: seq<Fleet>, k: nat)
    requires Trace(f, active, order, size, states) && k < |order| && Keeps(states[k], order[k])
    ensures order[k].customer !in states[k].shards[states[k].assignments[order[k]]].accounts
  {
    var mid, a := states[k], order[k];
    ReconcileProgress(f, active, order, size, states, k);
    var s := mid.assignments[a];
    forall b | b in Done(order, k) && b in mid.assignments && mid.assignments[b] == s ensures b.customer != a.customer {
      assert b != a;
    }
  }

  /** The size holds for every shard exactly if no kept account had to join a shard that was full already. */
  lemma SizeBoundExactly(f: Fleet, active: set<Account>, order: seq<Account>, size: nat, states: seq<Fleet>)
    requires Trace(f, active, order, size, states) && 1 <= size
    ensures (forall s | s in states[|order|].shards :: |states[|order|].shards[s].accounts| <= size)
      <==> (forall k | 0 <= k < |order| :: !Overfills(states[k], order[k], size))
  {
    if forall k | 0 <= k < |order| :: !Overfills(states[k], order[k], size) {
      NeverOver(f, active, order, size, states, |order|);
    } else {
      var k :| 0 <= k < |order| && Overfills(states[k], order[k], size);
      var s := states[k].assignments[order[k]];
      KeptIsNew(f, active, order, size, states, k);
      var t := TurnOf(states[k], order[k], size, states[k + 1]);
      assert states[k + 1].shards[s].accounts == states[k].shards[s].accounts + {order[k].customer};
      ShardsFill(f, active, order, size, states, k + 1, |order|, s);
    }
  }

  // A new account that comes first in the order takes the place of one that is assigned already.

  const First := Account("0000000001", "0000000001")
  const Second := Account("0000000001", "0000000002")
  const Full := Fleet(map["s" := Shard("0000000001", {"0000000002"}, None, None)], map[Second := "s"])

  lemma SizeBoundFails() returns (states: seq<Fleet>)
    ensures |Full.shards["s"].accounts| == 1
    ensures Reconciles(Full, {First, Second}, [First, Second], 1, states)
    ensures "s" in states[2].shards && |states[2].shards["s"].accounts| == 2
  {
    var start := Start(Full, {First, Second});
    var mid := Assigned(start, "s", First);
    var after := Join(mid, "s", Second);
    FirstJoins();
    SecondJoins();
    states := [start, mid, after];
    assert First.customer != Second.customer;
    assert after.shards["s"].accounts == {First.customer, Second.customer};
    hide Placed, Start, Assigned, Join;
  }

  lemma FirstJoins()
    ensures var start := Start(Full, {First, Second}); Placed(start, First, 1, Assigned(start, "s", First))
  {
    var start := Start(Full, {First, Second});
    assert First.customer != Second.customer;
    assert Open(start, "s", First.manager, 1) && LeastFilled(start, "s", First.manager, 1);
    assert AnyOpen(start, First.manager, 1);
  }

  lemma SecondJoins()
    ensures var mid := Assigned(Start(Full, {First, Second}), "s", First);
      Placed(mid, Second, 1, Join(mid, "s", Second))
  {
    assert First.customer != Second.customer;
    assert Keeps(Assigned(Start(Full, {First, Second}), "s", First), Second);
  }
}
