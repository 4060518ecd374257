/**
  When a reconciliation keeps every shard within its size (lines 343-368 of
  web/lib/google-ads-script-bridge.ts). Accounts that keep their shard are not counted against the size,
  so whether it holds depends on how many of them a shard has and how many other accounts may come first.
*/
module ShardSizes {
  import opened Prelude
  import opened ShardNames
  import opened ShardReconcile

  /** The active accounts that stay on s. */
  function Kept(f: Fleet, active: set<Account>, s: string): set<Account> {
    set a | a in active && Keeps(f, a) && f.assignments[a] == s
  }

  /** The active accounts of the manager that get a new shard. */
  function New(f: Fleet, active: set<Account>, manager: string): set<Account> {
    set a | a in active && a.manager == manager && !Keeps(f, a)
  }

  /** The places below a level on shards that hold so many accounts already. */
  function Places(held: map<string, nat>, level: int): set<(string, int)> {
    set t, k | t in held && held[t] <= k < level :: (t, k)
  }

  /** The other shards of the manager of s. */
  predicate Beside(f: Fleet, s: string, t: string)
    requires s in f.shards
  {
    t != s && Usable(f.shards, t, f.shards[s].manager)
  }

  /**
    How many new accounts it takes to overfill s: those that fill it up and one more, and before that last
    one all other shards of the manager must have as many accounts as s has new ones. It is 0 or less if s
    keeps more accounts than the size alone.
  */
  function Need(f: Fleet, active: set<Account>, s: string, size: nat): int
    requires s in f.shards
  {
    size + 1 - |Kept(f, active, s)|
    + |Places(map t | t in f.shards && Beside(f, s, t) :: |Kept(f, active, t)|, size - |Kept(f, active, s)|)|
  }

  /** No manager has enough new accounts to overfill a shard that keeps some. */
  ghost predicate Roomy(f: Fleet, active: set<Account>, size: nat) {
    forall s | s in f.shards && Kept(f, active, s) != {} ::
      |New(f, active, f.shards[s].manager)| < Need(f, active, s, size)
  }

  ghost predicate Within(f: Fleet, size: nat) { forall s | s in f.shards :: |f.shards[s].accounts| <= size }

  // ---------- who is on a shard, or will stay there ----------

  function Here(f: Fleet, active: set<Account>, done: set<Account>, g: Fleet, t: string): set<Account> {
    set a | a in active && (Keeps(f, a) || a in done) && a in g.assignments && g.assignments[a] == t
  }

  function HeldBeside(f: Fleet, active: set<Account>, done: set<Account>, g: Fleet, s: string): map<string, nat>
    requires s in f.shards
  {
    map t | t in f.shards && Beside(f, s, t) :: |Here(f, active, done, g, t)|
  }

  /** How many more new accounts it takes. */
  function Left(f: Fleet, active: set<Account>, done: set<Account>, g: Fleet, s: string, size: nat): int
    requires s in f.shards
  {
    size + 1 - |Here(f, active, done, g, s)| + |Places(HeldBeside(f, active, done, g, s), size - |Kept(f, active, s)|)|
  }

  lemma HereStart(f: Fleet, active: set<Account>, t: string)
    ensures Here(f, active, {}, Start(f, active), t) == Kept(f, active, t)
  {
  }

  lemma LeftStart(f: Fleet, active: set<Account>, s: string, size: nat)
    requires s in f.shards
    ensures Left(f, active, {}, Start(f, active), s, size) == Need(f, active, s, size)
  {
    forall t { HereStart(f, active, t); }
    hide Here, Kept, Usable, Start;
    assert HeldBeside(f, active, {}, Start(f, active), s) == map t | t in f.shards && Beside(f, s, t) ::
      |Kept(f, active, t)|;
  }

  lemma CustomersCount(some: set<Account>, manager: string)
    requires forall a | a in some :: a.manager == manager
    ensures |set a | a in some :: a.customer| == |some|
  {
    if some != {} {
      var a :| a in some;
      CustomersCount(some - {a}, manager);
      assert (set b | b in some :: b.customer) == (set b | b in some - {a} :: b.customer) + {a.customer};
    }
  }

  /** The accounts of `done` that are on t. */
  function Sits(g: Fleet, done: set<Account>, t: string): set<Account> {
    set a | a in done && a in g.assignments && g.assignments[a] == t
  }

  lemma Level(g: Fleet, done: set<Account>, t: string)
    requires Partitioned(g, done) && t in g.shards
    ensures |g.shards[t].accounts| == |Sits(g, done, t)|
  {
    CustomersCount(Sits(g, done, t), g.shards[t].manager);
    assert On(g, done, t) == set a | a in Sits(g, done, t) :: a.customer;
  }

  lemma LevelAtMostHere(f: Fleet, active: set<Account>, done: set<Account>, g: Fleet, t: string)
    requires Partitioned(g, done) && done <= active && t in g.shards
    ensures |g.shards[t].accounts| <= |Here(f, active, done, g, t)|
  {
    Level(g, done, t);
    NoLarger(Sits(g, done, t), Here(f, active, done, g, t));
  }

  // ---------- one turn ----------

  /** An account is kept when its turn comes exactly if it could keep its shard from the start. */
  lemma StaysKept(f: Fleet, active: set<Account>, done: set<Account>, g: Fleet, a: Account)
    requires Progress(f, active, done, g) && Rooted(f) && a in active && a !in done
    ensures Keeps(g, a) <==> Keeps(f, a)
    ensures Keeps(f, a) ==> g.assignments[a] == f.assignments[a]
  {
    hide Partitioned;
  }

  lemma HereJoins(f: Fleet, active: set<Account>, done: set<Account>, g: Fleet, a: Account, after: Fleet, u: string,
      t: string)
    requires a in active && a !in done && after.assignments == g.assignments[a := u]
    requires Keeps(f, a) ==> a in g.assignments && g.assignments[a] == u
    ensures |Here(f, active, done + {a}, after, t)|
      == |Here(f, active, done, g, t)| + if !Keeps(f, a) && u == t then 1 else 0
  {
    hide Keeps;
    assert Here(f, active, done + {a}, after, t)
      == Here(f, active, done, g, t) + if !Keeps(f, a) && u == t then {a} else {};
  }

  lemma HereNext(f: Fleet, active: set<Account>, done: set<Account>, g: Fleet, a: Account, after: Fleet, u: string,
      t: string)
    requires Progress(f, active, done, g) && Rooted(f) && a in active && a !in done && Turn(g, a, after, u)
    ensures |Here(f, active, done + {a}, after, t)|
      == |Here(f, active, done, g, t)| + if !Keeps(f, a) && u == t then 1 else 0
  {
    hide Progress, Here, Rooted, Usable;
    StaysKept(f, active, done, g, a);
    HereJoins(f, active, done, g, a, after, u, t);
  }

  lemma PlaceTaken(held: map<string, nat>, t: string, level: int)
    requires t in held
    ensures |Places(held[t := held[t] + 1], level)| == |Places(held, level)| - if held[t] < level then 1 else 0
  {
    var less := Places(held[t := held[t] + 1], level);
    assert Places(held, level) == less + if held[t] < level then {(t, held[t] as int)} else {};
  }

  lemma NoPlaces(held: map<string, nat>, level: int)
    requires forall t | t in held :: level <= held[t]
    ensures Places(held, level) == {}
  {
  }

  lemma HeldNext(f: Fleet, active: set<Account>, done: set<Account>, g: Fleet, next: set<Account>, after: Fleet,
      s: string, u: string, more: nat)
    requires s in f.shards
    requires forall t :: |Here(f, active, next, after, t)| == |Here(f, active, done, g, t)| + if u == t then more else 0
    ensures var (held, later) := (HeldBeside(f, active, done, g, s), HeldBeside(f, active, next, after, s));
      later == if u in held then held[u := held[u] + more] else held
  {
    hide Here, Usable;
  }

  lemma LeftMoves(f: Fleet, active: set<Account>, done: set<Account>, g: Fleet, next: set<Account>, after: Fleet,
      s: string, u: string, more: nat, size: nat)
    requires s in f.shards && more <= 1
    requires forall t :: |Here(f, active, next, after, t)| == |Here(f, active, done, g, t)| + if u == t then more else 0
    ensures Left(f, active, next, after, s, size) == Left(f, active, done, g, s, size) -
      if u == s then more
      else if u in f.shards && Beside(f, s, u) && |Here(f, active, done, g, u)| < size - |Kept(f, active, s)| then more
        else 0
  {
    hide Here, Kept, Places, Usable;
    var held := HeldBeside(f, active, done, g, s);
    assert u in held <==> u in f.shards && Beside(f, s, u);
    assert u in held ==> held[u] == |Here(f, active, done, g, u)|;
    hide Beside;
    HeldNext(f, active, done, g, next, after, s, u, more);
    hide HeldBeside;
    if u in held {
      PlaceTaken(held, u, size - |Kept(f, active, s)|);
      assert held[u := held[u]] == held;
    }
  }

  /** A new account of the manager takes at most one of the places left; other accounts take none. */
  lemma LeftNext(f: Fleet, active: set<Account>, done: set<Account>, g: Fleet, a: Account, after: Fleet, u: string,
      s: string, size: nat)
    requires Progress(f, active, done, g) && Rooted(f) && a in active && a !in done && Turn(g, a, after, u)
      && s in f.shards
    ensures var (before, later) := (Left(f, active, done, g, s, size), Left(f, active, done + {a}, after, s, size));
      && (Keeps(f, a) || a.manager != f.shards[s].manager ==> later == before)
      && (before - 1 <= later)
      && (!Keeps(f, a) && u == s ==> later == before - 1)
      && (!Keeps(f, a) && u in f.shards && Beside(f, s, u)
          && |Here(f, active, done, g, u)| < size - |Kept(f, active, s)|
          ==> later == before - 1)
  {
    assert u in f.shards ==> f.shards[u].manager == a.manager by { hide Partitioned, Moved, Keeps; }
    var more := if Keeps(f, a) then 0 else 1;
    hide Progress, Turn, Rooted, Keeps, Here, Kept, Places, HeldBeside, Left;
    forall t
      ensures |Here(f, active, done + {a}, after, t)| == |Here(f, active, done, g, t)| + if u == t then more else 0
    {
      HereNext(f, active, done, g, a, after, u, t);
    }
    LeftMoves(f, active, done, g, done + {a}, after, s, u, more, size);
  }

  // ---------- enough room means no shard is overfilled ----------

  lemma CountUnion<T>(a: set<T>, b: set<T>, c: set<T>)
    requires a <= b + c
    ensures |a| <= |b| + |c|
  {
    NoLarger(a, b + c);
    assert b + c == b + (c - b);
    NoLarger(c - b, c);
  }

  /** A least filled shard with nothing but the kept accounts missing: all other shards have reached its level. */
  lemma NoneLeft(f: Fleet, active: set<Account>, done: set<Account>, g: Fleet, s: string, size: nat)
    requires Progress(f, active, done, g) && done <= active && s in f.shards
    requires LeastFilled(g, s, f.shards[s].manager, size) && |Here(f, active, done, g, s)| == size
    ensures Left(f, active, done, g, s, size) == 1
  {
    var level := size - |Kept(f, active, s)|;
    assert s in g.shards && forall a | a in active && Keeps(f, a) ::
      a in g.assignments && g.assignments[a] == f.assignments[a];
    Level(g, done, s);
    assert Here(f, active, done, g, s) <= Sits(g, done, s) + Kept(f, active, s);
    CountUnion(Here(f, active, done, g, s), Sits(g, done, s), Kept(f, active, s));
    var held := HeldBeside(f, active, done, g, s);
    assert forall t | t in f.shards :: t in g.shards && g.shards[t].manager == f.shards[t].manager;
    hide Moved, Grown, Keeps, Here, Kept, Sits;
    forall t | t in held ensures level <= held[t] {
      LevelAtMostHere(f, active, done, g, t);
      assert Open(g, t, f.shards[s].manager, size) || size <= |g.shards[t].accounts|;
    }
    NoPlaces(held, level);
  }

  lemma NewNext(f: Fleet, done: set<Account>, a: Account, manager: string)
    requires a !in done
    ensures |New(f, done + {a}, manager)|
      == |New(f, done, manager)| + if a.manager == manager && !Keeps(f, a) then 1 else 0
  {
    hide Keeps;
    assert New(f, done + {a}, manager)
      == New(f, done, manager) + if a.manager == manager && !Keeps(f, a) then {a} else {};
  }

  lemma NeedsRoom(f: Fleet, active: set<Account>, s: string, size: nat)
    requires s in f.shards && 0 < Need(f, active, s, size)
    ensures |Kept(f, active, s)| <= size
  {
    hide Kept, Usable, Places;
    if size < |Kept(f, active, s)| {
      NoPlaces(map t | t in f.shards && Beside(f, s, t) :: |Kept(f, active, t)|, size - |Kept(f, active, s)|);
    }
  }

  /** The new accounts that have had their turn make up for what is no longer needed. */
  ghost predicate Ahead(f: Fleet, active: set<Account>, done: set<Account>, g: Fleet, s: string, size: nat)
    requires s in f.shards
  {
    && |Here(f, active, done, g, s)| <= size
    && Need(f, active, s, size) <= Left(f, active, done, g, s, size) + |New(f, done, f.shards[s].manager)|
  }

  lemma AheadNext(f: Fleet, active: set<Account>, done: set<Account>, g: Fleet, a: Account, size: nat, after: Fleet,
      u: string, s: string)
    requires Progress(f, active, done, g) && Rooted(f) && done <= active && a in active && a !in done && s in f.shards
    requires Turn(g, a, after, u) && (!Keeps(g, a) && u in g.shards ==> LeastFilled(g, u, a.manager, size))
    requires |New(f, active, f.shards[s].manager)| < Need(f, active, s, size) && Ahead(f, active, done, g, s, size)
    ensures Ahead(f, active, done + {a}, after, s, size)
  {
    var manager := f.shards[s].manager;
    StaysKept(f, active, done, g, a);
    HereNext(f, active, done, g, a, after, u, s);
    LeftNext(f, active, done, g, a, after, u, s, size);
    NewNext(f, done, a, manager);
    assert u == s ==> s in g.shards && a.manager == manager by { hide Partitioned, Moved, Keeps; }
    assert New(f, done + {a}, manager) <= New(f, active, manager);
    NoLarger(New(f, done + {a}, manager), New(f, active, manager));
    hide Progress, Turn, Rooted, Keeps, Here, Kept, LeastFilled, New, Left, Need;
    if !Keeps(f, a) && u == s && |Here(f, active, done, g, s)| == size {
      NoneLeft(f, active, done, g, s, size);
    }
  }

  lemma {:induction false} StaysAhead(f: Fleet, active: set<Account>, order: seq<Account>, size: nat,
      states: seq<Fleet>, i: nat, s: string)
    requires Trace(f, active, order, size, states) && Rooted(f) && i <= |order| && s in f.shards
    requires |New(f, active, f.shards[s].manager)| < Need(f, active, s, size)
    ensures Ahead(f, active, Done(order, i), states[i], s, size)
  {
    if i == 0 {
      assert Done(order, 0) == {} && states[0] == Start(f, active);
      hide *;
      AheadAtStart(f, active, s, size);
    } else {
      assert |states| == |order| + 1;
      hide *;
      StaysAhead(f, active, order, size, states, i - 1, s);
      AheadTurn(f, active, order, size, states, i - 1, s);
    }
  }

  lemma AheadAtStart(f: Fleet, active: set<Account>, s: string, size: nat)
    requires s in f.shards && 0 < Need(f, active, s, size)
    ensures Ahead(f, active, {}, Start(f, active), s, size)
  {
    hide Need, Left, Here, Kept, Start;
    HereStart(f, active, s);
    LeftStart(f, active, s, size);
    NeedsRoom(f, active, s, size);
  }

  lemma AheadTurn(f: Fleet, active: set<Account>, order: seq<Account>, size: nat, states: seq<Fleet>, i: nat, s: string)
    requires Trace(f, active, order, size, states) && Rooted(f) && i < |order| && s in f.shards
    requires |New(f, active, f.shards[s].manager)| < Need(f, active, s, size)
    requires Ahead(f, active, Done(order, i), states[i], s, size)
    ensures Ahead(f, active, Done(order, i + 1), states[i + 1], s, size)
  {
    ReconcileProgress(f, active, order, size, states, i);
    TurnComes(f, active, order, size, states, i);
    assert Done(order, i) <= active && order[i] in active;
    hide *;
    var u := TurnOf(states[i], order[i], size, states[i + 1]);
    AheadNext(f, active, Done(order, i), states[i], order[i], size, states[i + 1], u, s);
    DoneNext(order, i);
  }

  lemma UnkeptTurn(f: Fleet, active: set<Account>, done: set<Account>, g: Fleet, a: Account, size: nat, after: Fleet,
      u: string, s: string)
    requires Progress(f, active, done, g) && Rooted(f) && 1 <= size && a in active && a !in done && Turn(g, a, after, u)
    requires !Keeps(g, a) && u in g.shards ==> |g.shards[u].accounts| < size
    requires Kept(f, active, s) == {} && s in after.shards && (s in g.shards ==> |g.shards[s].accounts| <= size)
    ensures |after.shards[s].accounts| <= size
  {
    StaysKept(f, active, done, g, a);
    assert Keeps(f, a) ==> a in Kept(f, active, f.assignments[a]);
    hide Progress, Rooted, Keeps, Kept;
  }

  /** A shard that keeps nobody is filled by new accounts alone. */
  lemma {:induction false} UnkeptWithin(f: Fleet, active: set<Account>, order: seq<Account>, size: nat,
      states: seq<Fleet>, i: nat, s: string)
    requires Trace(f, active, order, size, states) && Rooted(f) && 1 <= size && i <= |order|
    requires Kept(f, active, s) == {} && s in states[i].shards
    ensures |states[i].shards[s].accounts| <= size
  {
    if i > 0 {
      var g, a := states[i - 1], order[i - 1];
      ReconcileProgress(f, active, order, size, states, i - 1);
      TurnComes(f, active, order, size, states, i - 1);
      assert a in active;
      var u := TurnOf(g, a, size, states[i]);
      assert !Keeps(g, a) && u in g.shards ==> |g.shards[u].accounts| < size by { hide Keeps, Trace, Turn, Placed; }
      hide Progress, Placed, Turn, Keeps, Kept, Rooted, LeastFilled, Start;
      if s in g.shards { UnkeptWithin(f, active, order, size, states, i - 1, s); }
      UnkeptTurn(f, active, Done(order, i - 1), g, a, size, states[i], u, s);
    }
  }

  lemma RoomyWithin(f: Fleet, active: set<Account>, order: seq<Account>, size: nat, states: seq<Fleet>)
    requires Trace(f, active, order, size, states) && Rooted(f) && 1 <= size && Roomy(f, active, size)
    ensures Within(states[|order|], size)
  {
    var g := states[|order|];
    ReconcileProgress(f, active, order, size, states, |order|);
    assert Done(order, |order|) <= active;
    assert forall s | s in g.shards && Kept(f, active, s) != {} :: s in f.shards;
    hide Progress, Placed, Trace, Kept, Here, New, Need, Left, Rooted;
    forall s | s in g.shards ensures |g.shards[s].accounts| <= size {
      if Kept(f, active, s) == {} {
        UnkeptWithin(f, active, order, size, states, |order|, s);
      } else {
        StaysAhead(f, active, order, size, states, |order|, s);
        assert Partitioned(g, Done(order, |order|)) by { RevealProgress(f, active, Done(order, |order|), g); }
        LevelAtMostHere(f, active, Done(order, |order|), g, s);
      }
    }
  }

  lemma RevealProgress(f: Fleet, active: set<Account>, done: set<Account>, g: Fleet)
    requires Progress(f, active, done, g)
    ensures Partitioned(g, done)
  {
  }

  // ---------- too little room means some order overfills a shard ----------

  /** A reconciliation under way: the accounts taken so far, and the states. */
  datatype Way = Way(order: seq<Account>, states: seq<Fleet>) {
    ghost predicate Runs(f: Fleet, active: set<Account>, size: nat) { Trace(f, active, order, size, states) }

    function Taken(): set<Account> { Done(order, |order|) }

    function Last(): Fleet
      requires states != []
    {
      states[|states| - 1]
    }
  }

  lemma WayProgress(f: Fleet, active: set<Account>, size: nat, w: Way)
    requires w.Runs(f, active, size)
    ensures w.states != [] && w.Taken() <= active && Progress(f, active, w.Taken(), w.Last())
  {
    ReconcileProgress(f, active, w.order, size, w.states, |w.order|);
    hide Progress;
  }

  lemma Extend(f: Fleet, active: set<Account>, size: nat, w: Way, a: Account, next: Fleet) returns (longer: Way)
    requires w.Runs(f, active, size) && a in active && a !in w.Taken() && Placed(w.Last(), a, size, next)
    ensures longer.Runs(f, active, size) && longer.states != [] && longer.Taken() == w.Taken() + {a}
      && longer.Last() == next
    ensures longer.order == w.order + [a] && w.states <= longer.states
  {
    hide Placed;
    longer := Way(w.order + [a], w.states + [next]);
    assert w.order[..|w.order|] == w.order;
    assert forall i | 0 <= i < |w.order| :: Placed(w.states[i], w.order[i], size, w.states[i + 1]);
    assert longer.order[..|w.order|] == w.order[..|w.order|];
    DoneNext(longer.order, |w.order|);
  }

  /** Where all shards of the run stand: no shard was founded, and everybody who stays is counted as before. */
  ghost predicate Same(f: Fleet, active: set<Account>, w: Way, later: Way)
    requires w.states != [] && later.states != []
  {
    && later.Last().shards.Keys == w.Last().shards.Keys
    && forall t :: |Here(f, active, later.Taken(), later.Last(), t)| == |Here(f, active, w.Taken(), w.Last(), t)|
  }

  lemma KeptTurn(f: Fleet, active: set<Account>, size: nat, w: Way, a: Account) returns (later: Way)
    requires w.Runs(f, active, size) && w.states != [] && Rooted(f) && a in active && a !in w.Taken() && Keeps(f, a)
    ensures later.Runs(f, active, size) && later.states != [] && later.Taken() == w.Taken() + {a}
      && Same(f, active, w, later)
  {
    WayProgress(f, active, size, w);
    var g, done := w.Last(), w.Taken();
    StaysKept(f, active, done, g, a);
    var next := Join(g, g.assignments[a], a);
    assert Placed(g, a, size, next);
    later := Extend(f, active, size, w, a, next);
    var u := TurnOf(g, a, size, next);
    hide Progress, Placed, Rooted;
    forall t { HereNext(f, active, done, g, a, next, u, t); }
  }

  /** Accounts that stay can take their turns at any time. */
  lemma {:induction false} TakeKept(f: Fleet, active: set<Account>, size: nat, w: Way, todo: set<Account>)
      returns (later: Way)
    requires w.Runs(f, active, size) && w.states != [] && Rooted(f)
    requires todo <= active && todo !! w.Taken() && forall a | a in todo :: Keeps(f, a)
    ensures later.Runs(f, active, size) && later.states != [] && later.Taken() == w.Taken() + todo
      && Same(f, active, w, later)
    decreases |todo|
  {
    later := w;
    hide Keeps, Here, Rooted, Trace, Done;
    if todo == {} {
      assert w.Taken() + todo == w.Taken();
    } else {
      var a :| a in todo;
      var mid := KeptTurn(f, active, size, w, a);
      later := TakeKept(f, active, size, mid, todo - {a});
      assert w.Taken() + {a} + (todo - {a}) == w.Taken() + todo;
    }
  }

  /** Some open shard of the manager is least filled. */
  lemma {:induction false} SomeLeast(g: Fleet, s: string, manager: string, size: nat) returns (o: string)
    requires s in g.shards && Open(g, s, manager, size)
    ensures o in g.shards && LeastFilled(g, o, manager, size) && |g.shards[o].accounts| <= |g.shards[s].accounts|
    decreases |g.shards[s].accounts|
  {
    o := s;
    if !LeastFilled(g, s, manager, size) {
      var less :| less in g.shards && Open(g, less, manager, size)
        && |g.shards[less].accounts| < |g.shards[s].accounts|;
      o := SomeLeast(g, less, manager, size);
    }
  }

  /** Those who stay have had their turns, except on s; and no shard was founded. */
  ghost predicate Behind(f: Fleet, active: set<Account>, size: nat, w: Way, s: string) {
    && w.Runs(f, active, size) && w.states != [] && w.Last().shards.Keys == f.shards.Keys
    && forall a | a in active && Keeps(f, a) :: a in w.Taken() <==> f.assignments[a] != s
  }

  lemma BehindLevels(f: Fleet, active: set<Account>, size: nat, w: Way, s: string, t: string)
    requires Behind(f, active, size, w, s) && t in f.shards
    ensures |w.Last().shards[t].accounts|
      == |Here(f, active, w.Taken(), w.Last(), t)| - if t == s then |Kept(f, active, s)| else 0
  {
    WayProgress(f, active, size, w);
    var g, done := w.Last(), w.Taken();
    Level(g, done, t);
    assert forall a | a in active && Keeps(f, a) :: a in g.assignments && g.assignments[a] == f.assignments[a];
    hide *;
    HereIs(f, active, done, g, s, t);
  }

  lemma HereIs(f: Fleet, active: set<Account>, done: set<Account>, g: Fleet, s: string, t: string)
    requires done <= active
    requires forall a | a in active && Keeps(f, a) ::
      a in g.assignments && g.assignments[a] == f.assignments[a] && (a in done <==> f.assignments[a] != s)
    ensures |Here(f, active, done, g, t)| == |Sits(g, done, t)| + if t == s then |Kept(f, active, s)| else 0
  {
    hide Keeps;
    if t == s {
      assert Here(f, active, done, g, t) == Sits(g, done, t) + Kept(f, active, s);
      assert Sits(g, done, t) !! Kept(f, active, s);
    } else {
      assert Here(f, active, done, g, t) == Sits(g, done, t);
    }
  }

  lemma AssignedTurn(g: Fleet, a: Account, size: nat, u: string)
    requires !Keeps(g, a) && u in g.shards && LeastFilled(g, u, a.manager, size)
    ensures Placed(g, a, size, Assigned(g, u, a)) && Turn(g, a, Assigned(g, u, a), u)
  {
  }

  /** While s can still take new accounts, s is least filled, or some shard that must be filled up first. */
  lemma NextTaker(f: Fleet, active: set<Account>, size: nat, w: Way, s: string) returns (u: string)
    requires Behind(f, active, size, w, s) && s in f.shards && s != "legacy" && Kept(f, active, s) != {}
    requires |Here(f, active, w.Taken(), w.Last(), s)| <= size
    ensures u in f.shards && u in w.Last().shards && LeastFilled(w.Last(), u, f.shards[s].manager, size)
    ensures u != s ==> Beside(f, s, u) && |Here(f, active, w.Taken(), w.Last(), u)| < size - |Kept(f, active, s)|
  {
    WayProgress(f, active, size, w);
    var g, done, manager := w.Last(), w.Taken(), f.shards[s].manager;
    assert forall t | t in f.shards :: t in g.shards && g.shards[t].manager == f.shards[t].manager;
    hide Progress, Keeps, Here, Kept, Trace;
    BehindLevels(f, active, size, w, s, s);
    u := SomeLeast(g, s, manager, size);
    BehindLevels(f, active, size, w, s, u);
    if |g.shards[s].accounts| <= |g.shards[u].accounts| { u := s; }
  }

  lemma NewTurn(f: Fleet, active: set<Account>, size: nat, w: Way, s: string, a: Account) returns (later: Way)
    requires Behind(f, active, size, w, s) && Rooted(f) && s in f.shards && s != "legacy" && Kept(f, active, s) != {}
    requires |Here(f, active, w.Taken(), w.Last(), s)| <= size
    requires a in New(f, active, f.shards[s].manager) && a !in w.Taken()
    ensures Behind(f, active, size, later, s) && later.Taken() == w.Taken() + {a}
    ensures Left(f, active, later.Taken(), later.Last(), s, size) == Left(f, active, w.Taken(), w.Last(), s, size) - 1
  {
    WayProgress(f, active, size, w);
    var g, done := w.Last(), w.Taken();
    var u := NextTaker(f, active, size, w, s);
    var next := Assigned(g, u, a);
    assert next.shards.Keys == g.shards.Keys;
    hide Progress, Keeps, Here, Kept, Trace, Rooted, Left, LeastFilled, Placed, Turn, Done, Beside, Usable, Assigned,
      Behind;
    StaysKept(f, active, done, g, a);
    AssignedTurn(g, a, size, u);
    assert w.Runs(f, active, size) && w.states != [] by { RevealBehind(f, active, size, w, s); }
    later := Extend(f, active, size, w, a, next);
    LeftNext(f, active, done, g, a, next, u, s, size);
    BehindNext(f, active, size, w, s, a, later);
  }

  lemma BehindNext(f: Fleet, active: set<Account>, size: nat, w: Way, s: string, a: Account, later: Way)
    requires Behind(f, active, size, w, s) && !Keeps(f, a)
    requires later.Runs(f, active, size) && later.states != [] && later.Taken() == w.Taken() + {a}
    requires later.Last().shards.Keys == w.Last().shards.Keys
    ensures Behind(f, active, size, later, s)
  {
    hide Keeps, Trace, Done;
  }

  lemma RevealBehind(f: Fleet, active: set<Account>, size: nat, w: Way, s: string)
    requires Behind(f, active, size, w, s)
    ensures w.Runs(f, active, size) && w.states != []
  {
  }

  lemma {:induction false} TakeNew(f: Fleet, active: set<Account>, size: nat, w: Way, s: string, todo: set<Account>)
      returns (later: Way)
    requires Behind(f, active, size, w, s) && Rooted(f) && s in f.shards && s != "legacy" && Kept(f, active, s) != {}
    requires todo <= New(f, active, f.shards[s].manager) && todo !! w.Taken()
    requires Left(f, active, w.Taken(), w.Last(), s, size) <= |todo|
    ensures Behind(f, active, size, later, s) && size < |Here(f, active, later.Taken(), later.Last(), s)|
    decreases |todo|
  {
    later := w;
    hide Keeps, Here, Kept, Trace, Rooted, New, Done, Places;
    if |Here(f, active, w.Taken(), w.Last(), s)| <= size {
      assert todo != {};
      var a :| a in todo;
      var mid := NewTurn(f, active, size, w, s, a);
      later := TakeNew(f, active, size, mid, s, todo - {a});
    }
  }

  lemma LeftSame(f: Fleet, active: set<Account>, w: Way, later: Way, s: string, size: nat)
    requires w.states != [] && later.states != [] && Same(f, active, w, later) && s in f.shards
    ensures Left(f, active, later.Taken(), later.Last(), s, size) == Left(f, active, w.Taken(), w.Last(), s, size)
  {
    hide Here, Left, Done;
    LeftMoves(f, active, w.Taken(), w.Last(), later.Taken(), later.Last(), s, s, 0, size);
  }

  lemma Begin(f: Fleet, active: set<Account>, size: nat) returns (w: Way)
    ensures w.Runs(f, active, size) && w.states == [Start(f, active)] && w.order == [] && w.Taken() == {}
    ensures w.Last() == Start(f, active) && w.Last().shards.Keys == f.shards.Keys
  {
    w := Way([], [Start(f, active)]);
  }

  /** First those who stay elsewhere, then enough new accounts, and those who stay on s last. */
  lemma Overfill(f: Fleet, active: set<Account>, size: nat, s: string) returns (w: Way)
    requires Rooted(f) && s in f.shards && Kept(f, active, s) != {}
    requires Need(f, active, s, size) <= |New(f, active, f.shards[s].manager)|
    ensures w.Runs(f, active, size) && w.states != [] && !Within(w.Last(), size)
  {
    var manager := f.shards[s].manager;
    assert s != "legacy";
    var start := Begin(f, active, size);
    LeftStart(f, active, s, size);
    var elsewhere := set a | a in active && Keeps(f, a) && f.assignments[a] != s;
    var first := TakeKept(f, active, size, start, elsewhere);
    hide Start, Here, Trace, Rooted, Places, Left, Need;
    LeftSame(f, active, start, first, s, size);
    assert New(f, active, manager) !! first.Taken();
    assert Behind(f, active, size, first, s);
    var second := TakeNew(f, active, size, first, s, New(f, active, manager));
    assert Kept(f, active, s) !! second.Taken();
    w := TakeKept(f, active, size, second, Kept(f, active, s));
    LastLevel(f, active, size, w, s);
  }

  lemma LastLevel(f: Fleet, active: set<Account>, size: nat, w: Way, s: string)
    requires w.Runs(f, active, size) && w.states != [] && s in w.Last().shards
    requires forall a | a in active && Keeps(f, a) :: a in w.Taken()
    ensures |w.Last().shards[s].accounts| == |Here(f, active, w.Taken(), w.Last(), s)|
  {
    WayProgress(f, active, size, w);
    Level(w.Last(), w.Taken(), s);
    hide Progress, Keeps, Trace, Done;
    assert Here(f, active, w.Taken(), w.Last(), s) == Sits(w.Last(), w.Taken(), s);
  }

  // ---------- every order can be taken to the end ----------

  /** Even if every active account needed a shard of its own, there are names enough. */
  ghost predicate NamesEnough(f: Fleet, active: set<Account>) { |f.shards| + |active| <= CAPACITY }

  lemma {:induction false} NamesDiffer(manager: string, k: nat)
    ensures |set n: nat | 1 <= n <= k :: NumberedShard(manager, n)| == k
  {
    var names := set n: nat | 1 <= n <= k :: NumberedShard(manager, n);
    if k == 0 {
      assert names == {};
    } else {
      NamesDiffer(manager, k - 1);
      var fewer := set n: nat | 1 <= n <= k - 1 :: NumberedShard(manager, n);
      forall n: nat ensures ShardNumber(manager, NumberedShard(manager, n)) == n { NumberedShardNumber(manager, n); }
      hide ShardNumber, NumberedShard;
      assert NumberedShard(manager, k) !in fewer;
      assert names == fewer + {NumberedShard(manager, k)};
    }
  }

  lemma SomeName(shards: map<string, Shard>, manager: string)
    requires |shards| < CAPACITY
    ensures NextShard(shards, manager, 1).Some?
  {
    if NextShard(shards, manager, 1).None? {
      NamesDiffer(manager, CAPACITY);
      NoLarger(set n: nat | 1 <= n <= CAPACITY :: NumberedShard(manager, n), shards.Keys);
      assert false;
    }
  }

  function Shards(g: Fleet, done: set<Account>): set<string> {
    set a | a in done && a in g.assignments :: g.assignments[a]
  }

  lemma {:induction false} ShardsCount(g: Fleet, done: set<Account>)
    ensures |Shards(g, done)| <= |done|
  {
    if done != {} {
      var a :| a in done;
      ShardsCount(g, done - {a});
      assert Shards(g, done) == Shards(g, done - {a}) + if a in g.assignments then {g.assignments[a]} else {};
    }
  }

  /** No more shards are founded than accounts are placed. */
  lemma ShardCount(f: Fleet, done: set<Account>, g: Fleet)
    requires Grown(f, done, g)
    ensures |g.shards| <= |f.shards| + |done|
  {
    forall s | s in g.shards.Keys ensures s in f.shards.Keys + Shards(g, done) { }
    hide Grown;
    ShardsCount(g, done);
    CountUnion(g.shards.Keys, f.shards.Keys, Shards(g, done));
  }

  lemma CanPlace(g: Fleet, a: Account, size: nat) returns (next: Fleet)
    requires |g.shards| < CAPACITY
    ensures Placed(g, a, size, next)
  {
    if Keeps(g, a) {
      next := Join(g, g.assignments[a], a);
    } else if AnyOpen(g, a.manager, size) {
      var s :| s in g.shards && Open(g, s, a.manager, size);
      var o := SomeLeast(g, s, a.manager, size);
      next := Assigned(g, o, a);
    } else {
      SomeName(g.shards, a.manager);
      next := Founded(g, NextShard(g.shards, a.manager, 1).value, a);
    }
  }

  lemma Advance(f: Fleet, active: set<Account>, size: nat, w: Way, a: Account) returns (longer: Way)
    requires w.Runs(f, active, size) && w.states != [] && a in active && a !in w.Taken() && NamesEnough(f, active)
    ensures longer.Runs(f, active, size) && longer.order == w.order + [a] && w.states <= longer.states
  {
    WayProgress(f, active, size, w);
    assert Grown(f, w.Taken(), w.Last()) by { hide Grown, Partitioned, Moved; }
    ShardCount(f, w.Taken(), w.Last());
    hide Progress, Grown, Placed, Trace, Done;
    NoLarger(w.Taken() + {a}, active);
    var next := CanPlace(w.Last(), a, size);
    longer := Extend(f, active, size, w, a, next);
  }

  lemma {:induction false} Finish(f: Fleet, active: set<Account>, size: nat, w: Way, rest: seq<Account>)
      returns (states: seq<Fleet>)
    requires w.Runs(f, active, size) && w.states != [] && Enumerates(w.order + rest, active) && NamesEnough(f, active)
    ensures Reconciles(f, active, w.order + rest, size, states) && w.states <= states
    decreases |rest|
  {
    if rest == [] {
      states := w.states;
      assert w.order + rest == w.order;
    } else {
      var a := rest[0];
      assert (w.order + rest)[|w.order|] == a;
      assert forall i | 0 <= i < |w.order| :: (w.order + rest)[i] == w.order[i] && w.order[i] != a;
      assert a in active && a !in w.Taken();
      hide Enumerates, Trace, NamesEnough, Done;
      var longer := Advance(f, active, size, w, a);
      assert longer.order + rest[1..] == w.order + rest;
      states := Finish(f, active, size, longer, rest[1..]);
    }
  }

  /** With names enough no order of the accounts ends in an error. */
  lemma OrderCompletes(f: Fleet, active: set<Account>, order: seq<Account>, size: nat) returns (states: seq<Fleet>)
    requires Enumerates(order, active) && NamesEnough(f, active)
    ensures Reconciles(f, active, order, size, states)
  {
    var start := Begin(f, active, size);
    assert [] + order == order;
    states := Finish(f, active, size, start, order);
  }

  lemma {:induction false} Listed(some: set<Account>) returns (order: seq<Account>)
    ensures Enumerates(order, some)
    decreases |some|
  {
    order := [];
    if some != {} {
      var a :| a in some;
      var shorter := Listed(some - {a});
      order := shorter + [a];
    }
  }

  lemma RestCompletes(f: Fleet, active: set<Account>, size: nat, w: Way, rest: seq<Account>)
    requires w.Runs(f, active, size) && Enumerates(rest, active - w.Taken())
    ensures Enumerates(w.order + rest, active)
  {
    var order := w.order + rest;
    assert w.order[..|w.order|] == w.order;
    forall a ensures a in order <==> a in active {
      assert a in order <==> a in w.order || a in rest;
    }
    forall i, k | 0 <= i < k < |order| ensures order[i] != order[k] {
      if i < |w.order| <= k { assert order[k] in rest && order[i] in w.Taken(); }
    }
  }

  /** An overfilled shard stays overfilled to the end. */
  lemma OverfillCompletes(f: Fleet, active: set<Account>, size: nat, w: Way)
      returns (order: seq<Account>, states: seq<Fleet>)
    requires w.Runs(f, active, size) && w.states != [] && !Within(w.Last(), size) && NamesEnough(f, active)
    ensures Reconciles(f, active, order, size, states) && !Within(states[|order|], size)
  {
    var rest := Listed(active - w.Taken());
    order := w.order + rest;
    RestCompletes(f, active, size, w, rest);
    hide Enumerates, NamesEnough, Within, Done, Placed, Start;
    states := Finish(f, active, size, w, rest);
    var s :| s in w.Last().shards && |w.Last().shards[s].accounts| > size;
    assert states[|w.order|] == w.Last();
    ShardsFill(f, active, order, size, states, |w.order|, |order|, s);
  }

  // ---------- the size of the shards ----------

  /**
    Whatever order the accounts come in and however ties are broken, no shard ever exceeds the size,
    exactly if no manager has enough new accounts to overfill a shard that keeps some.
  */
  lemma SizeHoldsThroughout(f: Fleet, active: set<Account>, size: nat)
    requires Rooted(f) && 1 <= size
    ensures (forall order, states | Trace(f, active, order, size, states) :: Within(states[|order|], size))
      <==> Roomy(f, active, size)
  {
    hide Placed, Start, Within, Rooted, Need, New, Kept;
    if Roomy(f, active, size) {
      forall order, states | Trace(f, active, order, size, states) ensures Within(states[|order|], size) {
        RoomyWithin(f, active, order, size, states);
      }
    } else {
      var s :| s in f.shards && Kept(f, active, s) != {}
        && Need(f, active, s, size) <= |New(f, active, f.shards[s].manager)|;
      var w := Overfill(f, active, size, s);
      WayStates(f, active, size, w);
    }
  }

  lemma WayStates(f: Fleet, active: set<Account>, size: nat, w: Way)
    requires w.Runs(f, active, size)
    ensures w.states != [] && w.Last() == w.states[|w.order|] && Trace(f, active, w.order, size, w.states)
  {
  }

  /** The same of the final sizes, as long as no order ends in an error. */
  lemma FinalSizeHolds(f: Fleet, active: set<Account>, size: nat)
    requires Rooted(f) && 1 <= size && NamesEnough(f, active)
    ensures (forall order, states | Reconciles(f, active, order, size, states) :: Within(states[|order|], size))
      <==> Roomy(f, active, size)
  {
    hide Placed, Start, Within, Rooted, Need, New, Kept, Enumerates, NamesEnough;
    if Roomy(f, active, size) {
      forall order, states | Reconciles(f, active, order, size, states) ensures Within(states[|order|], size) {
        RoomyWithin(f, active, order, size, states);
      }
    } else {
      var s :| s in f.shards && Kept(f, active, s) != {}
        && Need(f, active, s, size) <= |New(f, active, f.shards[s].manager)|;
      var w := Overfill(f, active, size, s);
      var order, states := OverfillCompletes(f, active, size, w);
    }
  }

  /** A shard that keeps more accounts than the size exceeds it in every order. */
  lemma TooManyKept(f: Fleet, active: set<Account>, order: seq<Account>, size: nat, states: seq<Fleet>, s: string)
    requires Reconciles(f, active, order, size, states) && size < |Kept(f, active, s)|
    ensures s in states[|order|].shards && size < |states[|order|].shards[s].accounts|
  {
    var after := states[|order|];
    ReconcilePartitions(f, active, order, size, states);
    hide Reconciles;
    var a :| a in Kept(f, active, s);
    Level(after, active, s);
    NoLarger(Kept(f, active, s), Sits(after, active, s));
  }

  /** In the order, those of a manager who stay come before those who do not. */
  ghost predicate KeptFirst(f: Fleet, order: seq<Account>) {
    forall i, k | 0 <= i < k < |order| && order[i].manager == order[k].manager && Keeps(f, order[k]) ::
      Keeps(f, order[i])
  }

  lemma KeptFirstTurn(f: Fleet, active: set<Account>, order: seq<Account>, size: nat, states: seq<Fleet>, k: nat)
    requires Trace(f, active, order, size, states) && Rooted(f) && k < |order| && KeptFirst(f, order)
    requires forall s :: |Kept(f, active, s)| <= size
    ensures !Overfills(states[k], order[k], size)
  {
    var g, a, done := states[k], order[k], Done(order, k);
    ReconcileProgress(f, active, order, size, states, k);
    TurnComes(f, active, order, size, states, k);
    assert a in active;
    StaysKept(f, active, done, g, a);
    if Keeps(f, a) {
      var s := f.assignments[a];
      assert forall b | b in done && b.manager == a.manager :: Keeps(f, b);
      assert done <= active;
      hide Trace, Placed, KeptFirst, Rooted;
      Level(g, done, s);
      forall b | b in Sits(g, done, s) ensures b in Kept(f, active, s) - {a} { }
      NoLarger(Sits(g, done, s), Kept(f, active, s) - {a});
    }
  }

  /** If those who stay come first and no shard keeps too many, the size holds. */
  lemma KeptFirstBound(f: Fleet, active: set<Account>, order: seq<Account>, size: nat, states: seq<Fleet>)
    requires Trace(f, active, order, size, states) && Rooted(f) && 1 <= size && KeptFirst(f, order)
    requires forall s :: |Kept(f, active, s)| <= size
    ensures Within(states[|order|], size)
  {
    hide Placed, Start, KeptFirst, Kept, Overfills, Rooted;
    forall k | 0 <= k < |order| ensures !Overfills(states[k], order[k], size) {
      KeptFirstTurn(f, active, order, size, states, k);
    }
    SizeBoundExactly(f, active, order, size, states);
  }

  // An assignment to a shard that does not exist yet: the shard is founded for somebody else, and then the
  // account keeps it. No state of the service has such an assignment.

  const Dangling := Fleet(map[], map[Second := NumberedShard(First.manager, 1)])

  lemma DanglingOverfills() returns (states: seq<Fleet>)
    ensures !Rooted(Dangling) && Roomy(Dangling, {First, Second}, 1)
    ensures Reconciles(Dangling, {First, Second}, [First, Second], 1, states) && !Within(states[2], 1)
  {
    var name := NumberedShard(First.manager, 1);
    var start := Start(Dangling, {First, Second});
    assert start.shards == map[] && First !in start.assignments;
    var mid := Founded(start, name, First);
    assert Placed(start, First, 1, mid);
    NotLegacy(First.manager, name);
    assert Second != First && Keeps(mid, Second);
    var after := Join(mid, name, Second);
    assert Placed(mid, Second, 1, after);
    states := [start, mid, after];
    assert First.customer != Second.customer;
    assert after.shards[name].accounts == {First.customer, Second.customer};
    assert Second in Dangling.assignments;
  }
}
