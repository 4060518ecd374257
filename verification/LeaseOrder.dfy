/**
  The ranking query of a lease request (web/lib/script-bridge-store.ts:653-690): rows are numbered
  within their customer, ordered by that number first, and cut at the limit.
*/
module LeaseOrder {
  import opened Prelude
  import opened FleetTables

  /** What the ORDER BY clauses look at; `first` when the target has never been applied. */
  datatype Row = Row(job: JobId, customer: string, first: bool, createdAt: Time)

  /** A row of the materialised `ranked` query. */
  datatype Ranked = Ranked(row: Row, position: nat)

  ghost predicate DistinctJobs(rows: set<Row>) {
    forall a, b | a in rows && b in rows && a.job == b.job :: a == b
  }

  ghost predicate DistinctRanks(pool: set<Ranked>) {
    forall a, b | a in pool && b in pool && a.row.job == b.row.job :: a == b
  }

  /** PARTITION BY customer ORDER BY never-applied first, created_at, job_id. */
  predicate Before(a: Row, b: Row) {
    if a.first != b.first then a.first
    else if a.createdAt != b.createdAt then a.createdAt < b.createdAt
    else a.job < b.job
  }

  function Earlier(rows: set<Row>, r: Row): set<Row> {
    set o | o in rows && o.customer == r.customer && Before(o, r)
  }

  /** row_number() OVER the partition. */
  function Position(rows: set<Row>, r: Row): nat { |Earlier(rows, r)| + 1 }

  function Rank(rows: set<Row>): set<Ranked> { set r | r in rows :: Ranked(r, Position(rows, r)) }

  /** ORDER BY account_position, created_at, job_id. */
  predicate Ahead(a: Ranked, b: Ranked) {
    if a.position != b.position then a.position < b.position
    else if a.row.createdAt != b.row.createdAt then a.row.createdAt < b.row.createdAt
    else a.row.job < b.row.job
  }

  predicate IsHead(pool: set<Ranked>, r: Ranked) {
    r in pool && forall o | o in pool && o != r :: Ahead(r, o)
  }

  lemma HeadExists(pool: set<Ranked>)
    requires pool != {} && DistinctRanks(pool)
    ensures exists r :: IsHead(pool, r)
  {
    var some :| some in pool;
    var rest := pool - {some};
    if rest == {} {
      assert pool == {some};
      assert IsHead(pool, some);
    } else {
      HeadExists(rest);
      var d :| IsHead(rest, d);
      var r := if Ahead(some, d) then some else d;
      assert forall o | o in pool :: o == some || o in rest;
      assert IsHead(pool, r);
    }
  }

  function Head(pool: set<Ranked>): (r: Ranked)
    requires pool != {} && DistinctRanks(pool)
    ensures IsHead(pool, r)
  {
    HeadExists(pool);
    var r :| r in pool && IsHead(pool, r);
    r
  }

  /** LIMIT n. */
  function Pick(pool: set<Ranked>, n: nat): (picked: seq<Ranked>)
    requires DistinctRanks(pool)
    ensures |picked| == if n < |pool| then n else |pool|
    ensures forall r | r in picked :: r in pool
    decreases n
  {
    if n == 0 || pool == {} then []
    else
      var r := Head(pool);
      [r] + Pick(pool - {r}, n - 1)
  }

  lemma RankDistinct(rows: set<Row>)
    requires DistinctJobs(rows)
    ensures DistinctRanks(Rank(rows))
  {
  }

  function Selected(rows: set<Row>, n: nat): (picked: seq<Ranked>)
    requires DistinctJobs(rows)
    ensures forall r | r in picked :: r.row in rows && r.position == Position(rows, r.row)
  {
    RankDistinct(rows);
    Pick(Rank(rows), n)
  }

  /** Every row picked is ahead of every row left out. */
  lemma {:induction false} PickedAhead(pool: set<Ranked>, n: nat, r: Ranked, o: Ranked)
    requires DistinctRanks(pool)
    requires r in Pick(pool, n) && o in pool && o !in Pick(pool, n)
    ensures Ahead(r, o)
    decreases n
  {
    var head := Head(pool);
    if r != head {
      PickedAhead(pool - {head}, n - 1, r, o);
    }
  }

  /** The selection follows ORDER BY, and so names no row twice. */
  lemma {:induction false} PickedInOrder(pool: set<Ranked>, n: nat, i: nat, k: nat)
    requires DistinctRanks(pool)
    requires i < k < |Pick(pool, n)|
    ensures Ahead(Pick(pool, n)[i], Pick(pool, n)[k]) && Pick(pool, n)[i].row.job != Pick(pool, n)[k].row.job
    decreases n
  {
    hide Ahead, Pick, DistinctRanks, Head, IsHead;
    PickCons(pool, n);
    var head := Head(pool);
    if i == 0 {
      FirstPicked(pool, Pick(pool - {head}, n - 1)[k - 1]);
    } else {
      PickedInOrder(pool - {head}, n - 1, i - 1, k - 1);
    }
  }

  lemma PickCons(pool: set<Ranked>, n: nat)
    requires DistinctRanks(pool) && Pick(pool, n) != []
    ensures pool != {} && n > 0 && DistinctRanks(pool - {Head(pool)})
    ensures Pick(pool, n) == [Head(pool)] + Pick(pool - {Head(pool)}, n - 1)
  {
  }

  lemma FirstPicked(pool: set<Ranked>, r: Ranked)
    requires pool != {} && DistinctRanks(pool) && r in pool - {Head(pool)}
    ensures Ahead(Head(pool), r) && Head(pool).row.job != r.row.job
  {
    hide Ahead;
  }

  /** The selection is work-conserving: it holds min(n, rows) rows. */
  lemma SelectedCount(rows: set<Row>, n: nat)
    requires DistinctJobs(rows)
    ensures |Selected(rows, n)| == if n < |rows| then n else |rows|
  {
    RankDistinct(rows);
    RankKeepsSize(rows, rows);
    assert Rank(rows) == set r | r in rows :: Ranked(r, Position(rows, r));
  }

  lemma {:induction false} RankKeepsSize(rows: set<Row>, part: set<Row>)
    ensures |set r | r in part :: Ranked(r, Position(rows, r))| == |part|
  {
    var ranked := set r | r in part :: Ranked(r, Position(rows, r));
    if part == {} {
      assert ranked == {};
    } else {
      var r :| r in part;
      RankKeepsSize(rows, part - {r});
      assert ranked == (set q | q in part - {r} :: Ranked(q, Position(rows, q))) + {Ranked(r, Position(rows, r))};
    }
  }

  function OfCustomer(rows: set<Row>, customer: string): set<Row> { set r | r in rows && r.customer == customer }

  function PickedRows(rows: set<Row>, n: nat): (picked: set<Row>)
    requires DistinctJobs(rows)
    ensures picked <= rows
  {
    set r | r in Selected(rows, n) :: r.row
  }

  /** Among some rows one comes last. */
  lemma LastOf(some: set<Row>) returns (last: Row)
    requires some != {} && DistinctJobs(some)
    ensures last in some && forall o | o in some && o != last :: Before(o, last)
    decreases some
  {
    last :| last in some;
    var rest := some - {last};
    if rest == {} {
      assert some == {last};
    } else {
      var d := LastOf(rest);
      assert forall o | o in some :: o == last || o in rest;
      last := if Before(last, d) then d else last;
    }
  }

  /** Among some rows one comes first. */
  lemma FirstOf(some: set<Row>) returns (head: Row)
    requires some != {} && DistinctJobs(some)
    ensures head in some && forall o | o in some && o != head :: Before(head, o)
    decreases some
  {
    head :| head in some;
    var rest := some - {head};
    if rest == {} {
      assert some == {head};
    } else {
      var d := FirstOf(rest);
      assert forall o | o in some :: o == head || o in rest;
      head := if Before(d, head) then d else head;
    }
  }

  /** A picked row's position is no larger than that of any row left out. */
  lemma PositionBound(rows: set<Row>, n: nat, q: Row, r: Row)
    requires DistinctJobs(rows) && q in PickedRows(rows, n) && r in rows - PickedRows(rows, n)
    ensures Position(rows, q) <= Position(rows, r)
  {
    RankDistinct(rows);
    PickedAhead(Rank(rows), n, Ranked(q, Position(rows, q)), Ranked(r, Position(rows, r)));
  }

  /** Everything of a customer before its first row left out was selected. */
  lemma SelectedBefore(rows: set<Row>, picked: set<Row>, b: string) returns (r: Row)
    requires DistinctJobs(rows) && picked <= rows && !(OfCustomer(rows, b) <= picked)
    ensures r in rows - picked && Position(rows, r) <= |OfCustomer(picked, b)| + 1
  {
    var left := OfCustomer(rows, b) - picked;
    var out :| out in OfCustomer(rows, b) && out !in picked;
    assert out in left;
    r := FirstOf(left);
    forall o | o in Earlier(rows, r) ensures o in OfCustomer(picked, b) {
      assert o !in left;
    }
    NoLarger(Earlier(rows, r), OfCustomer(picked, b));
  }

  /** Some selected row of a customer has a position at least the number selected. */
  lemma SelectedDepth(rows: set<Row>, picked: set<Row>, a: string) returns (q: Row)
    requires DistinctJobs(rows) && picked <= rows && OfCustomer(picked, a) != {}
    ensures q in picked && |OfCustomer(picked, a)| <= Position(rows, q)
  {
    var chosen := OfCustomer(picked, a);
    q := LastOf(chosen);
    NoLarger(chosen, Earlier(rows, q) + {q});
  }

  /**
    Account fairness for every limit: if customer a has k rows selected then customer b has at least
    k - 1 selected, or all its rows.
  */
  lemma AccountFair(rows: set<Row>, n: nat, a: string, b: string)
    requires DistinctJobs(rows)
    ensures
      || OfCustomer(rows, b) <= PickedRows(rows, n)
      || |OfCustomer(PickedRows(rows, n), b)| + 1 >= |OfCustomer(PickedRows(rows, n), a)|
  {
    var picked := PickedRows(rows, n);
    if !(OfCustomer(rows, b) <= picked) && OfCustomer(picked, a) != {} {
      var r := SelectedBefore(rows, picked, b);
      var q := SelectedDepth(rows, picked, a);
      PositionBound(rows, n, q, r);
    }
  }

  /**
    Within a customer the selection is a prefix of its own order: never-applied targets first, then
    oldest job first.
  */
  lemma CustomerPrefix(rows: set<Row>, n: nat, early: Row, late: Row)
    requires DistinctJobs(rows) && early in rows && late in PickedRows(rows, n)
    requires early.customer == late.customer && Before(early, late)
    ensures early in PickedRows(rows, n)
  {
    assert Earlier(rows, early) <= Earlier(rows, late);
    assert early in Earlier(rows, late) && early !in Earlier(rows, early);
    NoLarger(Earlier(rows, early), Earlier(rows, late));
    if early !in PickedRows(rows, n) {
      PositionBound(rows, n, late, early);
    }
  }
}
