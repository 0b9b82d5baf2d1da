/** The two TransactionRepository queries the dashboard relies on: the
    monthly sum of one transaction type, and the five most recent
    transactions. */
module TransactionQueries {
  import opened Common
  import opened Dates
  import opened Entities

  // ---------------------------------------------------------------------------
  // sumByUserIdAndTypeAndMonthAndYear

  /** The rows the sum query selects: the user's COMPLETED transactions of
      exactly this type dated in this month and year. */
  predicate Counted(t: Transaction, user: UserId, kind: TransactionType, month: int, year: int) {
    t.owner == user && t.kind == kind && t.status == TransactionStatus.Completed
    && t.date.month == month && t.date.year == year
  }

  function CountedAmount(user: UserId, kind: TransactionType, month: int, year: int): Transaction -> int {
    (t: Transaction) => if Counted(t, user, kind, month, year) then t.amount else 0
  }

  /** COALESCE(SUM(t.amount), 0) over the selected rows. */
  function MonthlySum(txs: map<Id, Transaction>, user: UserId, kind: TransactionType, month: int, year: int): (sum: int)
    ensures (forall k :: k in txs ==> !Counted(txs[k], user, kind, month, year)) ==> sum == 0
    ensures (forall k :: k in txs && Counted(txs[k], user, kind, month, year) ==> txs[k].amount >= 0) ==> sum >= 0
  {
    var f := CountedAmount(user, kind, month, year);
    assert forall k :: k in txs ==> f(txs[k]) == (if Counted(txs[k], user, kind, month, year) then txs[k].amount else 0);
    SumMap(txs, f)
  }

  /** With nothing to add up the sum is 0, not null. */
  lemma EmptySumIsZero(txs: map<Id, Transaction>, user: UserId, kind: TransactionType, month: int, year: int)
    requires forall k :: k in txs ==> !Counted(txs[k], user, kind, month, year)
    ensures MonthlySum(txs, user, kind, month, year) == 0
  {
    var f := CountedAmount(user, kind, month, year);
    SumMapCongruent(txs, map k | k in txs :: txs[k].(status := TransactionStatus.Pending), f);
    ZeroTermsSumToZero(map k | k in txs :: txs[k].(status := TransactionStatus.Pending), user, kind, month, year);
  }

  lemma {:induction false} ZeroTermsSumToZero(txs: map<Id, Transaction>, user: UserId, kind: TransactionType, month: int, year: int)
    requires forall k :: k in txs ==> txs[k].status != TransactionStatus.Completed
    ensures MonthlySum(txs, user, kind, month, year) == 0
    decreases |txs.Keys|
  {
    if txs.Keys != {} {
      var k := MinKey(txs.Keys);
      assert |(txs - {k}).Keys| < |txs.Keys| by {
        assert (txs - {k}).Keys == txs.Keys - {k};
      }
      ZeroTermsSumToZero(txs - {k}, user, kind, month, year);
    }
  }

  /** Recording one more transaction raises the sum by its amount exactly
      when the query selects it: otherwise (another user, another type,
      including every TRANSFER in an INCOME or EXPENSE sum, another month, or
      a status other than COMPLETED) the sum is unchanged. */
  lemma SumOfOneMore(txs: map<Id, Transaction>, id: Id, t: Transaction, user: UserId, kind: TransactionType, month: int, year: int)
    requires id !in txs
    ensures MonthlySum(txs[id := t], user, kind, month, year)
         == MonthlySum(txs, user, kind, month, year) + (if Counted(t, user, kind, month, year) then t.amount else 0)
  {
    SumMapInsert(txs, CountedAmount(user, kind, month, year), id, t);
  }

  /** Income and expense sums never see a transfer. */
  lemma TransfersAreNeitherIncomeNorExpense(txs: map<Id, Transaction>, id: Id, t: Transaction, user: UserId, month: int, year: int)
    requires id !in txs && t.kind == Transfer
    ensures MonthlySum(txs[id := t], user, Income, month, year) == MonthlySum(txs, user, Income, month, year)
    ensures MonthlySum(txs[id := t], user, Expense, month, year) == MonthlySum(txs, user, Expense, month, year)
  {
    SumOfOneMore(txs, id, t, user, Income, month, year);
    SumOfOneMore(txs, id, t, user, Expense, month, year);
  }

  // ---------------------------------------------------------------------------
  // findTop5ByUserIdOrderByTransactionDateDesc

  /** A valid date as one number that orders like the calendar. */
  function DateKey(d: LocalDate): int {
    d.year * 10000 + d.month * 100 + d.day
  }

  lemma DateKeyOrdersLikeTheCalendar(a: LocalDate, b: LocalDate)
    ensures Before(a, b) <==> DateKey(a) < DateKey(b)
    ensures a == b <==> DateKey(a) == DateKey(b)
  {
  }

  /** a comes no later than b in ORDER BY transactionDate DESC, createdAt DESC. */
  predicate NotOlder(a: Transaction, b: Transaction) {
    DateKey(b.date) < DateKey(a.date) || (DateKey(a.date) == DateKey(b.date) && a.createdAt >= b.createdAt)
  }

  /** The ids, all of them rows of txs, are listed newest first. */
  predicate NewestFirst(txs: map<Id, Transaction>, ids: seq<Id>)
    requires forall i :: 0 <= i < |ids| ==> ids[i] in txs
  {
    forall i, j :: 0 <= i < j < |ids| ==> NotOlder(txs[ids[i]], txs[ids[j]])
  }

  /** Inserts row k into a list of ids sorted newest first. */
  function Insert(txs: map<Id, Transaction>, k: Id, ids: seq<Id>): (r: seq<Id>)
    requires k in txs
    requires forall i :: 0 <= i < |ids| ==> ids[i] in txs
    ensures multiset(r) == multiset(ids) + multiset{k}
    ensures |r| == |ids| + 1
    ensures forall i :: 0 <= i < |r| ==> r[i] in txs
    ensures forall i :: 0 <= i < |r| ==> r[i] == k || r[i] in ids
  {
    if ids == [] || NotOlder(txs[k], txs[ids[0]]) then [k] + ids
    else
      assert ids == [ids[0]] + ids[1..];
      [ids[0]] + Insert(txs, k, ids[1..])
  }

  lemma {:induction false} InsertKeepsNewestFirst(txs: map<Id, Transaction>, k: Id, ids: seq<Id>)
    requires k in txs
    requires forall i :: 0 <= i < |ids| ==> ids[i] in txs
    requires NewestFirst(txs, ids)
    ensures NewestFirst(txs, Insert(txs, k, ids))
  {
    if ids != [] && !NotOlder(txs[k], txs[ids[0]]) {
      var rest := Insert(txs, k, ids[1..]);
      InsertKeepsNewestFirst(txs, k, ids[1..]);
      forall j | 0 <= j < |rest| ensures NotOlder(txs[ids[0]], txs[rest[j]]) {
        if rest[j] != k {
          var m :| 0 <= m < |ids[1..]| && ids[1..][m] == rest[j];
          assert ids[1 + m] == rest[j];
        }
      }
      ConsKeepsNewestFirst(txs, ids[0], rest);
    }
  }

  /** A row no older than every row of a sorted list can go in front of it. */
  lemma ConsKeepsNewestFirst(txs: map<Id, Transaction>, k: Id, ids: seq<Id>)
    requires k in txs
    requires forall i :: 0 <= i < |ids| ==> ids[i] in txs
    requires NewestFirst(txs, ids)
    requires forall j :: 0 <= j < |ids| ==> NotOlder(txs[k], txs[ids[j]])
    ensures forall i :: 0 <= i < |[k] + ids| ==> ([k] + ids)[i] in txs
    ensures NewestFirst(txs, [k] + ids)
  {
    var r := [k] + ids;
    assert forall i :: 1 <= i < |r| ==> r[i] == ids[i - 1];
  }

  /** Insertion sort, newest first. */
  function SortNewestFirst(txs: map<Id, Transaction>, ids: seq<Id>): (r: seq<Id>)
    requires forall i :: 0 <= i < |ids| ==> ids[i] in txs
    ensures multiset(r) == multiset(ids)
    ensures |r| == |ids|
    ensures forall i :: 0 <= i < |r| ==> r[i] in txs && r[i] in ids
    ensures NewestFirst(txs, r)
  {
    if ids == [] then []
    else
      assert ids == [ids[0]] + ids[1..];
      var rest := SortNewestFirst(txs, ids[1..]);
      InsertKeepsNewestFirst(txs, ids[0], rest);
      Insert(txs, ids[0], rest)
  }

  /** The ids of the user's transactions, as a set. */
  function UserIdSet(txs: map<Id, Transaction>, user: UserId): set<Id> {
    set k | k in txs && txs[k].owner == user
  }

  /** The ids of the user's transactions. */
  function UserIds(txs: map<Id, Transaction>, user: UserId): (ids: seq<Id>)
    ensures forall i :: 0 <= i < |ids| ==> ids[i] in txs && txs[ids[i]].owner == user
    ensures forall k :: k in txs && txs[k].owner == user <==> k in ids
    ensures forall i, j :: 0 <= i < j < |ids| ==> ids[i] != ids[j]
    ensures |ids| == |UserIdSet(txs, user)|
  {
    var own := UserIdSet(txs, user);
    var ids := SortedKeys(own);
    SortedKeysHaveDistinctEntries(own);
    assert forall k :: k in ids <==> k in txs && txs[k].owner == user;
    ids
  }

  /** The ids the query returns: the user's, newest first, at most five. */
  function RecentIds(txs: map<Id, Transaction>, user: UserId): (r: seq<Id>)
    ensures |r| == (if |UserIds(txs, user)| <= 5 then |UserIds(txs, user)| else 5)
    ensures forall i :: 0 <= i < |r| ==> r[i] in txs && txs[r[i]].owner == user
    ensures NewestFirst(txs, r)
  {
    var all := UserIds(txs, user);
    var sorted := SortNewestFirst(txs, all);
    var n := if |sorted| <= 5 then |sorted| else 5;
    PrefixKeepsNewestFirst(txs, sorted, n);
    sorted[..n]
  }

  lemma PrefixKeepsNewestFirst(txs: map<Id, Transaction>, ids: seq<Id>, n: nat)
    requires n <= |ids|
    requires forall i :: 0 <= i < |ids| ==> ids[i] in txs
    requires NewestFirst(txs, ids)
    ensures forall i :: 0 <= i < n ==> ids[..n][i] in txs
    ensures NewestFirst(txs, ids[..n])
  {
    assert forall i :: 0 <= i < n ==> ids[..n][i] == ids[i];
  }

  /** findTop5ByUserIdOrderByTransactionDateDesc. */
  function Recent(txs: map<Id, Transaction>, user: UserId): (r: seq<Transaction>)
    ensures |r| <= 5
    ensures forall i :: 0 <= i < |r| ==> r[i].owner == user
    ensures |r| == |RecentIds(txs, user)|
    ensures forall i :: 0 <= i < |r| ==> r[i] == txs[RecentIds(txs, user)[i]]
    ensures forall i, j :: 0 <= i < j < |r| ==> NotOlder(r[i], r[j])
  {
    var ids := RecentIds(txs, user);
    seq(|ids|, i requires 0 <= i < |ids| => txs[ids[i]])
  }

  /** The list holds five of the user's transactions, or all of them if
      there are fewer. */
  lemma RecentHasFive(txs: map<Id, Transaction>, user: UserId)
    ensures var n := |UserIdSet(txs, user)|;
      |RecentIds(txs, user)| == (if n <= 5 then n else 5)
  {
  }

  /** No transaction is listed twice. */
  lemma RecentHasNoRepeats(txs: map<Id, Transaction>, user: UserId)
    ensures forall i, j :: 0 <= i < j < |RecentIds(txs, user)| ==> RecentIds(txs, user)[i] != RecentIds(txs, user)[j]
  {
    var all := UserIds(txs, user);
    var sorted := SortNewestFirst(txs, all);
    DistinctPermutation(all, sorted);
    var r := RecentIds(txs, user);
    assert r == sorted[..|r|];
    DistinctPrefix(sorted, |r|);
  }

  lemma DistinctPrefix(a: seq<Id>, n: nat)
    requires n <= |a|
    requires forall i, j :: 0 <= i < j < |a| ==> a[i] != a[j]
    ensures forall i, j :: 0 <= i < j < n ==> a[..n][i] != a[..n][j]
  {
    assert forall i :: 0 <= i < n ==> a[..n][i] == a[i];
  }

  /** The list is a genuine top five: every transaction of the user that it
      leaves out is no newer than any one it lists. */
  lemma RecentIsTopFive(txs: map<Id, Transaction>, user: UserId)
    ensures forall k, i :: k in txs && txs[k].owner == user && k !in RecentIds(txs, user) && 0 <= i < |RecentIds(txs, user)| ==>
      NotOlder(txs[RecentIds(txs, user)[i]], txs[k])
  {
    var all := UserIds(txs, user);
    var sorted := SortNewestFirst(txs, all);
    var r := RecentIds(txs, user);
    assert r == sorted[..|r|];
    forall k, i | k in txs && txs[k].owner == user && k !in r && 0 <= i < |r| ensures NotOlder(txs[r[i]], txs[k]) {
      LeftOutComesLater(txs, all, sorted, r, k);
      var j :| |r| <= j < |sorted| && sorted[j] == k;
      assert r[i] == sorted[i];
    }
  }

  lemma LeftOutComesLater(txs: map<Id, Transaction>, all: seq<Id>, sorted: seq<Id>, r: seq<Id>, k: Id)
    requires multiset(all) == multiset(sorted)
    requires k in all && k !in r
    requires |r| <= |sorted| && r == sorted[..|r|]
    ensures exists j :: |r| <= j < |sorted| && sorted[j] == k
  {
    assert k in multiset(all);
    assert k in sorted;
    var j :| 0 <= j < |sorted| && sorted[j] == k;
  }

  /** The sorted keys of a set list it without repetition. */
  lemma SortedKeysHaveDistinctEntries(s: set<nat>)
    ensures |SortedKeys(s)| == |s|
    ensures forall i, j :: 0 <= i < j < |SortedKeys(s)| ==> SortedKeys(s)[i] != SortedKeys(s)[j]
  {
    var ks := SortedKeys(s);
    DistinctSeqHasSetSize(ks, s);
  }

  lemma {:induction false} DistinctSeqHasSetSize(ks: seq<nat>, s: set<nat>)
    requires forall i, j :: 0 <= i < j < |ks| ==> ks[i] < ks[j]
    requires forall k :: k in s <==> k in ks
    ensures |ks| == |s|
    decreases |ks|
  {
    if ks != [] {
      var s' := s - {ks[0]};
      forall k ensures k in s' <==> k in ks[1..] {
        if k in ks[1..] {
          var m :| 0 <= m < |ks[1..]| && ks[1..][m] == k;
          assert ks[1 + m] == k;
        }
      }
      DistinctSeqHasSetSize(ks[1..], s');
    }
  }

  /** A permutation of a list without repetition has none either. */
  lemma DistinctPermutation(a: seq<Id>, b: seq<Id>)
    requires multiset(a) == multiset(b)
    requires forall i, j :: 0 <= i < j < |a| ==> a[i] != a[j]
    ensures forall i, j :: 0 <= i < j < |b| ==> b[i] != b[j]
  {
    forall i, j | 0 <= i < j < |b| ensures b[i] != b[j] {
      if b[i] == b[j] {
        assert multiset(b)[b[i]] >= 2 by {
          assert b == b[..i] + [b[i]] + b[i+1..j] + [b[j]] + b[j+1..];
        }
        DistinctCountsOnce(a, b[i]);
      }
    }
  }

  lemma {:induction false} DistinctCountsOnce(a: seq<Id>, x: Id)
    requires forall i, j :: 0 <= i < j < |a| ==> a[i] != a[j]
    ensures multiset(a)[x] <= 1
  {
    if a != [] {
      assert a == [a[0]] + a[1..];
      DistinctCountsOnce(a[1..], x);
      if a[0] == x {
        assert x !in a[1..];
      }
    }
  }
}
