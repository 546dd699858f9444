/**
 * Read-only queries over the transaction log: the entries of one player or
 * of one account, newest first, at most `limit` of them; and one entry by id.
 */
module Transactions {
  import opened Schema

  /** The page size when the caller gives none. */
  const DefaultLimit: nat := 50

  /** The `where` clause of a log query. */
  datatype Criterion = ByPlayer(playerId: PlayerId) | ByAccount(accountId: AccountId)

  predicate Matches(e: Entry, c: Criterion) {
    match c
    case ByPlayer(p) => e.playerId == p
    case ByAccount(a) => e.accountId == Some(a)
  }

  /** `order by created_at desc`: no entry is newer than one before it. */
  predicate NewestFirst(s: seq<Entry>) {
    forall i, j :: 0 <= i < j < |s| ==> s[i].createdAt >= s[j].createdAt
  }

  /** The entries of `log` that match `c`, in log order. */
  function Select(log: seq<Entry>, c: Criterion): (r: seq<Entry>)
    ensures forall e :: e in r <==> e in log && Matches(e, c)
    ensures multiset(r) <= multiset(log)
    ensures |r| <= |log|
    ensures (forall e :: e in log ==> !Matches(e, c)) ==> r == []
  {
    if log == [] then []
    else
      assert log == [log[0]] + log[1..];
      if Matches(log[0], c) then [log[0]] + Select(log[1..], c)
      else Select(log[1..], c)
  }

  /** Places `e` in front of the first entry not newer than it. */
  function InsertByTime(e: Entry, s: seq<Entry>): (r: seq<Entry>)
    requires NewestFirst(s)
    ensures NewestFirst(r)
    ensures multiset(r) == multiset(s) + multiset{e}
    ensures |r| == |s| + 1
    ensures r[0] == e || (s != [] && r[0] == s[0])
  {
    if s == [] || e.createdAt >= s[0].createdAt then
      assert forall j :: 0 <= j < |s| ==> s[j].createdAt <= e.createdAt;
      PrependNewest(e, s);
      [e] + s
    else
      var rest := InsertByTime(e, s[1..]);
      KeepHead(e, s, rest);
      [s[0]] + rest
  }

  /** The recursive case of InsertByTime: the head of `s` is newer than `e`
      and stays in front of the rest with `e` inserted. */
  lemma KeepHead(e: Entry, s: seq<Entry>, rest: seq<Entry>)
    requires NewestFirst(s) && s != [] && e.createdAt < s[0].createdAt
    requires NewestFirst(rest) && multiset(rest) == multiset(s[1..]) + multiset{e}
    requires |rest| == |s| && (rest[0] == e || (1 < |s| && rest[0] == s[1]))
    ensures NewestFirst([s[0]] + rest)
    ensures multiset([s[0]] + rest) == multiset(s) + multiset{e}
  {
    assert s == [s[0]] + s[1..];
    assert rest[0].createdAt <= s[0].createdAt;
    assert forall j :: 0 <= j < |rest| ==> rest[j].createdAt <= s[0].createdAt;
    PrependNewest(s[0], rest);
  }

  /** An entry at least as new as every entry of a newest-first list can go
      in front of it. */
  lemma PrependNewest(x: Entry, s: seq<Entry>)
    requires NewestFirst(s)
    requires forall j :: 0 <= j < |s| ==> s[j].createdAt <= x.createdAt
    ensures NewestFirst([x] + s)
  {
    var r := [x] + s;
    forall i, j | 0 <= i < j < |r| ensures r[i].createdAt >= r[j].createdAt {
      assert r[j] == s[j - 1];
      if 0 < i {
        assert r[i] == s[i - 1];
      }
    }
  }

  /** The log entries reordered newest first. */
  function SortNewestFirst(s: seq<Entry>): (r: seq<Entry>)
    ensures NewestFirst(r)
    ensures multiset(r) == multiset(s)
    ensures |r| == |s|
  {
    if s == [] then []
    else
      assert s == [s[0]] + s[1..];
      InsertByTime(s[0], SortNewestFirst(s[1..]))
  }

  /** A filtered, ordered, limited query over the log. */
  function Query(log: seq<Entry>, c: Criterion, limit: nat): (r: seq<Entry>)
    ensures |r| == if |Select(log, c)| <= limit then |Select(log, c)| else limit
    ensures NewestFirst(r)
    ensures forall e :: e in r ==> e in log && Matches(e, c)
    ensures multiset(r) <= multiset(Select(log, c))
  {
    var matching := Select(log, c);
    var sorted := SortNewestFirst(matching);
    var n := if |sorted| <= limit then |sorted| else limit;
    PrefixOf(sorted, n);
    assert forall e :: e in sorted ==> e in multiset(matching);
    sorted[..n]
  }

  /** A prefix keeps the order and takes nothing the whole does not hold. */
  lemma PrefixOf(s: seq<Entry>, n: nat)
    requires NewestFirst(s) && n <= |s|
    ensures NewestFirst(s[..n])
    ensures multiset(s[..n]) <= multiset(s)
    ensures forall e :: e in s[..n] ==> e in s
  {
    assert s == s[..n] + s[n..];
  }

  /** A matching entry is left out of a query's page only when every entry
      on the page is at least as new. */
  lemma QueryOmitsOnlyOlder(log: seq<Entry>, c: Criterion, limit: nat)
    ensures forall e, x :: e in log && Matches(e, c) && e !in Query(log, c, limit) && x in Query(log, c, limit) ==>
                           x.createdAt >= e.createdAt
  {
    forall e | e in log && Matches(e, c) && e !in Query(log, c, limit) {
      OmittedIsOlder(log, c, limit, e);
    }
  }

  lemma OmittedIsOlder(log: seq<Entry>, c: Criterion, limit: nat, e: Entry)
    requires e in log && Matches(e, c)
    requires e !in Query(log, c, limit)
    ensures forall x :: x in Query(log, c, limit) ==> x.createdAt >= e.createdAt
  {
    var sorted := SortNewestFirst(Select(log, c));
    var r := Query(log, c, limit);
    assert e in multiset(sorted) by {
      assert e in multiset(Select(log, c));
    }
    assert sorted[..|sorted|] == sorted;
    if limit < |sorted| {
      assert r == sorted[..limit];
      var j :| 0 <= j < |sorted| && sorted[j] == e;
      forall x | x in r ensures x.createdAt >= e.createdAt {
        var i :| 0 <= i < limit && r[i] == x;
        assert sorted[i] == x && i < j;
      }
    }
  }

  /** When no more entries match than the limit allows, the page holds every
      matching entry, each as often as the log does. */
  lemma QueryReturnsAllWhenFew(log: seq<Entry>, c: Criterion, limit: nat)
    requires |Select(log, c)| <= limit
    ensures multiset(Query(log, c, limit)) == multiset(Select(log, c))
    ensures forall e :: e in log && Matches(e, c) ==> e in Query(log, c, limit)
  {
    var sorted := SortNewestFirst(Select(log, c));
    assert sorted[..|sorted|] == sorted;
    var r := Query(log, c, limit);
    forall e | e in log && Matches(e, c) ensures e in r {
      assert e in multiset(Select(log, c));
    }
  }

  /** getTransactionsByPlayer: the player's newest entries, newest first,
      `limit` of them (50 when not given) or all when there are fewer. */
  function TransactionsByPlayer(t: Tables, playerId: PlayerId, limit: Option<nat>): (r: seq<Entry>)
    ensures var n, matching := limit.GetOr(DefaultLimit), Select(t.log, ByPlayer(playerId));
      |r| == if |matching| <= n then |matching| else n
    ensures NewestFirst(r)
    ensures forall e :: e in r ==> e in t.log && e.playerId == playerId
    ensures multiset(r) <= multiset(Select(t.log, ByPlayer(playerId)))
    ensures forall e, x :: e in t.log && e.playerId == playerId && e !in r && x in r ==> x.createdAt >= e.createdAt
  {
    QueryOmitsOnlyOlder(t.log, ByPlayer(playerId), limit.GetOr(DefaultLimit));
    Query(t.log, ByPlayer(playerId), limit.GetOr(DefaultLimit))
  }

  /** getTransactionsByAccount: the account's newest entries, newest first,
      `limit` of them (50 when not given) or all when there are fewer.
      Entries with no account never match. */
  function TransactionsByAccount(t: Tables, accountId: AccountId, limit: Option<nat>): (r: seq<Entry>)
    ensures var n, matching := limit.GetOr(DefaultLimit), Select(t.log, ByAccount(accountId));
      |r| == if |matching| <= n then |matching| else n
    ensures NewestFirst(r)
    ensures forall e :: e in r ==> e in t.log && e.accountId == Some(accountId)
    ensures multiset(r) <= multiset(Select(t.log, ByAccount(accountId)))
    ensures forall e, x :: e in t.log && e.accountId == Some(accountId) && e !in r && x in r ==>
                           x.createdAt >= e.createdAt
  {
    QueryOmitsOnlyOlder(t.log, ByAccount(accountId), limit.GetOr(DefaultLimit));
    Query(t.log, ByAccount(accountId), limit.GetOr(DefaultLimit))
  }

  /** The position of the first entry from `k` on whose id is `id`. */
  function FindEntry(log: seq<Entry>, id: nat, k: nat): (r: Option<nat>)
    ensures r.Some? ==> k <= r.value < |log| && log[r.value].id == id &&
                        forall j :: k <= j < r.value ==> log[j].id != id
    ensures r.None? ==> forall j :: k <= j < |log| ==> log[j].id != id
    decreases |log| - k
  {
    if |log| <= k then None
    else if log[k].id == id then Some(k)
    else FindEntry(log, id, k + 1)
  }

  /** getTransactionById: fails exactly when no entry has that id. */
  function TransactionById(log: seq<Entry>, id: nat): (r: Result<Entry>)
    ensures r.Err? <==> forall e :: e in log ==> e.id != id
    ensures r.Err? ==> r.error == TransactionNotFound
    ensures r.Ok? ==> r.value in log && r.value.id == id
  {
    match FindEntry(log, id, 0)
    case None => Err(TransactionNotFound)
    case Some(i) => Ok(log[i])
  }

  /** In a well-formed log every entry is found by its own id, and a fresh
      id finds nothing. */
  lemma EveryEntryIsFoundById(t: Tables, id: nat)
    requires t.Valid()
    ensures id < |t.log| ==> TransactionById(t.log, id) == Ok(t.log[id])
    ensures |t.log| <= id ==> TransactionById(t.log, id) == Err(TransactionNotFound)
  {
    var r := FindEntry(t.log, id, 0);
    if id < |t.log| {
      assert t.log[id].id == id;
    } else {
      forall e | e in t.log ensures e.id != id {
        var j :| 0 <= j < |t.log| && t.log[j] == e;
      }
    }
  }
}
