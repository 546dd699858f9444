/**
 * How much money the database holds: every player's cash plus every account's
 * balance (the players' `bank` column is a cache of the latter and is not
 * counted). The lemmas say how the total moves when one row changes.
 */
module Accounting {
  import opened Schema

  ghost function Pick<K, V>(m: map<K, V>): (k: K)
    requires m != map[]
    ensures k in m
  {
    var k :| k in m; k
  }

  /** The sum of `f` over the values of `m`. */
  ghost function SumOf<K, V>(m: map<K, V>, f: V -> int): int
    decreases |m|
  {
    if m == map[] then 0
    else
      var k := Pick(m);
      assert |m - {k}| < |m| by { assert (m - {k}).Keys == m.Keys - {k}; }
      f(m[k]) + SumOf(m - {k}, f)
  }

  lemma {:induction false} SumOfRemove<K, V>(m: map<K, V>, f: V -> int, k: K)
    requires k in m
    ensures SumOf(m, f) == f(m[k]) + SumOf(m - {k}, f)
    decreases |m|
  {
    var j := Pick(m);
    if j != k {
      assert (m - {j}).Keys == m.Keys - {j};
      assert k in m - {j};
      SumOfRemove(m - {j}, f, k);
      assert (m - {k}).Keys == m.Keys - {k};
      assert j in m - {k};
      assert |m - {k}| < |m|;
      SumOfRemove(m - {k}, f, j);
      assert m - {j} - {k} == m - {k} - {j};
    }
  }

  /** Replacing one value changes the sum by the difference. */
  lemma SumOfUpdate<K, V>(m: map<K, V>, f: V -> int, k: K, v: V)
    requires k in m
    ensures SumOf(m[k := v], f) == SumOf(m, f) - f(m[k]) + f(v)
  {
    SumOfRemove(m[k := v], f, k);
    SumOfRemove(m, f, k);
    assert m[k := v] - {k} == m - {k};
  }

  /** Adding a new key adds its value. */
  lemma SumOfInsert<K, V>(m: map<K, V>, f: V -> int, k: K, v: V)
    requires k !in m
    ensures SumOf(m[k := v], f) == SumOf(m, f) + f(v)
  {
    SumOfRemove(m[k := v], f, k);
    assert m[k := v] - {k} == m;
  }

  function CashOf(p: Player): int { p.cash }
  function BalanceOf(a: Account): int { a.balance }

  ghost function TotalCash(t: Tables): int { SumOf(t.players, CashOf) }
  ghost function TotalBalances(t: Tables): int { SumOf(t.accounts, BalanceOf) }

  /** All money in the game: cash in hand plus money in accounts. */
  ghost function TotalMoney(t: Tables): int { TotalCash(t) + TotalBalances(t) }
}
