/**
 Token balances by user, and their total.
 */
module Balances {
  import opened MachineInts

  type User = nat
  type Accounts = map<User, u64>

  function BalanceOf(m: Accounts, user: User): u64 {
    if user in m then m[user] else 0
  }

  ghost function Total(m: Accounts): nat
    decreases |m|
  {
    if m == map[] then 0
    else
      var user :| user in m;
      SmallerWithout(m, user);
      m[user] + Total(m - {user})
  }

  lemma SmallerWithout(m: Accounts, user: User)
    requires user in m
    ensures |m - {user}| < |m|
  {
    assert (m - {user}).Keys == m.Keys - {user};
    assert |m.Keys - {user}| == |m.Keys| - 1;
  }

  /** The total does not depend on the order in which the accounts are visited. */
  lemma {:induction false} TotalSplits(m: Accounts, user: User)
    requires user in m
    ensures Total(m) == m[user] + Total(m - {user})
    decreases |m|
  {
    var first :| first in m && Total(m) == m[first] + Total(m - {first});
    if first != user {
      SmallerWithout(m, first);
      SmallerWithout(m, user);
      TotalSplits(m - {first}, user);
      TotalSplits(m - {user}, first);
      assert m - {first} - {user} == m - {user} - {first};
    }
  }

  lemma TotalUpdate(m: Accounts, user: User, amount: u64)
    ensures Total(m[user := amount]) == Total(m) - BalanceOf(m, user) + amount
  {
    var m' := m[user := amount];
    TotalSplits(m', user);
    if user in m {
      TotalSplits(m, user);
      assert m' - {user} == m - {user};
    } else {
      assert m' - {user} == m;
    }
  }

  lemma TotalRemove(m: Accounts, user: User)
    ensures Total(m - {user}) == Total(m) - BalanceOf(m, user)
  {
    if user in m {
      TotalSplits(m, user);
    } else {
      assert m - {user} == m;
    }
  }

  lemma TotalCovers(m: Accounts, user: User)
    ensures BalanceOf(m, user) <= Total(m)
  {
    TotalRemove(m, user);
  }
}
