/** Tables of counts and what they add up to. */
module Sums {
  function Get(table: map<nat, nat>, a: nat): nat {
    if a in table then table[a] else 0
  }

  ghost function Sum(table: map<nat, nat>): nat {
    if table == map[] then 0
    else
      var a :| a in table;
      table[a] + Sum(table - {a})
  }

  /** The sum does not depend on the order in which the table is walked. */
  lemma {:induction false} SumWithout(table: map<nat, nat>, a: nat)
    requires a in table
    ensures Sum(table) == table[a] + Sum(table - {a})
    decreases |table|
  {
    var b :| b in table && Sum(table) == table[b] + Sum(table - {b});
    if b != a {
      SumWithout(table - {b}, a);
      SumWithout(table - {a}, b);
      assert table - {b} - {a} == table - {a} - {b};
    }
  }

  lemma {:induction false} ZeroSum(table: map<nat, nat>)
    requires forall a :: a in table ==> table[a] == 0
    ensures Sum(table) == 0
    decreases |table|
  {
    if table != map[] {
      var a :| a in table;
      SumWithout(table, a);
      ZeroSum(table - {a});
    }
  }

  lemma SumLess(table: map<nat, nat>, a: nat)
    requires a in table && table[a] > 0
    ensures Sum(table) == Sum(table[a := table[a] - 1]) + 1
  {
    var less := table[a := table[a] - 1];
    SumWithout(table, a);
    SumWithout(less, a);
    assert table - {a} == less - {a};
  }

  /** Adding to one entry adds to the sum. */
  lemma SumMore(table: map<nat, nat>, a: nat, n: nat)
    ensures Sum(table[a := Get(table, a) + n]) == Sum(table) + n
  {
    var more := table[a := Get(table, a) + n];
    SumWithout(more, a);
    if a in table {
      SumWithout(table, a);
      assert table - {a} == more - {a};
    } else {
      assert table == more - {a};
    }
  }
}
