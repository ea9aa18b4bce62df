/** Counts per name, kept in a map, and their total. */
module Tallies {

  function CountOf(m: map<string, int>, name: string): int {
    if name in m then m[name] else 0
  }

  /** Adding to a count starts it at zero when it is missing. */
  function Add(m: map<string, int>, name: string, count: int): map<string, int> {
    m[name := CountOf(m, name) + count]
  }

  /** The total of all counts, in whatever order they are taken. */
  ghost function Total(m: map<string, int>): int {
    if m == map[] then 0
    else
      var name :| name in m;
      m[name] + Total(m - {name})
  }

  lemma {:induction false} TotalWithout(m: map<string, int>, name: string)
    requires name in m
    ensures Total(m) == m[name] + Total(m - {name})
    decreases |m|
  {
    var first :| first in m && Total(m) == m[first] + Total(m - {first});
    if first != name {
      TotalWithout(m - {first}, name);
      TotalWithout(m - {name}, first);
      assert m - {first} - {name} == m - {name} - {first};
    }
  }

  lemma TotalAdd(m: map<string, int>, name: string, count: int)
    ensures Total(Add(m, name, count)) == Total(m) + count
  {
    var n := Add(m, name, count);
    TotalWithout(n, name);
    assert n - {name} == m - {name};
    if name in m {
      TotalWithout(m, name);
    } else {
      assert m - {name} == m;
    }
  }
}
