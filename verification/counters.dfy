/** Insertion-ordered count tables: the Python dicts from a key to a count
    (`initial_state_tuple` and the inner dicts of `transitions`), and
    random_choice, the weighted draw over them. A table is an association
    list; a key's position is the order in which it was first inserted,
    which is the order in which `dict.items()` visits it. */
module Counters {

  /** Pairs (key, count), in insertion order. */
  type Counter<K> = seq<(K, nat)>

  /** The keys present in a table. */
  function Keys<K>(c: Counter<K>): set<K>
  {
    set i | 0 <= i < |c| :: c[i].0
  }

  lemma KeysCons<K>(c: Counter<K>)
    requires c != []
    ensures Keys(c) == {c[0].0} + Keys(c[1..])
  {
    forall x | x in Keys(c)
      ensures x in {c[0].0} + Keys(c[1..])
    {
      var i :| 0 <= i < |c| && c[i].0 == x;
      if i > 0 {
        assert c[1..][i - 1].0 == x;
      }
    }
    forall x | x in Keys(c[1..])
      ensures x in Keys(c)
    {
      var i :| 0 <= i < |c[1..]| && c[1..][i].0 == x;
      assert c[i + 1].0 == x;
    }
  }

  /** No key occurs twice and every count is at least 1 — the shape add_path
      keeps, since a count is only ever created at 1 or incremented. */
  ghost predicate WellFormed<K>(c: Counter<K>)
  {
    && (forall i, j :: 0 <= i < j < |c| ==> c[i].0 != c[j].0)
    && (forall i :: 0 <= i < |c| ==> c[i].1 >= 1)
  }

  /** The count stored for `k`, 0 when `k` is absent. */
  function Get<K(==)>(c: Counter<K>, k: K): nat
  {
    if c == [] then 0
    else if c[0].0 == k then c[0].1
    else Get(c[1..], k)
  }

  /** `sum(options.values())`. */
  function Total<K>(c: Counter<K>): nat
  {
    if c == [] then 0 else c[0].1 + Total(c[1..])
  }

  /** The running total of random_choice before it looks at position `i`. */
  function Prefix<K>(c: Counter<K>, i: nat): nat
    requires i <= |c|
  {
    Total(c[..i])
  }

  lemma {:induction false} TotalAppend<K>(a: Counter<K>, b: Counter<K>)
    ensures Total(a + b) == Total(a) + Total(b)
    decreases |a|
  {
    if a == [] {
      assert a + b == b;
    } else {
      assert (a + b)[1..] == a[1..] + b;
      TotalAppend(a[1..], b);
    }
  }

  lemma PrefixStep<K>(c: Counter<K>, i: nat)
    requires i < |c|
    ensures Prefix(c, i + 1) == Prefix(c, i) + c[i].1
  {
    assert c[..i + 1] == c[..i] + [c[i]];
    TotalAppend(c[..i], [c[i]]);
  }

  lemma PrefixAll<K>(c: Counter<K>)
    ensures Prefix(c, |c|) == Total(c)
  {
    assert c[..|c|] == c;
  }

  /** Counts are never negative, so running totals only grow. */
  lemma {:induction false} PrefixMonotone<K>(c: Counter<K>, i: nat, j: nat)
    requires i <= j <= |c|
    ensures Prefix(c, i) <= Prefix(c, j)
    decreases j - i
  {
    if i < j {
      PrefixStep(c, j - 1);
      PrefixMonotone(c, i, j - 1);
    }
  }

  /** The count update of add_path: `d[k] += 1` when `k` is present (its
      position unchanged), `d[k] = 1` otherwise (appended last). */
  function Increment<K(==)>(c: Counter<K>, k: K): Counter<K>
    decreases |c|
  {
    if c == [] then [(k, 1)]
    else if c[0].0 == k then [(k, c[0].1 + 1)] + c[1..]
    else [c[0]] + Increment(c[1..], k)
  }

  /** Incrementing adds `k` to the keys and moves no key: a present key keeps
      its position and the length is unchanged, an absent one is appended
      with count 1. */
  lemma {:induction false} IncrementShape<K>(c: Counter<K>, k: K)
    ensures Keys(Increment(c, k)) == Keys(c) + {k}
    ensures k in Keys(c) ==> |Increment(c, k)| == |c|
    ensures k !in Keys(c) ==> Increment(c, k) == c + [(k, 1)]
    ensures forall i :: 0 <= i < |c| ==> Increment(c, k)[i].0 == c[i].0
    decreases |c|
  {
    var r := Increment(c, k);
    if c == [] {
      KeysCons(r);
    } else if c[0].0 == k {
      KeysCons(c);
      KeysCons(r);
      assert r[1..] == c[1..];
    } else {
      var rest := Increment(c[1..], k);
      IncrementShape(c[1..], k);
      KeysCons(c);
      KeysCons(r);
      assert r[1..] == rest;
    }
  }

  /** Incrementing adds 1 to the count of `k` and leaves every other count alone. */
  lemma {:induction false} IncrementGet<K>(c: Counter<K>, k: K, x: K)
    ensures Get(Increment(c, k), x) == Get(c, x) + (if x == k then 1 else 0)
    decreases |c|
  {
    if c != [] && c[0].0 != k {
      IncrementGet(c[1..], k, x);
      assert Increment(c, k)[1..] == Increment(c[1..], k);
    }
  }

  /** Incrementing adds 1 to the sum of the counts. */
  lemma {:induction false} IncrementTotal<K>(c: Counter<K>, k: K)
    ensures Total(Increment(c, k)) == Total(c) + 1
    decreases |c|
  {
    if c != [] && c[0].0 != k {
      IncrementTotal(c[1..], k);
      assert Increment(c, k)[1..] == Increment(c[1..], k);
    } else if c != [] {
      assert Increment(c, k)[1..] == c[1..];
    }
  }

  /** In a table with distinct keys, Get finds the count stored at the key's position. */
  lemma {:induction false} GetAt<K>(c: Counter<K>, i: nat)
    requires i < |c|
    requires forall p, q :: 0 <= p < q < |c| ==> c[p].0 != c[q].0
    ensures Get(c, c[i].0) == c[i].1
    decreases i
  {
    if i > 0 {
      GetAt(c[1..], i - 1);
    }
  }

  /** Putting a fresh key with a positive count in front keeps a table well formed. */
  lemma ConsWellFormed<K>(x: (K, nat), rest: Counter<K>)
    requires WellFormed(rest) && x.1 >= 1 && x.0 !in Keys(rest)
    ensures WellFormed([x] + rest)
  {
    var r := [x] + rest;
    forall i | 0 < i < |r|
      ensures r[0].0 != r[i].0
    {
      assert r[i] == rest[i - 1];
    }
    assert forall i :: 0 < i < |r| ==> r[i] == rest[i - 1];
  }

  /** Incrementing keeps keys distinct and counts positive. */
  lemma {:induction false} IncrementWellFormed<K>(c: Counter<K>, k: K)
    requires WellFormed(c)
    ensures WellFormed(Increment(c, k))
    decreases |c|
  {
    var r := Increment(c, k);
    if c == [] {
      assert r == [(k, 1)];
    } else if c[0].0 == k {
      assert r == [(k, c[0].1 + 1)] + c[1..];
      assert forall i :: 0 < i < |r| ==> r[i] == c[i];
    } else {
      var rest := Increment(c[1..], k);
      assert r == [c[0]] + rest;
      IncrementWellFormed(c[1..], k);
      IncrementShape(c[1..], k);
      assert c[0].0 !in Keys(c[1..]) by {
        forall i | 0 <= i < |c[1..]|
          ensures c[1..][i].0 != c[0].0
        {
          assert c[1..][i] == c[i + 1];
        }
      }
      ConsWellFormed(c[0], rest);
    }
  }

  /** The loop of random_choice, from position `i` with running total
      `running`: the position of the first option whose running total
      reaches `r`. The precondition `running < r <= Total` is why the Python
      loop never falls off its end and returns None. */
  function Scan<K>(options: Counter<K>, r: int, i: nat, running: nat): (j: nat)
    requires i <= |options| && running == Prefix(options, i)
    requires running < r <= Total(options)
    ensures i <= j < |options|
    ensures Prefix(options, j) < r <= Prefix(options, j + 1)
    decreases |options| - i
  {
    PrefixAll(options);
    PrefixStep(options, i);
    var running' := running + options[i].1;
    if r <= running' then i else Scan(options, r, i + 1, running')
  }

  /** random_choice with the draw `random_int` passed in as `r`, which
      randint(1, sum) places in [1, Total(options)]. */
  function RandomChoice<K>(options: Counter<K>, r: int): (k: K)
    requires 1 <= r <= Total(options)
    ensures k in Keys(options)
    ensures exists j :: 0 <= j < |options| && options[j].0 == k && Prefix(options, j) < r <= Prefix(options, j + 1)
  {
    var j := Scan(options, r, 0, 0);
    assert options[j].0 == options[j].0;
    options[j].0
  }

  /** A draw lies in the block of one position only. */
  lemma BlocksDisjoint<K>(options: Counter<K>, r: int, i: nat, j: nat)
    requires i < |options| && Prefix(options, i) < r <= Prefix(options, i + 1)
    requires j < |options| && Prefix(options, j) < r <= Prefix(options, j + 1)
    ensures i == j
  {
    if i < j {
      PrefixMonotone(options, i + 1, j);
    } else if j < i {
      PrefixMonotone(options, j + 1, i);
    }
  }

  /** The option chosen is the one whose block of draws (Prefix(j), Prefix(j+1)]
      holds `r`; it is the first option, in insertion order, whose running
      total reaches `r`. */
  lemma ChoiceIsFirst<K>(options: Counter<K>, r: int, j: nat)
    requires j < |options| && Prefix(options, j) < r <= Prefix(options, j + 1)
    ensures 1 <= r <= Total(options)
    ensures RandomChoice(options, r) == options[j].0
    ensures forall m :: 0 < m <= j ==> Prefix(options, m) < r
  {
    PrefixMonotone(options, j + 1, |options|);
    PrefixAll(options);
    var i := Scan(options, r, 0, 0);
    BlocksDisjoint(options, r, i, j);
    forall m | 0 < m <= j
      ensures Prefix(options, m) < r
    {
      PrefixMonotone(options, m, j);
    }
  }

  /** The integers in (a, b]. */
  function Interval(a: int, b: int): (s: set<int>)
    ensures forall x :: x in s <==> a < x <= b
    ensures a <= b ==> |s| == b - a
    decreases b - a
  {
    if b <= a then {} else Interval(a, b - 1) + {b}
  }

  /** With distinct keys, a draw selects the key at position j only if it
      lies in that position's block. */
  lemma ChoiceInBlock<K>(options: Counter<K>, j: nat, r: int)
    requires WellFormed(options) && j < |options|
    requires 1 <= r <= Total(options) && RandomChoice(options, r) == options[j].0
    ensures Prefix(options, j) < r <= Prefix(options, j + 1)
  {
    var i := Scan(options, r, 0, 0);
    assert options[i].0 == options[j].0;
    assert i == j;
  }

  /** The draws in [1, Total(options)] for which random_choice returns `k`. */
  ghost function Hits<K>(options: Counter<K>, k: K): set<int>
  {
    set r: int | 1 <= r <= Total(options) && RandomChoice(options, r) == k
  }

  /** random_choice is weighted by the counts: of the Total(options) equally
      likely draws, exactly options[j].1 select the key at position j. */
  lemma ChoiceFrequency<K>(options: Counter<K>, j: nat)
    requires WellFormed(options) && j < |options|
    ensures |Hits(options, options[j].0)| == options[j].1
  {
    var hits := Hits(options, options[j].0);
    var block := Interval(Prefix(options, j), Prefix(options, j + 1));
    PrefixStep(options, j);
    forall r | r in block
      ensures r in hits
    {
      ChoiceIsFirst(options, r, j);
    }
    forall r | r in hits
      ensures r in block
    {
      ChoiceInBlock(options, j, r);
    }
    assert hits == block;
  }
}
