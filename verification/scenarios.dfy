/** Concrete runs of the chain: small paths worked through add_path and
    generate_path. */
module Scenarios {
  import opened Outcomes
  import opened Labels
  import opened Counters
  import opened Markov
  import opened Generation

  const A := Str("a")
  const B := Str("b")

  /** A new label of a refused type raises a TypeError, but the labels
      interned before it stay interned; the count tables are untouched. */
  lemma TypeErrorIsNotAtomic()
    ensures var r := AddPath(New(1).value, [A, Other]);
      && r.Raised? && r.error == InvalidStateType
      && r.state.symbols.labels == [A]
      && r.state.symbols.toState == map[A := 0]
      && r.state.initial == [] && r.state.transitions == map[]
  {
    var c := New(1).value;
    var s1 := Symbols([A], map[A := 0]);
    assert Intern(c.symbols, A) == Returned(s1);
    assert Intern(s1, Other) == Raised(s1, InvalidStateType);
    assert InternAll(s1, [Other]) == Raised(s1, InvalidStateType);
    assert InternAll(c.symbols, [A, Other]) == Raised(s1, InvalidStateType);
  }

  /** A path no longer than the order raises a ValueError and changes nothing. */
  lemma ShortPathRaises()
    ensures var c := New(2).value;
      AddPath(c, [A, B]) == Raised(c, InvalidPathLength)
  {
  }

  const AB := Symbols([A, B], map[A := 0, B := 1])

  /** One new label taken by the label loop. */
  lemma InternNew(s: Symbols, l: Label, rest: seq<Label>, s': Symbols)
    requires l !in s.toState && Allowed(l)
    requires s'.labels == s.labels + [l] && s'.toState == s.toState[l := |s.labels|]
    ensures InternAll(s, [l] + rest) == InternAll(s', rest)
  {
    assert ([l] + rest)[1..] == rest;
    assert Intern(s, l) == Returned(s');
  }

  lemma InternAB()
    ensures InternAll(NoSymbols, [A, B]) == Returned(AB)
  {
    var s1 := Symbols([A], map[A := 0]);
    assert A != B;
    InternNew(NoSymbols, A, [B], s1);
    InternNew(s1, B, [], AB);
    assert [A, B] == [A] + [B] && [B] == [B] + [];
  }

  /** A transition out of a state tuple not yet in the table creates its entry. */
  lemma BumpNew(t: Table, from: Window, to: Window)
    requires from !in t
    ensures Bump(t, from, to) == t[from := [(to, 1)]]
  {
  }

  /** A transition out of a known state tuple increments its inner count. */
  lemma BumpOld(t: Table, from: Window, to: Window)
    requires from in t
    ensures Bump(t, from, to) == t[from := Increment(t[from], to)]
  {
  }

  /** The tally of a two-label path in a chain of order 1. */
  lemma TallyPair(c: Chain, s: Symbols, x: Label, y: Label)
    requires c.order == 1 && x in s.toState && y in s.toState
    ensures var f := [s.toState[x]];
            var t := [s.toState[y]];
      Tally(c, s, [x, y]) == Chain(1, s, Bump(c.transitions, f, t), Increment(c.initial, f))
  {
    var ids := StatesOf(s, [x, y]);
    assert ids == [s.toState[x], s.toState[y]];
    assert WindowAt(ids, 1, 0) == [s.toState[x]] && WindowAt(ids, 1, 1) == [s.toState[y]];
  }

  /** The chain of order 1 after add_path([a, b]). */
  const Once := Chain(1, AB, map[[0] := [([1], 1)]], [([0], 1)])

  /** The chain of order 1 after add_path([a, b]) twice. */
  const Twice := Chain(1, AB, map[[0] := [([1], 2)]], [([0], 2)])

  lemma AddOnce()
    ensures AddPath(New(1).value, [A, B]) == Returned(Once)
  {
    var c := New(1).value;
    InternAB();
    assert A != B;
    assert AB.toState[A] == 0 && AB.toState[B] == 1;
    AddAccepted(c, [A, B], AB);
    TallyPair(c, AB, A, B);
    BumpNew(map[], [0], [1]);
    assert Increment([], [0]) == [([0], 1)];
  }

  /** Adding the same path again interns nothing and raises both counts to 2. */
  lemma AddTwice()
    ensures AddPath(Once, [A, B]) == Returned(Twice)
  {
    assert A != B;
    assert AB.toState[A] == 0 && AB.toState[B] == 1;
    AddPathKnown(Once, [A, B]);
    TallyPair(Once, AB, A, B);
    BumpOld(Once.transitions, [0], [1]);
    assert Increment([([1], 1)], [1]) == [([1], 2)];
    assert Increment([([0], 1)], [0]) == [([0], 2)];
    assert Once.transitions[[0] := [([1], 2)]] == Twice.transitions;
  }

  lemma TwiceValid()
    ensures Valid(Twice)
  {
    AddOnce();
    AddTwice();
    AddPathValid(New(1).value, [A, B]);
    AddPathValid(Once, [A, B]);
  }

  /** A draw of 0 is randint's lowest value, 1, and picks the first key. */
  lemma SampleZero(options: Counter<Window>)
    requires |options| > 0 && options[0].1 >= 1
    ensures Total(options) >= 1 && Sample(options, 0) == options[0].0
  {
    PrefixStep(options, 0);
    ChoiceIsFirst(options, 1, 0);
  }

  /** The generator whose every raw draw is 0. */
  const Zeros: nat -> nat := (i: nat) => 0

  /** generate_path on the chain of "a b" reproduces the path: it starts at
      "a", follows the only transition to "b", and stops there because no
      transition leaves "b". */
  lemma GenerateAB(maxLen: nat)
    requires maxLen >= 2
    ensures Valid(Twice) && Generate(Twice, Zeros, maxLen) == Ok([A, B])
  {
    TwiceValid();
    SampleZero([([0], 2)]);
    SampleZero([([1], 2)]);
    assert LabelsOf(AB, [0]) == [A];
    assert Zeros(0) == 0 && Zeros(1) == 0;
    assert [1] !in Twice.transitions;
    assert [A] + [AB.labels[1]] == [A, B];
    assert Walk(Twice, [1], [A, B], Zeros, 2, maxLen) == [A, B];
    assert Walk(Twice, [0], [A], Zeros, 1, maxLen) == [A, B];
  }

  /** With max_len 1 the output is only the initial state tuple's labels. */
  lemma GenerateCut()
    ensures Valid(Twice) && Generate(Twice, Zeros, 1) == Ok([A])
  {
    TwiceValid();
    SampleZero([([0], 2)]);
    assert LabelsOf(AB, [0]) == [A];
  }

  /** An empty chain has nothing to start from: randint(1, 0) raises. */
  lemma GenerateEmpty()
    ensures Generate(New(3).value, Zeros, 10) == Err(EmptyRange)
  {
  }
}
