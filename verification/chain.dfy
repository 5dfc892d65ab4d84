/** The MarkovChain class of niemarkov.py: construction and add_path. */
module Markov {
  import opened Outcomes
  import opened Labels
  import opened Counters

  /** A state tuple: `order` consecutive states of a path. */
  type Window = seq<nat>

  /** `transitions`: from a state tuple to the insertion-ordered counts of
      the state tuples that followed it. */
  type Table = map<Window, Counter<Window>>

  /** A MarkovChain object: its five attributes. */
  datatype Chain = Chain(
    order: nat,
    symbols: Symbols,           // `labels` and `label_to_state`
    transitions: Table,
    initial: Counter<Window>)   // `initial_state_tuple`

  /** A state tuple of the right length whose states all exist. */
  predicate WindowOk(k: nat, n: nat, w: Window)
  {
    |w| == k && forall j :: 0 <= j < |w| ==> w[j] < n
  }

  /** `to` is `from` slid one step along a path: they overlap in all but one state. */
  predicate Slides(from: Window, to: Window)
  {
    |from| == |to| && 1 <= |to| && to[..|to| - 1] == from[1..]
  }

  ghost predicate InitialOk(k: nat, n: nat, initial: Counter<Window>)
  {
    && WellFormed(initial)
    && forall w :: w in Keys(initial) ==> WindowOk(k, n, w)
  }

  /** The entry of `transitions` for state tuple `f`: a non-empty, well
      formed table of the state tuples that followed `f` along some path. */
  ghost predicate EntryOk(k: nat, n: nat, f: Window, next: Counter<Window>)
  {
    && WindowOk(k, n, f)
    && WellFormed(next)
    && |next| > 0
    && forall x :: x in Keys(next) ==> WindowOk(k, n, x) && Slides(f, x)
  }

  ghost predicate TransitionsOk(k: nat, n: nat, t: Table)
  {
    forall f :: f in t ==> EntryOk(k, n, f, t[f])
  }

  /** The invariant of every chain the class can build: order at least 1,
      consistent interning tables, and count tables whose counts are
      positive, whose inner tables are non-empty, and whose state tuples have
      length `order`, name existing states and follow one another along a path. */
  ghost predicate Valid(c: Chain)
  {
    && c.order >= 1
    && Consistent(c.symbols)
    && InitialOk(c.order, |c.symbols.labels|, c.initial)
    && TransitionsOk(c.order, |c.symbols.labels|, c.transitions)
  }

  /** MarkovChain(order): refuses an order below 1, otherwise an empty chain. */
  function New(order: int): (r: Result<Chain>)
    ensures r.Ok? <==> order >= 1
    ensures r.Err? ==> r.error == InvalidOrder
    ensures r.Ok? ==> r.value.order == order && Valid(r.value)
    ensures r.Ok? ==> r.value.symbols.labels == [] && r.value.symbols.toState == map[]
                      && r.value.transitions == map[] && r.value.initial == []
  {
    if order < 1 then Err(InvalidOrder)
    else Ok(Chain(order, NoSymbols, map[], []))
  }

  /** The states of the labels of a path (`label_to_state[path[j]]`). */
  function StatesOf(s: Symbols, path: seq<Label>): (ids: seq<nat>)
    requires forall i :: 0 <= i < |path| ==> path[i] in s.toState
    ensures |ids| == |path|
    ensures forall i :: 0 <= i < |path| ==> ids[i] == s.toState[path[i]]
  {
    seq(|path|, i requires 0 <= i < |path| => s.toState[path[i]])
  }

  /** The labels of a state tuple (`[labels[state] for state in tup]`). */
  function LabelsOf(s: Symbols, w: Window): (ls: seq<Label>)
    requires forall j :: 0 <= j < |w| ==> w[j] < |s.labels|
    ensures |ls| == |w|
    ensures forall j :: 0 <= j < |w| ==> ls[j] == s.labels[w[j]]
  {
    seq(|w|, j requires 0 <= j < |w| => s.labels[w[j]])
  }

  /** Interning is a bijection: labels to states and back gives the path,
      and every state names a known label. */
  lemma StatesRoundTrip(s: Symbols, path: seq<Label>)
    requires Consistent(s)
    requires forall i :: 0 <= i < |path| ==> path[i] in s.toState
    ensures WindowOk(|path|, |s.labels|, StatesOf(s, path))
    ensures LabelsOf(s, StatesOf(s, path)) == path
  {
  }

  /** States to labels and back gives the state tuple. */
  lemma LabelsRoundTrip(s: Symbols, w: Window)
    requires Consistent(s)
    requires forall j :: 0 <= j < |w| ==> w[j] < |s.labels|
    ensures forall i :: 0 <= i < |w| ==> LabelsOf(s, w)[i] in s.toState
    ensures StatesOf(s, LabelsOf(s, w)) == w
  {
  }

  /** transitions[f][x], 0 when absent. */
  function Count(t: Table, f: Window, x: Window): nat
  {
    if f in t then Get(t[f], x) else 0
  }

  /** One transition of add_path: create the outer entry with {to: 1}, or
      increment the inner count. */
  function Bump(t: Table, from: Window, to: Window): Table
  {
    t[from := Increment(if from in t then t[from] else [], to)]
  }

  /** One transition adds 1 to the count of (from, to) and to no other count. */
  lemma BumpCount(t: Table, from: Window, to: Window, f: Window, x: Window)
    ensures Count(Bump(t, from, to), f, x) == Count(t, f, x) + (if f == from && x == to then 1 else 0)
  {
    if f == from {
      IncrementGet(if from in t then t[from] else [], to, x);
    }
  }

  /** The state tuple at offset `i` of a path's states (`tuple(ids[i:i+k])`). */
  function WindowAt(ids: seq<nat>, k: nat, i: nat): (w: Window)
    requires i + k <= |ids|
    ensures |w| == k
  {
    ids[i..i + k]
  }

  /** The transition loop of add_path for offsets 0 .. n-1, in that order. */
  function Slide(t: Table, ids: seq<nat>, k: nat, n: nat): (r: Table)
    requires n + k <= |ids|
    decreases n
  {
    if n == 0 then t
    else Bump(Slide(t, ids, k, n - 1), WindowAt(ids, k, n - 1), WindowAt(ids, k, n))
  }

  /** The counting half of add_path, once every label of the path has a
      state in `s`: the first state tuple is counted in `initial_state_tuple`
      and every transition between consecutive state tuples in `transitions`. */
  function Tally(c: Chain, s: Symbols, path: seq<Label>): (r: Chain)
    requires |path| > c.order
    requires forall i :: 0 <= i < |path| ==> path[i] in s.toState
    ensures r.order == c.order && r.symbols == s
  {
    var ids := StatesOf(s, path);
    Chain(c.order, s,
          Slide(c.transitions, ids, c.order, |path| - c.order),
          Increment(c.initial, WindowAt(ids, c.order, 0)))
  }

  /** add_path. It checks the length first, then interns the labels left to
      right (a TypeError leaves the labels interned so far in place and the
      count tables untouched), then counts. */
  function AddPath(c: Chain, path: seq<Label>): (r: Outcome<Chain>)
    ensures r.state.order == c.order
    ensures |path| <= c.order ==> r == Raised(c, InvalidPathLength)
    ensures r.Returned? <==> |path| > c.order && Rejected(c.symbols, path) == |path|
    ensures |path| > c.order && r.Raised? ==>
              && r.error == InvalidStateType
              && r.state.transitions == c.transitions
              && r.state.initial == c.initial
    ensures Extends(c.symbols, r.state.symbols)
    ensures |path| > c.order ==>
              r.state.symbols.toState.Keys == c.symbols.toState.Keys + Elems(path[..Rejected(c.symbols, path)])
    ensures r.Returned? ==> forall i :: 0 <= i < |path| ==> path[i] in r.state.symbols.toState
  {
    if |path| <= c.order then Raised(c, InvalidPathLength)
    else match InternAll(c.symbols, path)
      case Raised(s, e) => Raised(c.(symbols := s), e)
      case Returned(s) =>
        assert path[..Rejected(c.symbols, path)] == path;
        Returned(Tally(c, s, path))
  }

  /** The chain a successful add_path returns is the tally of the path over
      the interned labels. */
  lemma AcceptedState(c: Chain, path: seq<Label>)
    requires AddPath(c, path).Returned?
    ensures var r := AddPath(c, path).state;
      r == Tally(c, r.symbols, path) && r.symbols == InternAll(c.symbols, path).state
  {
  }

  /** Once the label loop succeeds, add_path counts the path over the new tables. */
  lemma AddAccepted(c: Chain, path: seq<Label>, s: Symbols)
    requires |path| > c.order && InternAll(c.symbols, path) == Returned(s)
    ensures forall i :: 0 <= i < |path| ==> path[i] in s.toState
    ensures AddPath(c, path) == Returned(Tally(c, s, path))
  {
    assert Rejected(c.symbols, path) == |path|;
    assert AddPath(c, path).Returned?;
    AcceptedState(c, path);
  }

  /** At offset `i` the path steps from state tuple `f` to state tuple `x`. */
  predicate StepsAt(ids: seq<nat>, k: nat, i: nat, f: Window, x: Window)
    requires i + 1 + k <= |ids|
  {
    WindowAt(ids, k, i) == f && WindowAt(ids, k, i + 1) == x
  }

  /** The offsets below `n` at which the path steps from `f` to `x`. */
  function Positions(ids: seq<nat>, k: nat, n: nat, f: Window, x: Window): set<nat>
    requires n + k <= |ids|
  {
    set i: nat | i < n && StepsAt(ids, k, i, f, x)
  }

  /** How many offsets below `n` step from `f` to `x`, counted one offset at a time. */
  function Occurrences(ids: seq<nat>, k: nat, n: nat, f: Window, x: Window): nat
    requires n + k <= |ids|
    decreases n
  {
    if n == 0 then 0
    else Occurrences(ids, k, n - 1, f, x) + (if StepsAt(ids, k, n - 1, f, x) then 1 else 0)
  }

  /** The count is the size of the set of offsets. */
  lemma {:induction false} OccurrencesArePositions(ids: seq<nat>, k: nat, n: nat, f: Window, x: Window)
    requires n + k <= |ids|
    ensures Occurrences(ids, k, n, f, x) == |Positions(ids, k, n, f, x)|
    decreases n
  {
    if n == 0 {
      assert Positions(ids, k, n, f, x) == {};
    } else {
      OccurrencesArePositions(ids, k, n - 1, f, x);
      PositionsStep(ids, k, n, f, x);
    }
  }

  /** Offset n - 1 is counted exactly when the path steps from `f` to `x` there. */
  lemma PositionsStep(ids: seq<nat>, k: nat, n: nat, f: Window, x: Window)
    requires 1 <= n && n + k <= |ids|
    ensures |Positions(ids, k, n, f, x)|
            == |Positions(ids, k, n - 1, f, x)| + (if StepsAt(ids, k, n - 1, f, x) then 1 else 0)
  {
    var before := Positions(ids, k, n - 1, f, x);
    var after := Positions(ids, k, n, f, x);
    var extra: set<nat> := if StepsAt(ids, k, n - 1, f, x) then {n - 1} else {};
    assert after == before + extra by {
      forall i | i in after
        ensures i in before + extra
      {
      }
      forall i | i in before + extra
        ensures i in after
      {
      }
    }
    assert n - 1 !in before;
  }

  /** The transition loop adds, to each count, the number of times the path
      makes that transition. */
  lemma {:induction false} SlideCount(t: Table, ids: seq<nat>, k: nat, n: nat, f: Window, x: Window)
    requires n + k <= |ids|
    ensures Count(Slide(t, ids, k, n), f, x) == Count(t, f, x) + Occurrences(ids, k, n, f, x)
    decreases n
  {
    if n > 0 {
      var prev := Slide(t, ids, k, n - 1);
      assert Slide(t, ids, k, n) == Bump(prev, WindowAt(ids, k, n - 1), WindowAt(ids, k, n));
      SlideCount(t, ids, k, n - 1, f, x);
      BumpCount(prev, WindowAt(ids, k, n - 1), WindowAt(ids, k, n), f, x);
    }
  }

  /** The transition table a tally leaves: the transition loop over the path's states `ids`. */
  lemma TallyTransitions(c: Chain, s: Symbols, path: seq<Label>, ids: seq<nat>)
    requires |path| > c.order
    requires forall i :: 0 <= i < |path| ==> path[i] in s.toState
    requires ids == StatesOf(s, path)
    ensures Tally(c, s, path).transitions == Slide(c.transitions, ids, c.order, |path| - c.order)
  {
  }

  /** Tallying a path counts its first state tuple once more. */
  lemma TallyInitial(c: Chain, s: Symbols, path: seq<Label>, w: Window)
    requires |path| > c.order
    requires forall i :: 0 <= i < |path| ==> path[i] in s.toState
    ensures Get(Tally(c, s, path).initial, w)
            == Get(c.initial, w) + (if w == WindowAt(StatesOf(s, path), c.order, 0) then 1 else 0)
  {
    IncrementGet(c.initial, WindowAt(StatesOf(s, path), c.order, 0), w);
  }

  /** Tallying a path adds to a transition count the number of times the path makes it. */
  lemma TallyCount(c: Chain, s: Symbols, path: seq<Label>, f: Window, x: Window)
    requires |path| > c.order
    requires forall i :: 0 <= i < |path| ==> path[i] in s.toState
    ensures Count(Tally(c, s, path).transitions, f, x)
            == Count(c.transitions, f, x) + Occurrences(StatesOf(s, path), c.order, |path| - c.order, f, x)
  {
    SlideCount(c.transitions, StatesOf(s, path), c.order, |path| - c.order, f, x);
  }

  /** Some outer key of a non-empty table. */
  ghost function Pick(t: Table): (f: Window)
    requires |t| > 0
    ensures f in t
  {
    var f :| f in t; f
  }

  /** The sum of all transition counts of a table. */
  ghost function Flow(t: Table): nat
    decreases |t|
  {
    if |t| == 0 then 0
    else
      var f := Pick(t);
      Total(t[f]) + Flow(t - {f})
  }

  /** The sum does not depend on which key is taken out first. */
  lemma {:induction false} FlowRemove(t: Table, f: Window)
    requires f in t
    ensures Flow(t) == Total(t[f]) + Flow(t - {f})
    decreases |t|
  {
    var g := Pick(t);
    if g != f {
      FlowRemove(t - {g}, f);
      FlowRemove(t - {f}, g);
      assert t - {g} - {f} == t - {f} - {g};
    }
  }

  /** Away from `from`, a transition leaves the table as it was. */
  lemma BumpElsewhere(t: Table, from: Window, to: Window)
    ensures Bump(t, from, to) - {from} == t - {from}
  {
  }

  /** One transition adds exactly 1 to the sum of all transition counts. */
  lemma BumpFlow(t: Table, from: Window, to: Window)
    ensures Flow(Bump(t, from, to)) == Flow(t) + 1
  {
    var r := Bump(t, from, to);
    var before: Counter<Window> := if from in t then t[from] else [];
    IncrementTotal(before, to);
    BumpElsewhere(t, from, to);
    FlowRemove(r, from);
    if from in t {
      FlowRemove(t, from);
    } else {
      assert t - {from} == t;
    }
  }

  /** The transition loop over n offsets adds exactly n to the sum of all counts. */
  lemma {:induction false} SlideFlow(t: Table, ids: seq<nat>, k: nat, n: nat)
    requires n + k <= |ids|
    ensures Flow(Slide(t, ids, k, n)) == Flow(t) + n
    decreases n
  {
    if n > 0 {
      var prev := Slide(t, ids, k, n - 1);
      var from := WindowAt(ids, k, n - 1);
      var to := WindowAt(ids, k, n);
      assert Slide(t, ids, k, n) == Bump(prev, from, to);
      SlideFlow(t, ids, k, n - 1);
      BumpFlow(prev, from, to);
    }
  }

  /** The states add_path gives the labels of a path it accepted. */
  function PathStates(c: Chain, path: seq<Label>): (ids: seq<nat>)
    requires AddPath(c, path).Returned?
    ensures |ids| == |path|
  {
    StatesOf(AddPath(c, path).state.symbols, path)
  }

  /** A successful add_path counts the path's first state tuple once more in
      `initial_state_tuple` and changes no other initial count. */
  lemma AddPathInitial(c: Chain, path: seq<Label>)
    requires AddPath(c, path).Returned?
    ensures var r := AddPath(c, path).state;
      && (forall w :: Get(r.initial, w) == Get(c.initial, w) + (if w == PathStates(c, path)[..c.order] then 1 else 0))
      && Total(r.initial) == Total(c.initial) + 1
  {
    AcceptedState(c, path);
    var r := AddPath(c, path).state;
    forall w
      ensures Get(r.initial, w) == Get(c.initial, w) + (if w == PathStates(c, path)[..c.order] then 1 else 0)
    {
      TallyInitial(c, r.symbols, path, w);
    }
    IncrementTotal(c.initial, PathStates(c, path)[..c.order]);
  }

  /** A successful add_path adds to each transition count the number of
      offsets i < |path| - order at which the path steps from state tuple
      ids[i..i+order] to ids[i+1..i+1+order]. */
  lemma AddPathTransitions(c: Chain, path: seq<Label>)
    requires AddPath(c, path).Returned?
    ensures var r := AddPath(c, path).state;
      forall f, x :: Count(r.transitions, f, x)
                     == Count(c.transitions, f, x) + |Positions(PathStates(c, path), c.order, |path| - c.order, f, x)|
  {
    AcceptedState(c, path);
    var r := AddPath(c, path).state;
    forall f, x
      ensures Count(r.transitions, f, x)
              == Count(c.transitions, f, x) + |Positions(PathStates(c, path), c.order, |path| - c.order, f, x)|
    {
      TallyCount(c, r.symbols, path, f, x);
      OccurrencesArePositions(PathStates(c, path), c.order, |path| - c.order, f, x);
    }
  }

  /** A successful add_path on a path of length n adds exactly n - order to
      the sum of all transition counts. */
  lemma AddPathFlow(c: Chain, path: seq<Label>)
    requires AddPath(c, path).Returned?
    ensures Flow(AddPath(c, path).state.transitions) == Flow(c.transitions) + |path| - c.order
  {
    AcceptedState(c, path);
    var r := AddPath(c, path).state;
    TallyFlow(c, r.symbols, path);
  }

  lemma TallyFlow(c: Chain, s: Symbols, path: seq<Label>)
    requires |path| > c.order
    requires forall i :: 0 <= i < |path| ==> path[i] in s.toState
    ensures Flow(Tally(c, s, path).transitions) == Flow(c.transitions) + |path| - c.order
  {
    var ids := StatesOf(s, path);
    assert Tally(c, s, path).transitions == Slide(c.transitions, ids, c.order, |path| - c.order);
    SlideFlow(c.transitions, ids, c.order, |path| - c.order);
  }

  /** Adding states to the chain keeps old state tuples valid. */
  lemma TablesGrow(k: nat, n: nat, n': nat, initial: Counter<Window>, t: Table)
    requires n <= n'
    requires InitialOk(k, n, initial) && TransitionsOk(k, n, t)
    ensures InitialOk(k, n', initial) && TransitionsOk(k, n', t)
  {
  }

  /** One transition between consecutive state tuples keeps the table valid. */
  lemma BumpOk(k: nat, n: nat, t: Table, from: Window, to: Window)
    requires TransitionsOk(k, n, t)
    requires WindowOk(k, n, from) && WindowOk(k, n, to) && Slides(from, to)
    ensures TransitionsOk(k, n, Bump(t, from, to))
  {
    var r := Bump(t, from, to);
    if from in t {
      EntryIncrement(k, n, from, t[from], to);
    } else {
      KeysCons(r[from]);
      assert Keys(r[from]) == {to};
    }
    assert EntryOk(k, n, from, r[from]);
  }

  /** Counting one more successor of `f` keeps its entry valid. */
  lemma EntryIncrement(k: nat, n: nat, f: Window, next: Counter<Window>, to: Window)
    requires EntryOk(k, n, f, next)
    requires WindowOk(k, n, to) && Slides(f, to)
    ensures EntryOk(k, n, f, Increment(next, to))
  {
    IncrementWellFormed(next, to);
  }


  /** Consecutive state tuples of a path overlap in all but one state. */
  lemma WindowsSlide(ids: seq<nat>, k: nat, i: nat)
    requires k >= 1 && i + 1 + k <= |ids|
    ensures Slides(WindowAt(ids, k, i), WindowAt(ids, k, i + 1))
  {
    assert WindowAt(ids, k, i + 1)[..k - 1] == ids[i + 1..i + k] == WindowAt(ids, k, i)[1..];
  }

  /** The transition loop over a path whose states exist keeps the table valid. */
  lemma {:induction false} SlideOk(k: nat, n: nat, t: Table, ids: seq<nat>, m: nat)
    requires k >= 1 && m + k <= |ids|
    requires forall i :: 0 <= i < |ids| ==> ids[i] < n
    requires TransitionsOk(k, n, t)
    ensures TransitionsOk(k, n, Slide(t, ids, k, m))
    decreases m
  {
    if m > 0 {
      var prev := Slide(t, ids, k, m - 1);
      var from := WindowAt(ids, k, m - 1);
      var to := WindowAt(ids, k, m);
      assert Slide(t, ids, k, m) == Bump(prev, from, to);
      SlideOk(k, n, t, ids, m - 1);
      WindowsSlide(ids, k, m - 1);
      assert WindowOk(k, n, from) && WindowOk(k, n, to);
      BumpOk(k, n, prev, from, to);
    }
  }


  /** Counting one more valid initial state tuple keeps the initial table valid. */
  lemma IncrementInitialOk(k: nat, n: nat, initial: Counter<Window>, w: Window)
    requires InitialOk(k, n, initial) && WindowOk(k, n, w)
    ensures InitialOk(k, n, Increment(initial, w))
  {
    IncrementWellFormed(initial, w);
  }

  /** The counting half of add_path, on labels already interned, keeps the chain valid. */
  lemma TallyValid(c: Chain, s: Symbols, path: seq<Label>)
    requires Valid(c) && Consistent(s) && |c.symbols.labels| <= |s.labels|
    requires |path| > c.order
    requires forall i :: 0 <= i < |path| ==> path[i] in s.toState
    ensures Valid(Tally(c, s, path))
  {
    TablesGrow(c.order, |c.symbols.labels|, |s.labels|, c.initial, c.transitions);
    TallyInitialOk(c, s, path);
    TallyTransitionsOk(c, s, path);
  }

  lemma TallyInitialOk(c: Chain, s: Symbols, path: seq<Label>)
    requires Consistent(s) && InitialOk(c.order, |s.labels|, c.initial)
    requires |path| > c.order
    requires forall i :: 0 <= i < |path| ==> path[i] in s.toState
    ensures InitialOk(c.order, |s.labels|, Tally(c, s, path).initial)
  {
    var ids := StatesOf(s, path);
    StatesRoundTrip(s, path);
    var first := WindowAt(ids, c.order, 0);
    assert WindowOk(c.order, |s.labels|, first);
    IncrementInitialOk(c.order, |s.labels|, c.initial, first);
    assert Tally(c, s, path).initial == Increment(c.initial, first);
  }

  lemma TallyTransitionsOk(c: Chain, s: Symbols, path: seq<Label>)
    requires c.order >= 1 && Consistent(s) && TransitionsOk(c.order, |s.labels|, c.transitions)
    requires |path| > c.order
    requires forall i :: 0 <= i < |path| ==> path[i] in s.toState
    ensures TransitionsOk(c.order, |s.labels|, Tally(c, s, path).transitions)
  {
    var ids := StatesOf(s, path);
    StatesRoundTrip(s, path);
    SlideOk(c.order, |s.labels|, c.transitions, ids, |path| - c.order);
    assert Tally(c, s, path).transitions == Slide(c.transitions, ids, c.order, |path| - c.order);
  }


  lemma AcceptedValid(c: Chain, path: seq<Label>)
    requires Valid(c) && AddPath(c, path).Returned?
    ensures Valid(AddPath(c, path).state)
  {
    AcceptedState(c, path);
    TallyValid(c, AddPath(c, path).state.symbols, path);
  }

  lemma RejectedValid(c: Chain, path: seq<Label>)
    requires Valid(c) && |path| > c.order && AddPath(c, path).Raised?
    ensures Valid(AddPath(c, path).state)
  {
    var s := InternAll(c.symbols, path).state;
    TablesGrow(c.order, |c.symbols.labels|, |s.labels|, c.initial, c.transitions);
  }

  /** add_path, whether it returns or raises, leaves a valid chain valid:
      counts stay positive, inner tables non-empty, and every state tuple
      has length `order` and names states below len(labels). */
  lemma AddPathValid(c: Chain, path: seq<Label>)
    requires Valid(c)
    ensures Valid(AddPath(c, path).state)
  {
    if |path| > c.order {
      if AddPath(c, path).Returned? {
        AcceptedValid(c, path);
      } else {
        RejectedValid(c, path);
      }
    }
  }

  /** The chain after a sequence of add_path calls on a new chain, whatever
      each call returned or raised. */
  function Build(c: Chain, paths: seq<seq<Label>>): Chain
    decreases |paths|
  {
    if paths == [] then c else Build(AddPath(c, paths[0]).state, paths[1..])
  }

  /** Every chain the class can reach is valid. */
  lemma {:induction false} BuildValid(order: int, paths: seq<seq<Label>>)
    requires New(order).Ok?
    ensures Valid(Build(New(order).value, paths))
  {
    BuildValidFrom(New(order).value, paths);
  }

  lemma {:induction false} BuildValidFrom(c: Chain, paths: seq<seq<Label>>)
    requires Valid(c)
    ensures Valid(Build(c, paths))
    decreases |paths|
  {
    if paths != [] {
      AddPathValid(c, paths[0]);
      BuildValidFrom(AddPath(c, paths[0]).state, paths[1..]);
    }
  }

  /** A long enough path of already known labels is accepted and interns nothing. */
  lemma AddPathKnown(c: Chain, path: seq<Label>)
    requires |path| > c.order
    requires forall i :: 0 <= i < |path| ==> path[i] in c.symbols.toState
    ensures AddPath(c, path) == Returned(Tally(c, c.symbols, path))
  {
    InternAllKnown(c.symbols, path);
  }

  /** Counting two paths in either order gives the same initial count for `w`. */
  lemma TallyInitialCommutes(c: Chain, p: seq<Label>, q: seq<Label>, w: Window)
    requires |p| > c.order && |q| > c.order
    requires forall i :: 0 <= i < |p| ==> p[i] in c.symbols.toState
    requires forall i :: 0 <= i < |q| ==> q[i] in c.symbols.toState
    ensures var s := c.symbols;
      Get(Tally(Tally(c, s, p), s, q).initial, w) == Get(Tally(Tally(c, s, q), s, p).initial, w)
  {
    var s := c.symbols;
    TallyInitial(c, s, p, w);
    TallyInitial(c, s, q, w);
    TallyInitial(Tally(c, s, p), s, q, w);
    TallyInitial(Tally(c, s, q), s, p, w);
  }

  /** Counting two paths in either order gives the same count for the transition (f, x). */
  lemma TallyCountCommutes(c: Chain, p: seq<Label>, q: seq<Label>, f: Window, x: Window)
    requires |p| > c.order && |q| > c.order
    requires forall i :: 0 <= i < |p| ==> p[i] in c.symbols.toState
    requires forall i :: 0 <= i < |q| ==> q[i] in c.symbols.toState
    ensures var s := c.symbols;
      Count(Tally(Tally(c, s, p), s, q).transitions, f, x) == Count(Tally(Tally(c, s, q), s, p).transitions, f, x)
  {
    var s := c.symbols;
    var k := c.order;
    var ip := StatesOf(s, p);
    var iq := StatesOf(s, q);
    TallyTransitions(c, s, p, ip);
    TallyTransitions(c, s, q, iq);
    TallyTransitions(Tally(c, s, p), s, q, iq);
    TallyTransitions(Tally(c, s, q), s, p, ip);
    SlideCommutes(c.transitions, ip, |p| - k, iq, |q| - k, k, f, x);
  }

  /** The transition loops of two paths, run in either order, give the same count. */
  lemma SlideCommutes(t: Table, ip: seq<nat>, np: nat, iq: seq<nat>, nq: nat, k: nat, f: Window, x: Window)
    requires np + k <= |ip| && nq + k <= |iq|
    ensures Count(Slide(Slide(t, ip, k, np), iq, k, nq), f, x) == Count(Slide(Slide(t, iq, k, nq), ip, k, np), f, x)
  {
    SlideCount(t, ip, k, np, f, x);
    SlideCount(t, iq, k, nq, f, x);
    SlideCount(Slide(t, ip, k, np), iq, k, nq, f, x);
    SlideCount(Slide(t, iq, k, nq), ip, k, np, f, x);
  }

  /** Counting commutes: once their labels are known, adding two paths in
      either order gives the same counts for every state tuple and transition. */
  lemma AddPathCommutes(c: Chain, p: seq<Label>, q: seq<Label>)
    requires |p| > c.order && |q| > c.order
    requires forall i :: 0 <= i < |p| ==> p[i] in c.symbols.toState
    requires forall i :: 0 <= i < |q| ==> q[i] in c.symbols.toState
    ensures AddPath(c, p).Returned? && AddPath(AddPath(c, p).state, q).Returned?
    ensures AddPath(c, q).Returned? && AddPath(AddPath(c, q).state, p).Returned?
    ensures var pq := AddPath(AddPath(c, p).state, q).state;
            var qp := AddPath(AddPath(c, q).state, p).state;
      && pq.symbols == qp.symbols == c.symbols
      && (forall w :: Get(pq.initial, w) == Get(qp.initial, w))
      && (forall f, x :: Count(pq.transitions, f, x) == Count(qp.transitions, f, x))
  {
    var s := c.symbols;
    var cp := Tally(c, s, p);
    var cq := Tally(c, s, q);
    assert cp.symbols == s && cq.symbols == s;
    AddPathKnown(c, p);
    AddPathKnown(c, q);
    AddPathKnown(cp, q);
    AddPathKnown(cq, p);
    assert AddPath(AddPath(c, p).state, q).state == Tally(cp, s, q);
    assert AddPath(AddPath(c, q).state, p).state == Tally(cq, s, p);
    forall w
      ensures Get(Tally(cp, s, q).initial, w) == Get(Tally(cq, s, p).initial, w)
    {
      TallyInitialCommutes(c, p, q, w);
    }
    forall f, x
      ensures Count(Tally(cp, s, q).transitions, f, x) == Count(Tally(cq, s, p).transitions, f, x)
    {
      TallyCountCommutes(c, p, q, f, x);
    }
  }
}
