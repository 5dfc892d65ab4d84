/** State labels and their interning into dense integer states
    (`labels`, `label_to_state` and `check_state_type` of niemarkov.py). */
module Labels {
  import opened Outcomes

  /** A state label. Python accepts values of type `str` and `int`; `Other`
      stands for a value of any other type, which the chain refuses. */
  datatype Label = Str(s: string) | Int(i: int) | Other

  /** The types in ALLOWED_STATE_TYPES. */
  predicate Allowed(l: Label)
  {
    l.Str? || l.Int?
  }

  /** check_state_type: `None` when the label may be interned, the TypeError otherwise. */
  function CheckStateType(l: Label): (r: Option<Error>)
    ensures r.None? <==> Allowed(l)
    ensures r.Some? ==> r.value == InvalidStateType
  {
    if Allowed(l) then None else Some(InvalidStateType)
  }

  /** The set of elements of a sequence. */
  function Elems<T>(s: seq<T>): set<T>
  {
    set x | x in s
  }

  /** The interning tables: `labels[i]` labels state `i`, `toState` is the reverse map. */
  datatype Symbols = Symbols(labels: seq<Label>, toState: map<Label, nat>)

  /** The tables of a freshly built chain. */
  const NoSymbols := Symbols([], map[])

  /** `labels` and `toState` are mutually inverse, the states are exactly
      0 .. |labels|-1, and only allowed labels were ever interned. */
  ghost predicate Consistent(s: Symbols)
  {
    && (forall i :: 0 <= i < |s.labels| ==> s.labels[i] in s.toState && s.toState[s.labels[i]] == i)
    && (forall l :: l in s.toState ==> s.toState[l] < |s.labels| && s.labels[s.toState[l]] == l)
    && (forall i :: 0 <= i < |s.labels| ==> Allowed(s.labels[i]))
  }

  /** `s'` grew from `s`: no label lost or renumbered. */
  ghost predicate Extends(s: Symbols, s': Symbols)
  {
    && |s.labels| <= |s'.labels|
    && s'.labels[..|s.labels|] == s.labels
    && (forall l :: l in s.toState ==> l in s'.toState && s'.toState[l] == s.toState[l])
  }

  lemma ExtendsTransitive(s: Symbols, s': Symbols, s'': Symbols)
    requires Extends(s, s') && Extends(s', s'')
    ensures Extends(s, s'')
  {
    assert s''.labels[..|s.labels|] == s''.labels[..|s'.labels|][..|s.labels|];
  }

  /** One iteration of the label loop of add_path: a label already present
      keeps its state; a new label is type-checked, then gets the next state. */
  function Intern(s: Symbols, l: Label): (r: Outcome<Symbols>)
    ensures r.Raised? <==> l !in s.toState && !Allowed(l)
    ensures r.Raised? ==> r.state == s && r.error == InvalidStateType
    ensures l in s.toState ==> r == Returned(s)
    ensures r.Returned? ==> l in r.state.toState && Extends(s, r.state)
    ensures r.Returned? ==> r.state.toState.Keys == s.toState.Keys + {l}
    ensures r.Returned? && l !in s.toState ==>
              r.state.toState[l] == |s.labels| && |r.state.labels| == |s.labels| + 1
    ensures Consistent(s) ==> Consistent(r.state)
  {
    if l in s.toState then Returned(s)
    else match CheckStateType(l)
      case Some(e) => Raised(s, e)
      case None => Returned(Symbols(s.labels + [l], s.toState[l := |s.labels|]))
  }

  /** Position of the first label of `path` that is neither known to `s` nor
      of an allowed type; |path| when every label is acceptable. */
  function Rejected(s: Symbols, path: seq<Label>): (j: nat)
    ensures j <= |path|
    ensures forall i :: 0 <= i < j ==> path[i] in s.toState || Allowed(path[i])
    ensures j < |path| ==> path[j] !in s.toState && !Allowed(path[j])
  {
    if path == [] then 0
    else if path[0] !in s.toState && !Allowed(path[0]) then 0
    else 1 + Rejected(s, path[1..])
  }

  /** Interning an acceptable label does not change which later label is rejected. */
  lemma {:induction false} RejectedStable(s: Symbols, s': Symbols, a: Label, p: seq<Label>)
    requires s'.toState.Keys == s.toState.Keys + {a}
    requires a in s.toState || Allowed(a)
    ensures Rejected(s', p) == Rejected(s, p)
    decreases |p|
  {
    if p != [] {
      RejectedStable(s, s', a, p[1..]);
    }
  }

  /** After an accepted first label, the rejected position moves back by one. */
  lemma RejectedAfterFirst(s: Symbols, s': Symbols, path: seq<Label>)
    requires path != [] && Intern(s, path[0]) == Returned(s')
    ensures Rejected(s', path[1..]) + 1 == Rejected(s, path)
  {
    RejectedStable(s, s', path[0], path[1..]);
  }

  /** The labels the loop interns after the first one, together with those
      the first step added, are the labels it interns from the start. */
  lemma InternedAfterFirst(s: Symbols, s': Symbols, path: seq<Label>)
    requires path != [] && Intern(s, path[0]) == Returned(s')
    ensures s'.toState.Keys + Elems(path[1..][..Rejected(s', path[1..])])
         == s.toState.Keys + Elems(path[..Rejected(s, path)])
  {
    RejectedAfterFirst(s, s', path);
    var n := Rejected(s', path[1..]);
    var later := Elems(path[1..][..n]);
    PrefixCons(path, n);
    ElemsCons(path[0], path[1..][..n]);
    assert Elems(path[..Rejected(s, path)]) == {path[0]} + later;
    assert s'.toState.Keys == s.toState.Keys + {path[0]};
  }

  lemma PrefixCons<T>(t: seq<T>, n: nat)
    requires n < |t|
    ensures t[..n + 1] == [t[0]] + t[1..][..n]
  {
  }

  lemma ElemsCons<T>(a: T, t: seq<T>)
    ensures Elems([a] + t) == {a} + Elems(t)
  {
    assert forall x :: x in [a] + t <==> x == a || x in t;
  }

  /** The whole label loop of add_path, left to right, stopping at the first TypeError. */
  function InternAll(s: Symbols, path: seq<Label>): (r: Outcome<Symbols>)
    ensures r.Raised? <==> Rejected(s, path) < |path|
    ensures r.Raised? ==> r.error == InvalidStateType
    ensures Extends(s, r.state)
    ensures r.state.toState.Keys == s.toState.Keys + Elems(path[..Rejected(s, path)])
    ensures Consistent(s) ==> Consistent(r.state)
    decreases |path|
  {
    if path == [] then Returned(s)
    else match Intern(s, path[0])
      case Raised(s', e) => Raised(s', e)
      case Returned(s') =>
        RejectedAfterFirst(s, s', path);
        InternedAfterFirst(s, s', path);
        var r := InternAll(s', path[1..]);
        ExtendsTransitive(s, s', r.state);
        r
  }

  /** When every label of the path is already known, interning changes nothing. */
  lemma {:induction false} InternAllKnown(s: Symbols, path: seq<Label>)
    requires forall i :: 0 <= i < |path| ==> path[i] in s.toState
    ensures InternAll(s, path) == Returned(s)
    decreases |path|
  {
    if path != [] {
      InternAllKnown(s, path[1..]);
    }
  }

  /** A sequence without repeated elements has as many elements as its set. */
  lemma {:induction false} DistinctCard<T>(s: seq<T>)
    requires forall i, j :: 0 <= i < j < |s| ==> s[i] != s[j]
    ensures |Elems(s)| == |s|
    decreases |s|
  {
    if s != [] {
      DistinctCard(s[1..]);
      assert Elems(s) == {s[0]} + Elems(s[1..]);
      assert s[0] !in Elems(s[1..]);
    }
  }

  /** The number of states equals the number of distinct labels interned so far. */
  lemma StateCount(s: Symbols)
    requires Consistent(s)
    ensures |s.labels| == |s.toState.Keys|
  {
    forall i, j | 0 <= i < j < |s.labels|
      ensures s.labels[i] != s.labels[j]
    {
      assert s.toState[s.labels[i]] == i;
    }
    DistinctCard(s.labels);
    assert Elems(s.labels) == s.toState.Keys;
  }

  /** After a successful label loop the chain has one state per distinct
      label seen so far: the old ones plus those of the path. */
  lemma InternAllCount(s: Symbols, path: seq<Label>)
    requires Consistent(s)
    requires InternAll(s, path).Returned?
    ensures var s' := InternAll(s, path).state;
      |s'.labels| == |s.toState.Keys + Elems(path)|
  {
    var s' := InternAll(s, path).state;
    assert Rejected(s, path) == |path|;
    assert path[..|path|] == path;
    assert s'.toState.Keys == s.toState.Keys + Elems(path);
    StateCount(s');
  }
}
