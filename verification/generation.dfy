/** generate_path of niemarkov.py. The module-level random generator is
    replaced by `rng`: rng(i) is the raw value behind the i-th call of
    randint during one generation. */
module Generation {
  import opened Outcomes
  import opened Labels
  import opened Counters
  import opened Markov

  /** randint(1, total) driven by the raw value `d`. Every outcome in
      [1, total] comes from some `d` (see RandintOnto), so the draws `rng`
      can produce are exactly those randint can. */
  function Randint(total: nat, d: nat): (r: int)
    requires total >= 1
    ensures 1 <= r <= total
  {
    1 + d % total
  }

  lemma RandintOnto(total: nat, r: int)
    requires 1 <= r <= total
    ensures Randint(total, r - 1) == r
  {
  }

  /** random_choice(options) with its draw taken from `d`. */
  function Sample(options: Counter<Window>, d: nat): (w: Window)
    requires Total(options) >= 1
    ensures w in Keys(options)
  {
    RandomChoice(options, Randint(Total(options), d))
  }

  function Max(a: int, b: int): int
  {
    if a < b then b else a
  }

  /** The loop of generate_path from state tuple `cur` with output `path` so
      far; `step` counts the draws made so far. It stops once the path is
      `maxLen` long or `cur` has no outgoing transitions. */
  function Walk(c: Chain, cur: Window, path: seq<Label>, rng: nat -> nat, step: nat, maxLen: nat): (out: seq<Label>)
    requires Valid(c) && WindowOk(c.order, |c.symbols.labels|, cur)
    ensures |path| <= |out| <= Max(|path|, maxLen)
    ensures out[..|path|] == path
    decreases maxLen - |path|
  {
    if |path| >= maxLen then path
    else if cur !in c.transitions then path
    else
      var next := Sample(c.transitions[cur], rng(step));
      Walk(c, next, path + [c.symbols.labels[next[c.order - 1]]], rng, step + 1, maxLen)
  }

  /** generate_path(max_len). An empty chain raises, as randint(1, 0) does;
      otherwise the output starts with the labels of a sampled initial state
      tuple and is never longer than max(order, max_len). */
  function Generate(c: Chain, rng: nat -> nat, maxLen: nat): (r: Result<seq<Label>>)
    requires Valid(c)
    ensures r.Err? <==> |c.initial| == 0
    ensures r.Err? ==> r.error == EmptyRange
    ensures r.Ok? ==> c.order <= |r.value| <= Max(c.order, maxLen)
    ensures r.Ok? ==> exists w :: w in Keys(c.initial) && r.value[..c.order] == LabelsOf(c.symbols, w)
  {
    if |c.initial| == 0 then Err(EmptyRange)
    else
      var first := Sample(c.initial, rng(0));
      var seed := LabelsOf(c.symbols, first);
      Ok(Walk(c, first, seed, rng, 1, maxLen))
  }

  /** `ws` is a walk through the transition table: each state tuple but the
      last has outgoing transitions and the next one is the one sampled from
      them with the draw rng(step + j). */
  ghost predicate Follows(c: Chain, ws: seq<Window>, rng: nat -> nat, step: nat)
  {
    forall j :: 0 <= j < |ws| - 1 ==> MovesAt(c, ws, rng, step, j)
  }

  /** Step j of a walk: from ws[j], which has transitions, to the state tuple
      sampled from them with the draw rng(step + j). */
  ghost predicate MovesAt(c: Chain, ws: seq<Window>, rng: nat -> nat, step: nat, j: nat)
    requires j + 1 < |ws|
  {
    && ws[j] in c.transitions
    && Total(c.transitions[ws[j]]) >= 1
    && ws[j + 1] == Sample(c.transitions[ws[j]], rng(step + j))
  }

  /** The `order` labels of `out` from position base + j are the labels of
      the state tuple ws[j]. */
  ghost predicate SpellsAt(c: Chain, out: seq<Label>, base: int, ws: seq<Window>, j: nat)
    requires j < |ws|
  {
    && WindowOk(c.order, |c.symbols.labels|, ws[j])
    && 0 <= base + j && base + j + c.order <= |out|
    && out[base + j..base + j + c.order] == LabelsOf(c.symbols, ws[j])
  }

  /** `out`, from position `base` on, spells out the walk `ws` one state tuple per position. */
  ghost predicate Spells(c: Chain, out: seq<Label>, base: int, ws: seq<Window>)
  {
    forall j :: 0 <= j < |ws| ==> SpellsAt(c, out, base, ws, j)
  }

  /** Appending the label of the last state of the next state tuple keeps the
      output's last `order` labels equal to the labels of the current state tuple. */
  lemma StepSlides(c: Chain, cur: Window, next: Window, path: seq<Label>)
    requires Valid(c) && WindowOk(c.order, |c.symbols.labels|, cur)
    requires cur in c.transitions && next in Keys(c.transitions[cur])
    requires |path| >= c.order && path[|path| - c.order..] == LabelsOf(c.symbols, cur)
    ensures WindowOk(c.order, |c.symbols.labels|, next)
    ensures var path' := path + [c.symbols.labels[next[c.order - 1]]];
      path'[|path'| - c.order..] == LabelsOf(c.symbols, next)
  {
    var k := c.order;
    assert Slides(cur, next);
    var path' := path + [c.symbols.labels[next[k - 1]]];
    forall i | 0 <= i < k
      ensures path'[|path'| - k..][i] == LabelsOf(c.symbols, next)[i]
    {
      if i < k - 1 {
        assert next[i] == next[..k - 1][i] == cur[1..][i];
        assert path'[|path'| - k + i] == path[|path| - k..][i + 1];
      }
    }
  }

  /** The state tuples Walk visits, in order: `cur` first, then each one sampled. */
  ghost function Trail(c: Chain, cur: Window, path: seq<Label>, rng: nat -> nat, step: nat, maxLen: nat): (ws: seq<Window>)
    requires Valid(c) && WindowOk(c.order, |c.symbols.labels|, cur)
    ensures |ws| >= 1 && ws[0] == cur
    decreases maxLen - |path|
  {
    if |path| >= maxLen || cur !in c.transitions then [cur]
    else
      var next := Sample(c.transitions[cur], rng(step));
      [cur] + Trail(c, next, path + [c.symbols.labels[next[c.order - 1]]], rng, step + 1, maxLen)
  }

  /** Walk emits one label per step of its trail, never runs past `maxLen`
      once it has stepped, and stops only at the length bound or at a state
      tuple without transitions. */
  lemma {:induction false} TrailShape(c: Chain, cur: Window, path: seq<Label>, rng: nat -> nat, step: nat, maxLen: nat)
    requires Valid(c) && WindowOk(c.order, |c.symbols.labels|, cur)
    ensures var out := Walk(c, cur, path, rng, step, maxLen);
            var ws := Trail(c, cur, path, rng, step, maxLen);
      && |out| == |path| + |ws| - 1
      && (|ws| > 1 ==> |out| <= maxLen)
      && (|out| >= maxLen || ws[|ws| - 1] !in c.transitions)
    decreases maxLen - |path|
  {
    if |path| < maxLen && cur in c.transitions {
      var next := Sample(c.transitions[cur], rng(step));
      var path' := path + [c.symbols.labels[next[c.order - 1]]];
      TrailShape(c, next, path', rng, step + 1, maxLen);
      var rest := Trail(c, next, path', rng, step + 1, maxLen);
      assert Trail(c, cur, path, rng, step, maxLen) == [cur] + rest;
    }
  }

  /** Each state tuple of the trail is sampled from the transitions of the one before. */
  lemma {:induction false} TrailFollows(c: Chain, cur: Window, path: seq<Label>, rng: nat -> nat, step: nat, maxLen: nat)
    requires Valid(c) && WindowOk(c.order, |c.symbols.labels|, cur)
    ensures Follows(c, Trail(c, cur, path, rng, step, maxLen), rng, step)
    decreases maxLen - |path|
  {
    if |path| < maxLen && cur in c.transitions {
      var next := Sample(c.transitions[cur], rng(step));
      var path' := path + [c.symbols.labels[next[c.order - 1]]];
      TrailFollows(c, next, path', rng, step + 1, maxLen);
      var rest := Trail(c, next, path', rng, step + 1, maxLen);
      var ws := [cur] + rest;
      assert Trail(c, cur, path, rng, step, maxLen) == ws;
      assert MovesAt(c, ws, rng, step, 0);
      ConsFollows(c, cur, rest, rng, step);
    }
  }

  /** The output spells out the trail: from the seed on, each window of
      `order` labels is the labels of the corresponding state tuple. */
  lemma {:induction false} TrailSpells(c: Chain, cur: Window, path: seq<Label>, rng: nat -> nat, step: nat, maxLen: nat)
    requires Valid(c) && WindowOk(c.order, |c.symbols.labels|, cur)
    requires |path| >= c.order && path[|path| - c.order..] == LabelsOf(c.symbols, cur)
    ensures Spells(c, Walk(c, cur, path, rng, step, maxLen), |path| - c.order, Trail(c, cur, path, rng, step, maxLen))
    decreases maxLen - |path|
  {
    var out := Walk(c, cur, path, rng, step, maxLen);
    var ws := Trail(c, cur, path, rng, step, maxLen);
    SpellsFirst(c, out, path, ws);
    if |path| < maxLen && cur in c.transitions {
      var next := Sample(c.transitions[cur], rng(step));
      var path' := path + [c.symbols.labels[next[c.order - 1]]];
      StepSlides(c, cur, next, path);
      TrailSpells(c, next, path', rng, step + 1, maxLen);
      WalkStep(c, cur, path, rng, step, maxLen);
      var rest := Trail(c, next, path', rng, step + 1, maxLen);
      assert ws[1..] == rest;
      ConsSpells(c, out, |path| - c.order, ws);
    }
  }

  /** One round of the loop: the walk and its trail from `cur` are those
      from the sampled successor, with its last label appended. */
  lemma WalkStep(c: Chain, cur: Window, path: seq<Label>, rng: nat -> nat, step: nat, maxLen: nat)
    requires Valid(c) && WindowOk(c.order, |c.symbols.labels|, cur)
    requires |path| < maxLen && cur in c.transitions
    ensures var next := Sample(c.transitions[cur], rng(step));
      && WindowOk(c.order, |c.symbols.labels|, next)
      && var path' := path + [c.symbols.labels[next[c.order - 1]]];
      && Walk(c, cur, path, rng, step, maxLen) == Walk(c, next, path', rng, step + 1, maxLen)
      && Trail(c, cur, path, rng, step, maxLen) == [cur] + Trail(c, next, path', rng, step + 1, maxLen)
  {
  }

  /** The output keeps the path so far, so its last `order` labels spell the current state tuple. */
  lemma SpellsFirst(c: Chain, out: seq<Label>, path: seq<Label>, ws: seq<Window>)
    requires |ws| >= 1 && WindowOk(c.order, |c.symbols.labels|, ws[0])
    requires |path| >= c.order && path[|path| - c.order..] == LabelsOf(c.symbols, ws[0])
    requires |path| <= |out| && out[..|path|] == path
    ensures SpellsAt(c, out, |path| - c.order, ws, 0)
  {
    assert out[|path| - c.order..|path|] == out[..|path|][|path| - c.order..];
  }

  lemma ConsSpells(c: Chain, out: seq<Label>, base: int, ws: seq<Window>)
    requires |ws| >= 2
    requires SpellsAt(c, out, base, ws, 0)
    requires Spells(c, out, base + 1, ws[1..])
    ensures Spells(c, out, base, ws)
  {
    forall j | 0 < j < |ws|
      ensures SpellsAt(c, out, base, ws, j)
    {
      assert SpellsAt(c, out, base + 1, ws[1..], j - 1);
      assert ws[j] == ws[1..][j - 1];
    }
  }

  lemma ConsFollows(c: Chain, cur: Window, rest: seq<Window>, rng: nat -> nat, step: nat)
    requires |rest| >= 1
    requires MovesAt(c, [cur] + rest, rng, step, 0)
    requires Follows(c, rest, rng, step + 1)
    ensures Follows(c, [cur] + rest, rng, step)
  {
    var ws := [cur] + rest;
    forall j | 0 < j < |ws| - 1
      ensures MovesAt(c, ws, rng, step, j)
    {
      assert MovesAt(c, rest, rng, step + 1, j - 1);
      assert ws[j] == rest[j - 1] && ws[j + 1] == rest[j];
      assert step + 1 + (j - 1) == step + j;
    }
  }

  /** Everything generate_path produces is a walk through the chain: it starts
      at the sampled initial state tuple, each later state tuple is sampled
      from the transitions of the one before, the output's j-th window of
      `order` labels is the labels of the j-th state tuple (so each later
      label is the label of the last state of a sampled state tuple), and it
      stops exactly when the length bound is reached or a state tuple without
      transitions comes up. */
  lemma GenerateTrace(c: Chain, rng: nat -> nat, maxLen: nat) returns (ws: seq<Window>)
    requires Valid(c) && |c.initial| > 0
    ensures var out := Generate(c, rng, maxLen).value;
      && |ws| >= 1
      && ws[0] in Keys(c.initial)
      && ws[0] == Sample(c.initial, rng(0))
      && Follows(c, ws, rng, 1)
      && |out| == c.order + |ws| - 1
      && Spells(c, out, 0, ws)
      && (|ws| > 1 ==> |out| <= maxLen)
      && (|out| >= maxLen || ws[|ws| - 1] !in c.transitions)
  {
    assert Total(c.initial) >= 1;
    var first := Sample(c.initial, rng(0));
    var seed := LabelsOf(c.symbols, first);
    assert seed[|seed| - c.order..] == seed;
    ws := Trail(c, first, seed, rng, 1, maxLen);
    TrailShape(c, first, seed, rng, 1, maxLen);
    TrailFollows(c, first, seed, rng, 1, maxLen);
    TrailSpells(c, first, seed, rng, 1, maxLen);
  }
}
