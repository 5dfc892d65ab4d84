# NieMarkov in Dafny

A model of `MarkovChain` from niemarkov/niemarkov.py, with proofs about it.
The class learns a Markov chain of order `k` from paths of state labels.
Each label is interned as a dense integer state. The chain counts how often each
`k`-tuple of states opens a path (`initial_state_tuple`) and how often each
`k`-tuple is followed by the next one, slid one state along the path
(`transitions`). `generate_path` then samples a start tuple and walks the
transitions. Every draw is weighted by the counts.

Modules, one file each:

- `Outcomes` (outcomes.dfy): the exceptions the class raises, and the result
  shapes. A mutating call returns `Returned(state)` or `Raised(state, error)`.
  The state is the object after the call. Python does not roll back, so a
  raising call can still have changed the object.
- `Labels` (labels.dfy): `check_state_type`. It also holds the label loop of
  `add_path` over `labels` and `label_to_state`.
- `Counters` (counters.dfy): insertion-ordered count dictionaries, held as
  association lists, the `+= 1 / = 1` update, and `random_choice`.
- `Markov` (chain.dfy): the chain, its invariant `Valid`, the constructor, and
  `add_path` with its counting half `Tally`.
- `Generation` (generation.dfy): `generate_path`. The random generator is a
  parameter `rng`. `rng(i)` is the raw value behind the i-th `randint` call.
- `Scenarios` (scenarios.dfy): small concrete runs of `add_path` and
  `generate_path`.

## Model

| member | source | states |
|---|---|---|
| Labels.CheckStateType | niemarkov/niemarkov.py:10-15 | A label passes exactly when it is a `str` or an `int`; any other label gets the TypeError |
| Labels.Intern | niemarkov/niemarkov.py:49-53 | A known label changes nothing. A new label of a refused type raises and leaves the tables as they were. A new allowed label gets state `len(labels)` and is appended. The tables stay mutually inverse and dense |
| Labels.InternAll | niemarkov/niemarkov.py:49-53 | The loop raises exactly when some label is both new and of a refused type. The labels before that one stay interned and the result always extends the old tables. The interned keys are the old keys plus the path's labels up to the first refused one |
| Labels.InternAllKnown | niemarkov/niemarkov.py:49-53 | A path of known labels leaves the tables unchanged |
| Labels.StateCount | niemarkov/niemarkov.py:34-35 | In consistent tables, the number of states equals the number of distinct labels |
| Labels.InternAllCount | niemarkov/niemarkov.py:34-35 | After a successful loop, the number of states equals the number of distinct labels seen so far |
| Counters.IncrementShape | niemarkov/niemarkov.py:57-60 | The count update adds the key to the key set. A present key keeps its position. An absent key is appended with count 1 |
| Counters.IncrementGet | niemarkov/niemarkov.py:57-60 | The update adds 1 to the count of that key and leaves every other count as it was |
| Counters.IncrementTotal | niemarkov/niemarkov.py:57-60 | The update adds 1 to the sum of the counts |
| Counters.IncrementWellFormed | niemarkov/niemarkov.py:64-70 | The update keeps keys distinct and counts at 1 or more |
| Counters.Scan | niemarkov/niemarkov.py:21-25 | The loop stops at the one position whose running total first reaches the draw. It never runs off the end while the draw is at most the sum |
| Counters.RandomChoice | niemarkov/niemarkov.py:18-25 | The option returned is a key of the table, and the draw lies in that key's block of running totals |
| Counters.ChoiceIsFirst | niemarkov/niemarkov.py:18-25 | If a draw lies in the block of position j, then random_choice returns the key at j and no earlier running total reaches the draw |
| Counters.ChoiceFrequency | niemarkov/niemarkov.py:18-25 | Out of the `sum` equally likely draws, exactly `count` pick a given key, so the choice is weighted by the counts |
| Markov.New | niemarkov/niemarkov.py:30-37 | An order below 1 raises ValueError. Otherwise the result is an empty chain of that order that satisfies the invariant |
| Markov.StatesRoundTrip | niemarkov/niemarkov.py:56 | Mapping a known path to states gives valid states, and mapping those states back to labels gives the path again |
| Markov.LabelsRoundTrip | niemarkov/niemarkov.py:75 | Mapping states to labels and back gives the states again |
| Markov.AddPath | niemarkov/niemarkov.py:40-70 | A path no longer than the order raises ValueError and changes nothing. Otherwise the call returns exactly when no new label has a refused type. A TypeError keeps the labels interned before it but leaves both count tables untouched. The order never changes |
| Markov.BumpCount | niemarkov/niemarkov.py:64-70 | One transition adds 1 to the count of (from, to) and to no other count |
| Markov.SlideCount | niemarkov/niemarkov.py:61-70 | The transition loop adds to each count the number of offsets at which the path makes that transition |
| Markov.OccurrencesArePositions | niemarkov/niemarkov.py:61-63 | That number, counted one offset at a time, is the size of the set of such offsets |
| Markov.SlideFlow | niemarkov/niemarkov.py:61-70 | The transition loop over n offsets adds exactly n to the sum of all transition counts, whichever tuples it touches |
| Markov.SlideOk | niemarkov/niemarkov.py:61-70 | The transition loop over a path of existing states keeps counts positive, inner tables non-empty and every tuple a slide of its predecessor |
| Markov.TallyValid | niemarkov/niemarkov.py:55-70 | Counting a path whose labels are all interned keeps a valid chain valid |
| Markov.TallyCountCommutes | niemarkov/niemarkov.py:61-70 | Counting two paths in either order leaves the same count for every transition |
| Markov.AddPathInitial | niemarkov/niemarkov.py:56-60 | A successful call adds 1 to the count of the path's first state tuple and to no other initial count. The sum of the initial counts grows by 1 |
| Markov.AddPathTransitions | niemarkov/niemarkov.py:61-70 | A successful call adds to every count `transitions[f][x]` the number of offsets i < len(path) - order at which the path steps from f to x |
| Markov.AddPathFlow | niemarkov/niemarkov.py:61-70 | A successful call adds exactly len(path) - order to the sum of all transition counts |
| Markov.AddPathKnown | niemarkov/niemarkov.py:48-70 | A long enough path of known labels is accepted, interns nothing, and only counts |
| Markov.AddPathValid | niemarkov/niemarkov.py:40-70 | Whether the call returns or raises, a valid chain stays valid: tables inverse and dense, counts positive, no empty inner table, and tuples of length `order` over existing states that follow one another along a path |
| Markov.BuildValid | niemarkov/niemarkov.py:30-70 | Every chain reachable from the constructor by any sequence of add_path calls is valid |
| Markov.AddPathCommutes | niemarkov/niemarkov.py:56-70 | Once their labels are known, adding two paths in either order gives the same initial and transition counts |
| Generation.Randint | niemarkov/niemarkov.py:20 | The draw lies in [1, sum] |
| Generation.RandintOnto | niemarkov/niemarkov.py:20 | Every value in [1, sum] is some raw draw's outcome |
| Generation.Walk | niemarkov/niemarkov.py:76-80 | The loop only appends to the path, and never beyond max_len unless the path was already longer |
| Generation.StepSlides | niemarkov/niemarkov.py:79-80 | After one round, the last `order` labels of the output are the labels of the new current state tuple |
| Generation.Generate | niemarkov/niemarkov.py:73-81 | An empty chain raises ValueError, as randint(1, 0) does. Otherwise the output begins with the labels of an initial state tuple and is between order and max(order, max_len) long |
| Generation.TrailShape | niemarkov/niemarkov.py:76-80 | The loop emits one label per state tuple it moves to, and it stops only at max_len or at a state tuple without transitions |
| Generation.TrailFollows | niemarkov/niemarkov.py:77-79 | Each state tuple visited is the one random_choice picks from the transitions of the one before |
| Generation.TrailSpells | niemarkov/niemarkov.py:75-80 | Every window of `order` output labels is the labels of the matching visited state tuple |
| Generation.GenerateTrace | niemarkov/niemarkov.py:73-81 | The output is a walk. It starts at a sampled initial state tuple, each later tuple is sampled from the previous one's transitions, and each later label is the last label of the new tuple. It ends exactly at max_len or at a tuple with no transitions |
| Scenarios.TypeErrorIsNotAtomic | niemarkov/niemarkov.py:48-53 | `add_path(["a", x])` with x of a refused type raises a TypeError but leaves "a" interned as state 0 |
| Scenarios.ShortPathRaises | niemarkov/niemarkov.py:44-45 | A path of length 2 in a chain of order 2 raises ValueError and changes nothing |
| Scenarios.AddOnce | niemarkov/niemarkov.py:40-70 | `add_path(["a", "b"])` on a new order-1 chain gives states a=0 and b=1, initial {(0,): 1} and transitions {(0,): {(1,): 1}} |
| Scenarios.AddTwice | niemarkov/niemarkov.py:56-70 | Adding the same path again raises both counts to 2 |
| Scenarios.GenerateAB | niemarkov/niemarkov.py:73-81 | The chain of "a b" generates ["a", "b"] for any max_len of at least 2 |
| Scenarios.GenerateCut | niemarkov/niemarkov.py:76 | With max_len 1 the output is only the start tuple's labels |
| Scenarios.GenerateEmpty | niemarkov/niemarkov.py:19-20 | Generating from a new chain raises ValueError |

## Left out

- example_text.py is not part of this model. It reads files, tokenizes text and calls the class.
- The random generator: `randint` takes its raw value from the parameter `rng` and maps it onto [1, sum] by `1 + d % sum`. The model proves that this map reaches every value (`RandintOnto`). It does not model the generator's distribution.
- `max_len = float('inf')`: `max_len` is a natural number here. An unbounded walk may not terminate, and the model needs a terminating loop.
- The `isinstance(path, list)` TypeError in add_path: paths are sequences by type.
- The `isinstance(order, int)` part of the constructor check: `order` is an integer by type. A `bool` order such as `True` is not modelled.
- Python hash equality across types: `1`, `1.0` and `True` are the same dictionary key. Here labels are equal only within the same type (`Int(1)` versus `Other`). A `bool` label that equals an already known int is therefore not modelled as known.
- Exception messages: only the kind of exception is modelled.
- The order of the outer `transitions` dictionary is not modelled, because nothing reads it in order. It is a Dafny `map`. The inner dictionaries and `initial_state_tuple` are ordered, because random_choice walks them in insertion order.
- Generation.Generate: requires `Valid(c)`. Python reads the object without checking. Every chain the class can build satisfies `Valid` (`Markov.BuildValid`), so this excludes only objects altered from outside.
- add_path is sometimes described as interning every label of the path, with an error for a bad one. The code differs. It checks only labels that are new. It stops at the first refused label and does not undo the labels it has already added. The model follows the code (`Scenarios.TypeErrorIsNotAtomic`).
