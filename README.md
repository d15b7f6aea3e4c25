# xtract-jsonxml document profiler, modelled in Dafny

The profiler extracts metadata from an already parsed JSON document (or an XML
document converted into the same shape): the nesting depth counted over dicts
only, every key in the order the walk meets it (`headers`), the Python type of
the last non-dict value seen under each key (`columns`), and the string leaves
joined by single spaces. It decides whether a list is "uniform" by checking
whether its leading items are instances of the class of its first item, with a
sampling fraction `percent_check`. It also has a numeric summariser with mean,
mode or "No mode", and the three largest and three smallest values.

The project has one module per component:

- `Json.dfy` (module `JsonTree`): the parsed tree (`Object` keeps its members in
  insertion order; `List`, `Str`, `Int`, `Float`, `Bool`, `Null`). It also has the
  seven Python classes, `isinstance` (where `bool` is a subclass of `int`), and
  the exceptions the code can raise, carried in a `Result`.
- `Depth.dfy` (module `Nesting`): `get_depth`.
- `Uniform.dfy` (module `Uniformity`): `check_uniform_type`. The sample size is
  the Python slice stop `floor(len * p)`, with `p` an exact real.
- `Numeric.dfy` (module `Numeric`): `get_numerical_metadata` over exact reals.
  `statistics.mode` comes in two versions (`ModeRule`). From Python 3.8 it returns
  the first value, in list order, of highest count. Before 3.8 it returns a value
  only when it is the single most common one, and raises otherwise.
- `TreeWalk.dfy` (module `TreeWalk`): `json_tree_data`. The pure functions
  `VisitMember`, `VisitMembers` and `TreeDataOf` say what one call does to the
  three accumulators. The class `TreeData` holds `headers`, `columns` and
  `strings_from_json` as fields. Its method `JsonTreeData` is the loop-plus-recursion
  of the source, updating those fields in place, and it is proved to agree with
  the functions. Separate pre-order definitions say what the walk collects:
  `Keys`, `ColumnWrites` (the `columns[k] = ...` assignments in order),
  `StringItems` and `LeafFailures`.
- `Extract.dfy` (module `Extract`): the part of `extract_json_metadata` that runs
  after parsing. It computes the depth, walks the tree with fresh accumulators
  and builds the record.

What the source does, and the model with it:

- A list leaf whose presumed type is `int` or `float` always fails. `columns[k]`
  was just set to a `str`, and `columns[k].append` raises `AttributeError` before
  `get_numerical_metadata(v)` is evaluated. So the numeric summary never reaches
  `columns`, and `get_numerical_metadata` is only reachable when called directly.
- An empty list leaf fails at `v[0]` (`IndexError`).
- A non-uniform list is presumed `str` and all its items are added to
  `strings_from_json`. Such a list always holds an item that is not a string:
  either its first item, or an examined item that is not an instance of the
  first item's class. So every non-uniform list leaf makes the call fail, at
  `' '.join` with a `TypeError` if not earlier (`NonUniformListFails`). The join runs at the end of every recursive call, so the first
  join to fail may be an inner one. `TreeDataFailure` says which exception a
  failing call raises.
- A root that is not a dict fails at `d.items()`. `get_depth` still gives it 1.

Other behaviours of the code that its docstrings and names do not make plain:

- An empty list, and any sample of size 0, is uniform. The generator at
  lines 63-67 never evaluates `list_of_items[0]` when it examines no item.
- `check_uniform_type`'s docstring (lines 50 and 58-59) speaks of "the same type
  as the first item", but the code uses `isinstance` (lines 63 and 66). So a
  `bool` item passes against an `int` first item, but an `int` item does not
  pass against a `bool` first item.
- A list leaf whose items are `int` or `float` raises at line 118, as described
  above. No numeric summary is ever attached to a column.
- A root that is not a dict raises at `d.items()` (line 102), although
  `get_depth` gives it 1.
- A negative `percent_check` gives a negative slice stop, which counts from the
  end of the list. `NegativeFractionCountsFromEnd` states this for
  `-1 <= percent_check < 0`. Below -1 the stop lies before the start, so no item
  is examined and every list is uniform (`FractionBelowMinusOneExaminesNothing`).

## Model

| member | source | states |
|---|---|---|
| `JsonTree.TypeOf` | xtract_jsonxml_main.py:109-121 | reference definition of `type(v)`: one class per kind of parsed value; the walk's branches at lines 111 and 121 and the `columns` entry at line 109 use it |
| `JsonTree.IsSubclass` | xtract_jsonxml_main.py:63-66 | reference definition of `issubclass` on the seven classes: `bool` below `int` and nothing else; `SubclassOrder` and `InstanceRule` state its properties |
| `JsonTree.IsInstance` | xtract_jsonxml_main.py:63-66 | reference definition of `isinstance(v, t)`, used for lines 44, 63, 66 and 103; `InstanceRule` states what it accepts |
| `JsonTree.SubclassOrder` | xtract_jsonxml_main.py:63-66 | `issubclass` is reflexive, antisymmetric and transitive |
| `JsonTree.InstanceRule` | xtract_jsonxml_main.py:63-66 | a value is an instance of its own class, and of another one only when a `bool` is tested against `int` |
| `Nesting.Depth` | xtract_jsonxml_main.py:34-46 | the depth is never below the starting level |
| `Nesting.MaxDepth` | xtract_jsonxml_main.py:46 | the maximum over a non-empty dict's children is at least the level it starts from |
| `Nesting.MaxDepthIsMaximum` | xtract_jsonxml_main.py:46 | the depth of a non-empty dict bounds every child's depth one level down and equals one of them |
| `Nesting.DepthShift` | xtract_jsonxml_main.py:44-46 | starting `k` levels higher adds exactly `k` to the depth |
| `Nesting.MaxDepthShift` | xtract_jsonxml_main.py:46 | the same shift for the maximum over a dict's children |
| `Nesting.DepthFromDefaultLevel` | xtract_jsonxml_main.py:34-46 | `get_depth(d, level) == get_depth(d, 1) + level - 1` |
| `Nesting.DepthExamples` | xtract_jsonxml_main.py:44-46 | `{}` has depth 1; `{"a": {"b": 1}}` and `{"a": {"b": [1, 2, 3]}}` both have depth 3 |
| `Nesting.SameShapeSameDepth` | xtract_jsonxml_main.py:44-46 | two trees with the same dict skeleton have the same depth, so lists and scalars (whatever they hold) never add depth |
| `Nesting.SameShapeSameMaxDepth` | xtract_jsonxml_main.py:46 | the same for the maximum over two dicts' children |
| `Uniformity.SliceStop` | xtract_jsonxml_main.py:63-64 | a slice keeps at most the whole list, and exactly `stop` items when `0 <= stop <= len` |
| `Uniformity.SampleSize` | xtract_jsonxml_main.py:61-67 | the number of examined items never exceeds the list length |
| `Uniformity.AllInstances` | xtract_jsonxml_main.py:63-67 | `all(isinstance(item, t) ...)` holds iff every item is an instance of `t` |
| `Uniformity.CheckUniformType` | xtract_jsonxml_main.py:49-67 | true iff every examined item is an instance of the first item's class; true for an empty or one-item list; with `p >= 1` every item is examined |
| `Uniformity.UniformityExamples` | xtract_jsonxml_main.py:63-67 | `[1, True]` is uniform, `[True, 1]` and `[1, 1.0]` are not; `[1, "x", 3]` fails with 1.0 and passes with 0.34 |
| `Uniformity.SampleSizeOfFraction` | xtract_jsonxml_main.py:61-62 | for `0 <= p < 1` the sample is `floor(len * p)` items, fewer than a non-empty list |
| `Uniformity.SampleSizeMonotone` | xtract_jsonxml_main.py:61-67 | a smaller non-negative fraction never examines more items |
| `Uniformity.SampledCheckIsWeaker` | xtract_jsonxml_main.py:61-67 | a list uniform with fraction `p` is uniform with every smaller non-negative fraction |
| `Uniformity.FullPassImpliesEverySample` | xtract_jsonxml_main.py:61-67 | a list that passes with `p >= 1` passes with every fraction, negative ones included, since every sample is a prefix |
| `Uniformity.NegativeFractionCountsFromEnd` | xtract_jsonxml_main.py:61-64 | for `-1 <= p < 0` the sample is `len + floor(len * p)` items |
| `Uniformity.FractionBelowMinusOneExaminesNothing` | xtract_jsonxml_main.py:61-64 | for `p < -1` the sample is empty, so every list is uniform |
| `Numeric.Mean` | xtract_jsonxml_main.py:84 | the mean times the count equals the sum of the items |
| `Numeric.SumWithinBounds` | xtract_jsonxml_main.py:84 | items within `[lo, hi]` sum to within `[n * lo, n * hi]` |
| `Numeric.MeanWithinBounds` | xtract_jsonxml_main.py:84 | the mean lies between any lower and upper bound of the items |
| `Numeric.MaxCountAmong` | xtract_jsonxml_main.py:81 | the highest count bounds every candidate's count and is attained by one |
| `Numeric.FirstWithCount` | xtract_jsonxml_main.py:81 | the first position holding a value of a given count, past every earlier one |
| `Numeric.Mode` | xtract_jsonxml_main.py:80-83 | a returned mode is an item of maximal frequency, and an empty list gives "No mode"; under the 3.8 rule it is the first such item; under the older rule a value comes back iff one value is strictly most common |
| `Numeric.Insert` | xtract_jsonxml_main.py:85-86 | inserting into a sorted list keeps it sorted and adds exactly that item |
| `Numeric.Sorted` | xtract_jsonxml_main.py:85-86 | `sorted` gives an ordered permutation of its input |
| `Numeric.SortedCut` | xtract_jsonxml_main.py:85-86 | cutting a sorted list after `k` items leaves no tail item before the last kept one |
| `Numeric.FirstThree` | xtract_jsonxml_main.py:85-86 | `sorted(...)[:3]` has `min(3, len)` ordered items drawn from the input, and no other item comes before its last |
| `Numeric.Largest3` | xtract_jsonxml_main.py:85 | "Max 3" has `min(3, len)` items in descending order, taken from the input, and no other item exceeds its last |
| `Numeric.Smallest3` | xtract_jsonxml_main.py:86 | "Min 3" has `min(3, len)` items in ascending order, taken from the input, and no other item is below its last |
| `Numeric.GetNumericalMetadata` | xtract_jsonxml_main.py:70-87 | fails (`StatisticsError` from the mean) iff the list is empty, whatever the mode does; otherwise the record of mean, mode, Max 3 and Min 3 |
| `TreeWalk.PresumedType` | xtract_jsonxml_main.py:113-115 | the presumed type is the first item's class when the list is uniform and `str` when it is not; any result other than `str` is a class every examined item is an instance of |
| `TreeWalk.Join` | xtract_jsonxml_main.py:124 | reference definition of `' '.join`; `JoinEnds` and `SplitJoin` state its properties |
| `TreeWalk.JoinEnds` | xtract_jsonxml_main.py:124 | the joined text starts with the first string, ends with the last, and has a space right after the first when there are two or more |
| `TreeWalk.Texts` | xtract_jsonxml_main.py:124 | the texts of an all-string list, item by item |
| `TreeWalk.SplitJoin` | xtract_jsonxml_main.py:124 | when no string holds a space, the space-joined text splits back into the strings |
| `TreeWalk.ApplyKeys` | xtract_jsonxml_main.py:109 | after the `columns[k] = t` assignments the keys are the old ones plus the written ones |
| `TreeWalk.UnwrittenKept` | xtract_jsonxml_main.py:109 | a key no assignment touches keeps its old entry |
| `TreeWalk.LastWriteHolds` | xtract_jsonxml_main.py:109 | a written key holds the type of its last assignment |
| `TreeWalk.LastWriteWins` | xtract_jsonxml_main.py:109 | after the `columns[k] = t` assignments, a written key holds its last type, an unwritten key keeps its entry, and the keys are the old ones plus the written ones |
| `TreeWalk.ColumnWritesAreLeaves` | xtract_jsonxml_main.py:103-109 | every column write records a non-dict type under a key that is also a header, so dict-valued keys write no column |
| `TreeWalk.VisitMember` | xtract_jsonxml_main.py:103-122 | reference definition of one pass of the loop body, including the recursive call on a dict value; `VisitMemberExplained` relates it to the pre-order lists |
| `TreeWalk.VisitMembers` | xtract_jsonxml_main.py:102-122 | reference definition of the loop over `d.items()`, stopped by the first exception; `VisitMembersExplained` relates it to the pre-order lists and `TreeData.JsonTreeData`'s loop invariant ties the method to it |
| `TreeWalk.TreeDataOf` | xtract_jsonxml_main.py:90-124 | reference definition of a call on a dict: the loop, then `' '.join`; `TreeDataOutcome` and `TreeDataFailure` state its outcome |
| `TreeWalk.TreeDataSpec` | xtract_jsonxml_main.py:102 | reference definition of a call on any value: a non-dict fails at `d.items()`; `TreeData.JsonTreeData` is proved equal to it |
| `TreeWalk.VisitMembersExplained` | xtract_jsonxml_main.py:102-122 | the loop keeps old headers and strings as prefixes of the new ones; on success it adds exactly the pre-order keys, column writes and string items, and no leaf fails; a failure is the first leaf failure or a failed join |
| `TreeWalk.LeafExplained` | xtract_jsonxml_main.py:107-122 | the same for a non-dict value: one header, one column write, its strings, and at most its own failure |
| `TreeWalk.VisitMemberExplained` | xtract_jsonxml_main.py:103-122 | the same for one `(k, v)` pair, including the recursive call and its join |
| `TreeWalk.TreeDataOutcome` | xtract_jsonxml_main.py:90-124 | a call succeeds iff no leaf fails and every collected item is a string; then headers gain the pre-order keys, columns the last-write-wins types, strings the items in walk order, and the result is all strings joined by single spaces |
| `TreeWalk.TreeDataFailure` | xtract_jsonxml_main.py:109-124 | a failing call raises the first failing leaf's exception when every collected item is a string, the join's `TypeError` when no leaf fails, one of the two in any case; old headers and strings stay prefixes |
| `TreeWalk.WalkExamples` | xtract_jsonxml_main.py:102-124 | `{"tags": ["a", "b", "c"]}` yields three separate strings and `"a b c"` |
| `TreeWalk.AppendFailureExample` | xtract_jsonxml_main.py:117-118 | `{"name": "Alice", "scores": [10, 20, 20, 30]}` fails at `columns["scores"].append` |
| `TreeWalk.NonUniformHoldsNonString` | xtract_jsonxml_main.py:113-120 | a non-empty list that fails `check_uniform_type` holds an item that is not a string, and all its items go to `strings_from_json` |
| `TreeWalk.NonUniformListFails` | xtract_jsonxml_main.py:113-124 | so a dict holding such a list fails, at the join if nowhere earlier |
| `TreeWalk.FailureStops` | xtract_jsonxml_main.py:102-122 | once an iteration raises, the remaining members are not visited |
| `TreeWalk.TreeData.constructor` | xtract_jsonxml_main.py:139-141 | the three accumulators start with exactly the given contents |
| `TreeWalk.TreeData.JsonTreeData` | xtract_jsonxml_main.py:90-124 | updating the fields in place, the method leaves them and returns exactly what the pure walk `TreeDataSpec` gives for the old fields, so every lemma about the walk holds of it |
| `Extract.ExtractJsonMetadata` | xtract_jsonxml_main.py:139-158 | fails at `d.items()` on a non-dict root; on a dict it raises exactly what `json_tree_data` raises (so `TreeDataFailure` applies), succeeds iff no leaf fails and all collected items are strings, and then the record holds the depth from level 1, the pre-order keys, the last-write-wins columns and the joined strings |

## Left out

- File reading, the `.xml` check, `xml_to_json`, `json.load` and `json.loads` (xtract_jsonxml_main.py:19-31, 143-147): I/O and a foreign library. The parsed tree is the input.
- Timing: `execute_extractor` and the "extract time" field (xtract_jsonxml_main.py:9-16, 157-159) read a clock. The interval measured at lines 157-159 covers only building the dict.
- The command line and `print` (xtract_jsonxml_main.py:164-174): I/O.
- xtract_opener_main.py is not part of this model: it only opens and closes a file and times that.
- Floating point: floats are exact reals, so NaN and infinities cannot occur, and neither can rounding in the mean or in `len * percent_check`.
- Repeated keys: a Python dict cannot hold a key twice. The model's `Object` allows it, and every function treats a repeated key as a further member.
- Numeric.Mean: the value is the exact mean, not the float `statistics.mean` rounds it to.
- Numeric.GetNumericalMetadata: the items are reals. An `int` and an equal `float` (1 and 1.0) cannot be told apart in the mode or in Max 3 / Min 3, and `bool` items would be 0 and 1. The summariser is never reached from the walker anyway.
- Numeric.Mode: `statistics.mode` is modelled by two rules, the Python 3.8 one and the earlier one. Other versions' tie-breaking is not modelled beyond "an item of maximal frequency or No mode".
- Recursion depth: `get_depth` (line 46) and `json_tree_data` (line 105) recurse once per dict level, so Python's recursion limit raises `RecursionError` on a very deeply nested document. `Nesting.Depth`, `TreeWalk.TreeDataOf` and `TreeData.JsonTreeData` have no such limit.
- The key order of `columns`: a Python dict keeps the order in which keys were first inserted, and that order shows in the returned metadata. `map<string, PyType>` has no order, so the model gives the keys and their last types but not their order. The order of `headers` is modelled.
- The text of `str(type(v))` (line 109) is modelled by a `PyType` tag, one per class.
