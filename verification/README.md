# Flax optimizer core, modelled in Dafny

This project models the structural core of `flax/optim/base.py`, the optimizer layer of Flax.

- **Optimizer definitions.** An `OptimizerDef` initialises a per-parameter state (`init_state`). It applies gradients by flattening the parameter pytree, cutting the state and the gradients at the parameters' leaves, running an update rule on each aligned triple, and rebuilding both trees (`apply_gradient`). It also resolves hyperparameter overrides (`update_hyper_params`).
- **`ReplicatedOptimizer`** averages the gradients across devices before delegating.
- **`MultiOptimizer`** splits the parameters among (traversal, sub-optimizer) pairs. It keeps one sub-state per pair and writes each pair's new values back into the full tree.
- **`ModelParamTraversal`** selects parameters by a predicate on their path string and value:
  - `iterate` yields the selected values in key-tuple order;
  - `update` rewrites them in place.
- **`Optimizer`** pairs a definition with its target and state: `create`, `apply_gradient`, `replicate`/`unreplicate`.

Pytrees are `PyTree.Tree` values: an atom (an array, of abstract type `A`), a list, or a dict. A dict's members are kept strictly sorted by key (`Canonical`). That is the order jax flattens dicts in, and Python dict equality ignores insertion order, so nothing is lost by it. The numeric update rule is left abstract:
- `init_param_state` and `apply_param_gradient` are the function-valued fields of an `OptimBase.UpdateRule`, which `OptimizerDef.Base` holds as its `rule`;
- hyperparameter values are of an abstract type `V`.

The helpers `flatten_dict`, `unflatten_dict` and `Traversal.set` live in `flax/traverse_util.py`, which this model does not cover directly. Module `TraverseUtil` models them as `base.py` uses them:
- `FlattenDict` produces the key-tuple view, with or without empty-dict placeholders.
- `UnflattenDict` is a fold of single-path insertions.
- `Traversal.Set` writes successive values into the selected entries, in the order `iterate` and `update` visit them (`Traversal.SetWritesInOrder`).

The orders are modelled on Python's:
- `Lexicographic.StrLt` is string `<`;
- `Lexicographic.PathLt` is tuple `<`.

`iterate` and `update` sort by the key tuple (`_sorted_items`), not by the joined `'/'`-path string. The two orders differ: `("a-",)` comes after `("a", "b")` as a tuple, but `"/a-"` comes before `"/a/b"` as a string. The model follows the code, and `Traversal.IterateOrdersByKeyTuple` exhibits the difference on a concrete dict.

Errors that the Python code raises are values of `Results.Result`:
- an attribute or type error becomes `NotAnOptimizerState`, `NotIterable` or `NotARecord`;
- the `TypeError` of `replace` given a field the record does not declare becomes `UnknownField`;
- the `ValueError`s become `NotADict`, `NotReplicated` or `NoPairs`;
- `Traversal.set` running out of values becomes `NotEnoughValues`, and leaving values unused becomes `TooManyValues`;
- a mismatch between trees becomes `StructureMismatch`.

## Model

| member | source | states |
|---|---|---|
| Lexicographic.PathLtTotal | flax/optim/base.py:504-506 | Any two distinct key tuples are ordered one way or the other, so sorting by key tuple is well defined. |
| PyTree.FlattenUpToSelf | flax/optim/base.py:84-86 | Flattening a tree up to its own treedef yields its leaves, in order. |
| PyTree.UnflattenConforms | flax/optim/base.py:85-92 | A tree rebuilt from a treedef and pieces flattens up to that treedef back into exactly those pieces. |
| PyTree.UnflattenAtoms | flax/optim/base.py:90-91 | Rebuilding a treedef from one atom per leaf gives a tree with that treedef whose leaves are those atoms. |
| PyTree.UnflattenLeaves | flax/optim/base.py:84-91 | Unflattening a tree's own leaves into its own treedef gives the tree back. |
| PyTree.TreeMapIsUnflatten | flax/optim/base.py:97 | `tree_map` of a leaf function is the treedef rebuilt from the function's results on the leaves. |
| HyperParams.Replace | flax/optim/base.py:116 | `replace(**fields)` succeeds exactly on a record that declares every named field. The result sets those fields and keeps the others; a list has no `replace`. |
| HyperParams.UpdateOne | flax/optim/base.py:114-117 | Without field overrides, the result is the `hyper_params=` override or the own record. With them, it is that base with the named fields replaced, and it fails exactly when the base cannot take them. |
| HyperParams.ReplaceEach | flax/optim/base.py:500 | The comprehension succeeds exactly when every element accepts the fields. Element i of the result is element i with the fields replaced. |
| HyperParams.UpdateEach | flax/optim/base.py:498-501 | The MultiOptimizer version: a list base with every element's fields replaced. Field overrides on a single record fail. |
| HyperParams.UpdateEachIsUpdateOneOnEach | flax/optim/base.py:498-501 | Each element of the MultiOptimizer's result is what the single-record update makes of that element. |
| TraverseUtil.FlattenDict | flax/optim/base.py:547 | Every flat key is non-empty. Every flat value is a non-dict. There is one value per non-dict leaf of the dict. |
| TraverseUtil.UnflattenFlatten | flax/optim/base.py:555-565 | Unflattening the flat view with placeholders gives back the original dict. |
| TraverseUtil.FlatSorted | flax/optim/base.py:504-506 | The flat view lists its keys in strictly ascending key-tuple order. |
| TraverseUtil.LookupFlat | flax/optim/base.py:547 | Every non-dict value at a path appears in the flat view under that path. So does every empty dict, when placeholders are kept. |
| TraverseUtil.FlatLookup | flax/optim/base.py:555 | Every value of the flat view is found in the dict at its path. |
| TraverseUtil.FlattenDrop | flax/optim/base.py:547-555 | The view without placeholders is the view with placeholders, minus the placeholders. |
| Traversal.SortedItems | flax/optim/base.py:504-506 | `_sorted_items` returns a permutation of its input, sorted by key tuple. |
| Traversal.SortedItemsIdentity | flax/optim/base.py:504-506 | Input that is already strictly sorted comes back unchanged. |
| Traversal.PathStringAppend | flax/optim/base.py:549 | The name a filter sees is `"/k1/k2/…"`: a one-key path is `"/" + k`, and each further key appends `"/" + k`. The same name is built at line 561 for `update`. |
| Traversal.Iterate | flax/optim/base.py:536-551 | `iterate` succeeds exactly on a dict. |
| Traversal.IterateSpec | flax/optim/base.py:545-551 | `iterate` yields exactly the non-dict values whose path string passes the filter, each once, found at its path, in strictly ascending key-tuple order. |
| Traversal.IterateOrdersByKeyTuple | flax/optim/base.py:504-506 | On `{"a": {"b": 1}, "a-": 2}`, `iterate` yields 1 then 2, although `"/a-"` sorts before `"/a/b"` as a string. |
| Traversal.Update | flax/optim/base.py:553-565 | `update` succeeds exactly on a dict. The loop body at lines 557-564 is the helper `Traversal.RewriteItems`, one `Traversal.Rewrite` per item, whose effect `Traversal.UpdateSpec` and `Traversal.UpdateShape` state. |
| Traversal.UpdateSpec | flax/optim/base.py:553-565 | After `update`, a selected non-dict value `v` reads `fn(v)`. Every other value and every empty dict reads as before. |
| Traversal.UpdateShape | flax/optim/base.py:553-571 | The result of `update` is the input dict with exactly its own keys and empty-dict placeholders, refilled in key-tuple order with the rewritten values, one per non-dict leaf. No path is added or removed. |
| Traversal.UpdateIdentity | flax/optim/base.py:553-571 | `update` with the identity function returns its input. |
| Traversal.SetItems | flax/optim/base.py:480 | `set` consumes exactly one value per selected entry: too few or too many values fail. |
| Traversal.SetItemsKeeps | flax/optim/base.py:480 | A successful `set` keeps every key and placeholder. Unselected entries are unchanged, and every changed entry holds one of the given values. |
| Traversal.SetItemsAt | flax/optim/base.py:480 | In the flat view, the k-th selected entry, in key-tuple order, receives value k. |
| Traversal.Set | flax/optim/base.py:480 | On a dict, `set` succeeds exactly when the number of values matches the number of selected entries. |
| Traversal.SetWritesInOrder | flax/optim/base.py:480 | After a successful `set`, the k-th path that `iterate` visits holds value k. |
| Traversal.SetShape | flax/optim/base.py:480 | The result of `set` is the input dict with exactly its own keys and placeholders, refilled in key-tuple order. No path is added or removed. |
| Traversal.SetArity | flax/optim/base.py:480 | `set` accepts exactly as many values as `iterate` yields. |
| Traversal.SetAgreesWithUpdate | flax/optim/base.py:480 | Writing back `fn` of what `iterate` read equals `update(fn)`. |
| Traversal.SetKeepsUnselected | flax/optim/base.py:480 | `set` leaves every unselected value and every empty dict at its path. |
| Traversal.SetCanonical | flax/optim/base.py:480 | `set` with canonical values keeps a canonical dict canonical. |
| OptimBase.NewMulti | flax/optim/base.py:458 | A MultiOptimizer needs at least one pair. |
| OptimBase.HyperParamsOfUnwrap | flax/optim/base.py:459-460 | A MultiOptimizer's `hyper_params` is the list of its sub-optimizers' hyperparameters, one per pair, in pair order. A replicated definition exposes the wrapped one's (line 385). `OptimBase.HyperParamsOf` is the attribute itself, a helper this lemma characterises. |
| OptimBase.UpdateHyperParams | flax/optim/base.py:101-117 | With no field overrides, the result is the `hyper_params=` override or the definition's own hyperparameters. With them, a MultiOptimizer (even a replicated one) replaces fields in every list element, and any other definition replaces them in its single record. |
| OptimBase.InitState | flax/optim/base.py:96-99 | A concrete optimizer starts at step 0 with `init_param_state` mapped over the parameters. A MultiOptimizer keeps one sub-state per pair. |
| OptimBase.InitStateConforms | flax/optim/base.py:96-99 | The initial state has step 0 and the parameters' structure down to their leaves. Leaf i's state is `init_param_state` of parameter leaf i. |
| OptimBase.InitStateShape | flax/optim/base.py:96-99 | When each state is a single array, the state tree has exactly the parameters' shape. |
| OptimBase.MultiInit | flax/optim/base.py:464-470 | One sub-state per pair. |
| OptimBase.MultiInitSpec | flax/optim/base.py:464-470 | Sub-state j is sub-optimizer j's initial state on the list its traversal selects. The whole fails exactly when the params are not a dict (with at least one pair) or one of these fails. |
| OptimBase.BaseApply | flax/optim/base.py:83 | A list of sub-states is not an `OptimizerState`, so reading its `step` fails. |
| OptimBase.BaseApplySpec | flax/optim/base.py:72-94 | The step succeeds exactly when state and gradients both have the parameters' structure down to the leaves. Then: new leaf i is the first component of the rule on (step, hyper_params, param i, state i, grad i), and the new state piece i is the second. The parameters' shape is kept and the step goes up by one. The helpers `OptimBase.ApplyEach`, `OptimBase.Firsts` and `OptimBase.Seconds` model lines 87-90 and are covered by this statement. |
| OptimBase.BaseApplyNoLeaves | flax/optim/base.py:90-93 | With zero leaves, both new trees are the parameters' empty containers and the step goes up by one. |
| OptimBase.NoOpStep | flax/optim/base.py:83-99 | Under a rule that changes nothing, a step from the initial state returns the parameters and the initial states, at step 1. |
| OptimBase.ApplyGradient | flax/optim/base.py:472-482 | A MultiOptimizer step needs a list of hyperparameters and a list of states. Its new sub-state list is as long as the shortest of pairs, hyperparameters and states. |
| OptimBase.ReplicatedSingleDevice | flax/optim/base.py:395-401 | When the cross-replica mean is the identity, the replicated step equals the wrapped definition's step. This is the only property stated for `Replicated` steps, because the mean is an abstract function. The helper `OptimBase.MeanLeaf` is the per-leaf mean of lines 395-400. |
| OptimBase.ApplyToList | flax/optim/base.py:478-480 | A sub-optimizer given a list of parameters returns a list of the same length. So the `new_p` that line 480 passes to `set` is always a list that `set` can consume value by value. |
| OptimBase.MultiApply | flax/optim/base.py:472-482 | The loop produces one new sub-state per zipped element. |
| OptimBase.MultiApplyAligned | flax/optim/base.py:475-481 | New sub-state j is sub-optimizer j's step on the values its traversal selects from the original parameters and gradients, not from the partly updated tree. |
| OptimBase.ApplyCanonical | flax/optim/base.py:472-482 | Every step keeps canonical parameters canonical. |
| OptimBase.SinglePairWritesBack | flax/optim/base.py:472-482 | With one pair (what `create` builds for a focus), the k-th path the pair's traversal visits holds element k of the sub-optimizer's new parameters. With no hyperparameters or no states, `zip` is empty and the parameters come back unchanged. |
| OptimBase.MultiKeepsUnselected | flax/optim/base.py:472-482 | A non-dict parameter that no pair's traversal selects is at the same path with the same value after a MultiOptimizer step. |
| OptimBase.Create | flax/optim/base.py:119-139 | `create` keeps the target. Without a focus, it keeps the definition and succeeds exactly when `init_state` does. With one, the definition becomes a single-pair MultiOptimizer. |
| OptimBase.CreateWithFocus | flax/optim/base.py:135-139 | With a focus, the state is the one-element list holding the definition's initial state on the focused values. |
| OptimBase.OptimizerApply | flax/optim/base.py:236-251 | `Optimizer.apply_gradient` succeeds exactly when resolving the hyperparameters and the step both succeed. The new optimizer keeps the definition, and its target and state are the new parameters and new state of the definition's step under the resolved hyperparameters. |
| OptimBase.Replicate | flax/optim/base.py:312-334 | `replicate` wraps the definition in a replicated one that carries the given cross-replica mean (the averaging over `axis_name`), and keeps target and state. |
| OptimBase.Unreplicate | flax/optim/base.py:336-355 | `unreplicate` fails exactly when the definition is not replicated. Otherwise it returns the wrapped definition with the same target and state. |
| OptimBase.UnreplicateReplicate | flax/optim/base.py:312-355 | Unreplicating a replicated optimizer gives the original back. |

## Left out

- Serialization (`state_dict`, `restore_state`, the serialization registry): it depends on a foreign registry and on shape and dtype checks that are not part of this model.
- `compute_gradient` and `optimize`: deprecated wrappers over JAX automatic differentiation.
- The numeric update rules and array values: they are abstract functions and an abstract atom type.
- The collective operations and devices. The cross-replica mean (`psum`) is a function parameter of `Replicated`. The copying of target and state to every device, and back from the first, is not modelled, so `Replicate` and `Unreplicate` keep target and state as they are.
- The step is a natural number; the `int32` counter's wrap-around is not modelled.
- `flax.nn.Model` and `FrozenDict` inputs to a traversal, and the re-wrapping of the result: only plain nested dicts are modelled. Any other input gives `NotADict`.
- Pytree node kinds other than lists and dicts: tuples, named tuples, dataclasses, and `None` as an empty subtree.
- `ModelParamTraversal.iterate` is a generator; the model returns the whole list at once, which is what `list(...)` makes of it.
- Exceptions raised inside the abstract update rule.
- `flatten_dict` of an empty root dict is taken to yield no items, and an empty nested dict to yield one placeholder item when placeholders are kept. `flax/traverse_util.py` is not part of this model, so this behaviour is assumed from its use in `base.py`.
- `unflatten_dict` is modelled as a fold of single-path insertions. An insertion under a key that holds a non-dict treats it as an empty dict; the flat views the model feeds it never contain that case.
- `OptimBase.ListItems`: line 480 hands `new_p` to `Traversal.set`, which consumes it value by value. The model accepts only a list there and fails with `StructureMismatch` on anything else, where Python would consume any sequence. `OptimBase.ApplyToList` shows a sub-optimizer always returns a list.
- `OptimBase.InitStateShape`: exact shape equality is stated only when every per-parameter state is a single array. In general a state is a subtree, and `OptimBase.InitStateConforms` states the structure down to the parameters' leaves.
- `OptimBase.MultiKeepsUnselected`: stated for canonical dicts and for non-dict values; empty dicts that no traversal can select are covered by `Traversal.SetKeepsUnselected` one pair at a time.
- `OptimBase.SinglePairWritesBack`: the write-back of selected values is stated for one pair. With several pairs, each pair's `set` is `Traversal.SetWritesInOrder` on the tree the previous pairs left, and a later pair whose traversal overlaps an earlier one overwrites it; no lemma composes this over the whole loop.
- Traversal properties that read a dict through `Lookup` (`Traversal.IterateSpec`, `Traversal.UpdateSpec`, `Traversal.SetKeepsUnselected`, `Traversal.UpdateIdentity`) assume the canonical (key-sorted) representation of the dict.
