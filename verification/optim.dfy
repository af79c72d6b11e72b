/** Optimizer definitions, their state, and the `Optimizer` that pairs a
    definition with its target.

    A concrete optimizer (`Base`) brings hyperparameters and an update rule
    that acts on one parameter at a time. `Replicated` averages gradients
    across devices before delegating; the average is a parameter of the
    model. `Multi` pairs traversals with sub-optimizers, each of which sees
    only the values its traversal selects, as a list.
 */
module OptimBase {
  import opened Results
  import opened PyTree
  import opened HyperParams
  import opened TraverseUtil
  import opened Traversal

  /** What a concrete optimizer implements: `init_param_state` and
      `apply_param_gradient`. The rule gets the step, the hyperparameters, one
      parameter (an array), the state subtree kept for it and the gradient
      subtree for it, and returns the new parameter and its new state. */
  datatype UpdateRule<!A, !V(==)> = UpdateRule(
    initParamState: A -> Tree<A>,
    applyParamGradient: (nat, HyperParams<V>, A, Tree<A>, Tree<A>) -> (A, Tree<A>))

  datatype OptimizerDef<!A, !V(==)> =
    | Base(hyperParams: HyperParams<V>, rule: UpdateRule<A, V>)
      /** `ReplicatedOptimizer`; `crossReplicaMean` stands for the
          `psum(grad) / psum(1)` over the device axis. */
    | Replicated(inner: OptimizerDef<A, V>, crossReplicaMean: A -> A)
      /** `MultiOptimizer` over its (traversal, sub-optimizer) pairs. */
    | Multi(focuses: seq<Focus<A, V>>)

  datatype Focus<!A, !V(==)> = Focus(traversal: ModelParamTraversal<A>, opt: OptimizerDef<A, V>)

  /** `OptimizerState(step, param_states)`, or the list of sub-states a
      MultiOptimizer keeps. */
  datatype OptState<A> = OptimizerState(step: nat, paramStates: Tree<A>) | SubStates(subs: seq<OptState<A>>)

  datatype Optimizer<!A, !V(==)> = Optimizer(optimizerDef: OptimizerDef<A, V>, state: OptState<A>, target: Tree<A>)

  function Min3(a: nat, b: nat, c: nat): nat
  {
    if a <= b && a <= c then a else if b <= c then b else c
  }

  // ---------------------------------------------------------------------------
  // Construction and hyperparameters

  /** `MultiOptimizer(*pairs)`: unpacking the transposed pairs fails when
      there are none. */
  function NewMulti<A, V(==)>(pairs: seq<Focus<A, V>>): (r: Result<OptimizerDef<A, V>>)
    ensures r.Ok? <==> |pairs| > 0
    ensures r.Ok? ==> r.value.Multi? && r.value.focuses == pairs
    ensures !r.Ok? ==> r == Err(NoPairs)
  {
    if pairs == [] then Err(NoPairs) else Ok(Multi(pairs))
  }

  /** The `hyper_params` attribute: a MultiOptimizer holds the list of its
      sub-optimizers' hyperparameters, and a replicated one those of the
      definition it wraps. */
  function HyperParamsOf<A, V(==)>(d: OptimizerDef<A, V>): (r: HyperParams<V>)
    decreases d
  {
    match d
    case Base(hp, _) => hp
    case Replicated(inner, _) => HyperParamsOf(inner)
    case Multi(fs) => Many(seq(|fs|, i requires 0 <= i < |fs| => HyperParamsOf(fs[i].opt)))
  }

  /** Replication is transparent to the `hyper_params` attribute, and a
      MultiOptimizer's list has one entry per pair, so the `zip` of its
      step is never cut short by its own hyperparameters. */
  lemma {:induction false} HyperParamsOfUnwrap<A, V>(d: OptimizerDef<A, V>)
    ensures HyperParamsOf(d) == HyperParamsOf(Unwrap(d))
    ensures Unwrap(d).Multi? ==>
      && HyperParamsOf(d).Many?
      && |HyperParamsOf(d).items| == |Unwrap(d).focuses|
      && forall i :: 0 <= i < |Unwrap(d).focuses| ==>
           HyperParamsOf(d).items[i] == HyperParamsOf(Unwrap(d).focuses[i].opt)
    decreases d
  {
    if d.Replicated? {
      HyperParamsOfUnwrap(d.inner);
    }
  }

  /** The definition a chain of `Replicated` wrappers ends in. */
  function Unwrap<A, V(==)>(d: OptimizerDef<A, V>): (r: OptimizerDef<A, V>)
    ensures !r.Replicated?
  {
    match d
    case Replicated(inner, _) => Unwrap(inner)
    case _ => d
  }

  /** `update_hyper_params(**overrides)`: without field overrides the result
      is the `hyper_params=` override or the definition's own; with them, a
      MultiOptimizer replaces the fields in every record of its list and any
      other definition in its single record. */
  function UpdateHyperParams<A, V(==)>(d: OptimizerDef<A, V>, ov: Overrides<V>): (r: Result<HyperParams<V>>)
    ensures |ov.fields| == 0 ==> r == Ok(ov.replacement.GetOr(HyperParamsOf(d)))
    ensures Unwrap(d).Multi? ==> r == UpdateEach(HyperParamsOf(d), ov)
    ensures !Unwrap(d).Multi? ==> r == UpdateOne(HyperParamsOf(d), ov)
    decreases d
  {
    match d
    case Base(hp, _) => UpdateOne(hp, ov)
    case Replicated(inner, _) => UpdateHyperParams(inner, ov)
    case Multi(_) => UpdateEach(HyperParamsOf(d), ov)
  }

  // ---------------------------------------------------------------------------
  // init_state

  /** `init_state(params)`. A concrete optimizer maps `init_param_state` over
      the parameters and starts at step 0; a MultiOptimizer initialises each
      sub-optimizer on the list its traversal selects. */
  function InitState<A, V(==)>(d: OptimizerDef<A, V>, params: Tree<A>): (r: Result<OptState<A>>)
    ensures d.Base? ==> r == Ok(OptimizerState(0, TreeMap(d.rule.initParamState, params)))
    ensures d.Multi? && r.Ok? ==> r.value.SubStates? && |r.value.subs| == |d.focuses|
    decreases d, 1
  {
    match d
    case Base(_, rule) => Ok(OptimizerState(0, TreeMap(rule.initParamState, params)))
    case Replicated(inner, _) => InitState(inner, params)
    case Multi(fs) =>
      var ss :- MultiInit(fs, params);
      Ok(SubStates(ss))
  }

  /** The values `fs[j]`'s traversal selects from `params`, as the list its
      sub-optimizer receives. */
  function Selection<A, V(==)>(f: Focus<A, V>, t: Tree<A>): Tree<A>
    requires t.Dict?
  {
    List(Iterate(f.traversal, t).value)
  }

  /** The loop of `MultiOptimizer.init_state`. */
  function MultiInit<A, V(==)>(fs: seq<Focus<A, V>>, params: Tree<A>): (r: Result<seq<OptState<A>>>)
    ensures r.Ok? ==> |r.value| == |fs|
    decreases fs, 0
  {
    if fs == [] then Ok([])
    else
      var p :- Iterate(fs[0].traversal, params);
      assert fs[0].opt < fs[0];
      var s :- InitState(fs[0].opt, List(p));
      var rest :- MultiInit(fs[1..], params);
      Ok([s] + rest)
  }

  // ---------------------------------------------------------------------------
  // apply_gradient

  /** `apply_param_gradient` on every (parameter, state, gradient) triple. */
  function ApplyEach<A, V(==)>(rule: UpdateRule<A, V>, step: nat, hp: HyperParams<V>,
                               xs: seq<A>, ss: seq<Tree<A>>, gs: seq<Tree<A>>): (r: seq<(A, Tree<A>)>)
    requires |ss| == |xs| && |gs| == |xs|
    ensures |r| == |xs|
    ensures forall i :: 0 <= i < |r| ==> r[i] == rule.applyParamGradient(step, hp, xs[i], ss[i], gs[i])
  {
    seq(|xs|, i requires 0 <= i < |xs| => rule.applyParamGradient(step, hp, xs[i], ss[i], gs[i]))
  }

  function Firsts<A>(out: seq<(A, Tree<A>)>): (r: seq<A>)
    ensures |r| == |out|
    ensures forall i :: 0 <= i < |r| ==> r[i] == out[i].0
  {
    seq(|out|, i requires 0 <= i < |out| => out[i].0)
  }

  function Seconds<A>(out: seq<(A, Tree<A>)>): (r: seq<Tree<A>>)
    ensures |r| == |out|
    ensures forall i :: 0 <= i < |r| ==> r[i] == out[i].1
  {
    seq(|out|, i requires 0 <= i < |out| => out[i].1)
  }

  /** `OptimizerDef.apply_gradient`: flatten the parameters, cut the state
      and the gradients at the parameters' leaves, apply the rule to each
      triple, and rebuild both trees in the parameters' shape. */
  function BaseApply<A, V(==)>(rule: UpdateRule<A, V>, hp: HyperParams<V>, params: Tree<A>,
                               state: OptState<A>, grads: Tree<A>): (r: Result<(Tree<A>, OptState<A>)>)
    ensures state.SubStates? ==> r == Err(NotAnOptimizerState)
  {
    match state
    case SubStates(_) => Err(NotAnOptimizerState)
    case OptimizerState(step, ps) =>
      var shape := ShapeOf(params);
      var ss :- FlattenUpTo(shape, ps);
      var gs :- FlattenUpTo(shape, grads);
      var out := ApplyEach(rule, step, hp, Leaves(params), ss, gs);
      Ok((Unflatten(shape, LeafTrees(Firsts(out))), OptimizerState(step + 1, Unflatten(shape, Seconds(out)))))
  }

  /** The per-leaf function `ReplicatedOptimizer` maps over the gradients. */
  function MeanLeaf<A>(mean: A -> A): A -> Tree<A>
  {
    g => Leaf(mean(g))
  }

  /** `apply_gradient(hyper_params, params, state, grads)`. */
  function ApplyGradient<A, V(==)>(d: OptimizerDef<A, V>, hp: HyperParams<V>, params: Tree<A>,
                                   state: OptState<A>, grads: Tree<A>): (r: Result<(Tree<A>, OptState<A>)>)
    ensures d.Multi? && (!hp.Many? || !state.SubStates?) ==> r == Err(NotIterable)
    ensures d.Multi? && r.Ok? ==>
      r.value.1.SubStates? && |r.value.1.subs| == Min3(|d.focuses|, |hp.items|, |state.subs|)
    decreases d, 1
  {
    match d
    case Base(_, rule) => BaseApply(rule, hp, params, state, grads)
    case Replicated(inner, mean) => ApplyGradient(inner, hp, params, state, TreeMap(MeanLeaf(mean), grads))
    case Multi(fs) =>
      if !hp.Many? || !state.SubStates? then Err(NotIterable)
      else
        var out :- MultiApply(fs, hp.items, state.subs, params, params, grads);
        Ok((out.0, SubStates(out.1)))
  }

  /** The new parameters a sub-optimizer returns, as the sequence of values
      `Traversal.set` consumes one at a time; anything but a list fails. */
  function ListItems<A>(t: Tree<A>): (r: Result<seq<Tree<A>>>)
    ensures r.Ok? <==> t.List?
    ensures r.Ok? ==> r.value == t.items
  {
    if t.List? then Ok(t.items) else Err(StructureMismatch)
  }

  /** The loop of `MultiOptimizer.apply_gradient`: `zip` stops at the shortest
      of the pairs, hyperparameters and states; each sub-optimizer reads its
      parameters and gradients from the ORIGINAL trees and writes its new
      parameters into the running result `cur`. */
  function MultiApply<A, V(==)>(fs: seq<Focus<A, V>>, hs: seq<HyperParams<V>>, ss: seq<OptState<A>>,
                                params: Tree<A>, cur: Tree<A>, grads: Tree<A>): (r: Result<(Tree<A>, seq<OptState<A>>)>)
    ensures r.Ok? ==> |r.value.1| == Min3(|fs|, |hs|, |ss|)
    decreases fs, 0
  {
    if fs == [] || hs == [] || ss == [] then Ok((cur, []))
    else
      var p :- Iterate(fs[0].traversal, params);
      var g :- Iterate(fs[0].traversal, grads);
      assert fs[0].opt < fs[0];
      var out :- ApplyGradient(fs[0].opt, hs[0], List(p), ss[0], List(g));
      var ps :- ListItems(out.0);
      var next :- Set(fs[0].traversal, ps, cur);
      var rest :- MultiApply(fs[1..], hs[1..], ss[1..], params, next, grads);
      Ok((rest.0, [out.1] + rest.1))
  }

  // ---------------------------------------------------------------------------
  // The Optimizer

  /** `OptimizerDef.create(target, focus)`: with a focus the definition is
      wrapped in a one-pair MultiOptimizer first. */
  function Create<A, V(==)>(d: OptimizerDef<A, V>, target: Tree<A>, focus: Option<ModelParamTraversal<A>>): (r: Result<Optimizer<A, V>>)
    ensures r.Ok? ==> r.value.target == target
    ensures focus.None? ==> (r.Ok? <==> InitState(d, target).Ok?)
    ensures focus.None? && r.Ok? ==> r.value.optimizerDef == d && r.value.state == InitState(d, target).value
    ensures focus.Some? && r.Ok? ==> r.value.optimizerDef == Multi([Focus(focus.value, d)])
  {
    var def := if focus.Some? then Multi([Focus(focus.value, d)]) else d;
    var state :- InitState(def, target);
    Ok(Optimizer(def, state, target))
  }

  /** `Optimizer.apply_gradient(grads, **overrides)`: resolve the
      hyperparameters, then step the definition on the target. */
  function OptimizerApply<A, V(==)>(opt: Optimizer<A, V>, grads: Tree<A>, ov: Overrides<V>): (r: Result<Optimizer<A, V>>)
    ensures r.Ok? <==>
      && UpdateHyperParams(opt.optimizerDef, ov).Ok?
      && ApplyGradient(opt.optimizerDef, UpdateHyperParams(opt.optimizerDef, ov).value, opt.target, opt.state, grads).Ok?
    ensures r.Ok? ==> r.value.optimizerDef == opt.optimizerDef
    ensures r.Ok? ==>
      var out := ApplyGradient(opt.optimizerDef, UpdateHyperParams(opt.optimizerDef, ov).value, opt.target, opt.state, grads).value;
      r.value.target == out.0 && r.value.state == out.1
  {
    var hp :- UpdateHyperParams(opt.optimizerDef, ov);
    var out :- ApplyGradient(opt.optimizerDef, hp, opt.target, opt.state, grads);
    Ok(Optimizer(opt.optimizerDef, out.1, out.0))
  }

  /** `Optimizer.replicate`: the definition is wrapped; the copy to every
      device is not modelled, so target and state stay as they are. */
  function Replicate<A, V(==)>(opt: Optimizer<A, V>, mean: A -> A): (r: Optimizer<A, V>)
    ensures r.optimizerDef.Replicated? && r.optimizerDef.inner == opt.optimizerDef
    ensures r.optimizerDef.crossReplicaMean == mean
    ensures r.state == opt.state && r.target == opt.target
  {
    Optimizer(Replicated(opt.optimizerDef, mean), opt.state, opt.target)
  }

  /** `Optimizer.unreplicate`: only a replicated optimizer can be unwrapped. */
  function Unreplicate<A, V(==)>(opt: Optimizer<A, V>): (r: Result<Optimizer<A, V>>)
    ensures r.Ok? <==> opt.optimizerDef.Replicated?
    ensures !r.Ok? ==> r == Err(NotReplicated)
    ensures r.Ok? ==> r.value == Optimizer(opt.optimizerDef.inner, opt.state, opt.target)
  {
    match opt.optimizerDef
    case Replicated(inner, _) => Ok(Optimizer(inner, opt.state, opt.target))
    case _ => Err(NotReplicated)
  }

  // ---------------------------------------------------------------------------
  // Properties of init_state

  /** Every sub-optimizer of a MultiOptimizer starts from what its own
      `init_state` makes of its traversal's selection, and the whole
      initialisation fails exactly when one of those does. */
  lemma {:induction false} MultiInitSpec<A, V>(fs: seq<Focus<A, V>>, params: Tree<A>)
    ensures MultiInit(fs, params).Ok? <==>
      forall j :: 0 <= j < |fs| ==> params.Dict? && InitState(fs[j].opt, Selection(fs[j], params)).Ok?
    ensures MultiInit(fs, params).Ok? ==> forall j :: 0 <= j < |fs| ==>
      params.Dict? && MultiInit(fs, params).value[j] == InitState(fs[j].opt, Selection(fs[j], params)).value
  {
    MultiInitOk(fs, params);
    if MultiInit(fs, params).Ok? {
      MultiInitValues(fs, params);
    }
  }

  lemma {:induction false} MultiInitOk<A, V>(fs: seq<Focus<A, V>>, params: Tree<A>)
    ensures MultiInit(fs, params).Ok? <==>
      forall j :: 0 <= j < |fs| ==> params.Dict? && InitState(fs[j].opt, Selection(fs[j], params)).Ok?
  {
    if fs != [] {
      MultiInitOk(fs[1..], params);
      forall j | 0 < j < |fs| ensures fs[1..][j - 1] == fs[j] {}
    }
  }

  lemma {:induction false} MultiInitValues<A, V>(fs: seq<Focus<A, V>>, params: Tree<A>)
    requires MultiInit(fs, params).Ok?
    ensures forall j :: 0 <= j < |fs| ==>
      && params.Dict? && InitState(fs[j].opt, Selection(fs[j], params)).Ok?
      && MultiInit(fs, params).value[j] == InitState(fs[j].opt, Selection(fs[j], params)).value
  {
    if fs != [] {
      MultiInitValues(fs[1..], params);
      forall j | 0 < j < |fs| ensures fs[1..][j - 1] == fs[j] {}
    }
  }

  // ---------------------------------------------------------------------------
  // Properties of the MultiOptimizer step

  /** The j-th new sub-state is what the j-th sub-optimizer computes from the
      ORIGINAL parameters and gradients, whatever earlier pairs wrote. */
  lemma {:induction false} MultiApplyAligned<A, V>(fs: seq<Focus<A, V>>, hs: seq<HyperParams<V>>, ss: seq<OptState<A>>,
                                                       params: Tree<A>, cur: Tree<A>, grads: Tree<A>)
    requires MultiApply(fs, hs, ss, params, cur, grads).Ok?
    ensures forall j :: 0 <= j < |MultiApply(fs, hs, ss, params, cur, grads).value.1| ==>
      && params.Dict? && grads.Dict?
      && ApplyGradient(fs[j].opt, hs[j], Selection(fs[j], params), ss[j], Selection(fs[j], grads)).Ok?
      && ApplyGradient(fs[j].opt, hs[j], Selection(fs[j], params), ss[j], Selection(fs[j], grads)).value.1
         == MultiApply(fs, hs, ss, params, cur, grads).value.1[j]
    decreases fs
  {
    if fs != [] && hs != [] && ss != [] {
      var p := Iterate(fs[0].traversal, params).value;
      var g := Iterate(fs[0].traversal, grads).value;
      var out := ApplyGradient(fs[0].opt, hs[0], List(p), ss[0], List(g)).value;
      var next := Set(fs[0].traversal, out.0.items, cur).value;
      MultiApplyAligned(fs[1..], hs[1..], ss[1..], params, next, grads);
      var r := MultiApply(fs, hs, ss, params, cur, grads).value;
      var rest := MultiApply(fs[1..], hs[1..], ss[1..], params, next, grads).value;
      assert r.1 == [out.1] + rest.1;
      forall j | 0 <= j < |r.1|
        ensures ApplyGradient(fs[j].opt, hs[j], Selection(fs[j], params), ss[j], Selection(fs[j], grads)).Ok?
        ensures ApplyGradient(fs[j].opt, hs[j], Selection(fs[j], params), ss[j], Selection(fs[j], grads)).value.1 == r.1[j]
      {
        if j > 0 {
          assert fs[1..][j - 1] == fs[j] && hs[1..][j - 1] == hs[j] && ss[1..][j - 1] == ss[j];
        }
      }
    }
  }

  // ---------------------------------------------------------------------------
  // Properties of a concrete optimizer

  /** `init_state` gives every parameter the state `init_param_state` makes
      of it, in a tree that has the parameters' structure down to their
      leaves, so `apply_gradient` can cut it there. */
  lemma InitStateConforms<A, V>(h: HyperParams<V>, rule: UpdateRule<A, V>, params: Tree<A>)
    ensures InitState(Base(h, rule), params).Ok?
    ensures InitState(Base(h, rule), params).value.step == 0
    ensures FlattenUpTo(ShapeOf(params), InitState(Base(h, rule), params).value.paramStates)
         == Ok(MapAtoms(rule.initParamState, Leaves(params)))
  {
    TreeMapIsUnflatten(rule.initParamState, params);
    UnflattenConforms(ShapeOf(params), MapAtoms(rule.initParamState, Leaves(params)));
  }

  /** When each parameter's state is a single array, the state tree has
      exactly the parameters' shape. */
  lemma InitStateShape<A, V>(h: HyperParams<V>, rule: UpdateRule<A, V>, params: Tree<A>, single: A -> A)
    requires forall x :: rule.initParamState(x) == Leaf(single(x))
    ensures InitState(Base(h, rule), params).Ok?
    ensures ShapeOf(InitState(Base(h, rule), params).value.paramStates) == ShapeOf(params)
  {
    var xs := Leaves(params);
    var ys := seq(|xs|, i requires 0 <= i < |xs| => single(xs[i]));
    assert MapAtoms(rule.initParamState, xs) == LeafTrees(ys);
    TreeMapIsUnflatten(rule.initParamState, params);
    UnflattenAtoms(ShapeOf(params), ys);
  }

  /** A concrete optimizer's step succeeds exactly when the state and the
      gradients both have the parameters' structure down to the leaves. It
      then applies the rule leaf by leaf, keeps the parameters' shape, gives
      the new state the same structure, and counts one step. */
  lemma BaseApplySpec<A, V>(rule: UpdateRule<A, V>, hp: HyperParams<V>, params: Tree<A>,
                            step: nat, ps: Tree<A>, grads: Tree<A>)
    ensures BaseApply(rule, hp, params, OptimizerState(step, ps), grads).Ok? <==>
      FlattenUpTo(ShapeOf(params), ps).Ok? && FlattenUpTo(ShapeOf(params), grads).Ok?
    ensures BaseApply(rule, hp, params, OptimizerState(step, ps), grads).Ok? ==>
      var np := BaseApply(rule, hp, params, OptimizerState(step, ps), grads).value.0;
      var ns := BaseApply(rule, hp, params, OptimizerState(step, ps), grads).value.1;
      var ss := FlattenUpTo(ShapeOf(params), ps).value;
      var gs := FlattenUpTo(ShapeOf(params), grads).value;
      && ShapeOf(np) == ShapeOf(params)
      && |Leaves(np)| == |Leaves(params)|
      && (forall i :: 0 <= i < |Leaves(params)| ==>
            Leaves(np)[i] == rule.applyParamGradient(step, hp, Leaves(params)[i], ss[i], gs[i]).0)
      && ns.OptimizerState? && ns.step == step + 1
      && FlattenUpTo(ShapeOf(params), ns.paramStates).Ok?
      && |FlattenUpTo(ShapeOf(params), ns.paramStates).value| == |Leaves(params)|
      && (forall i :: 0 <= i < |Leaves(params)| ==>
            FlattenUpTo(ShapeOf(params), ns.paramStates).value[i]
            == rule.applyParamGradient(step, hp, Leaves(params)[i], ss[i], gs[i]).1)
  {
    var shape := ShapeOf(params);
    if FlattenUpTo(shape, ps).Ok? && FlattenUpTo(shape, grads).Ok? {
      var ss := FlattenUpTo(shape, ps).value;
      var gs := FlattenUpTo(shape, grads).value;
      var out := ApplyEach(rule, step, hp, Leaves(params), ss, gs);
      UnflattenAtoms(shape, Firsts(out));
      UnflattenConforms(shape, Seconds(out));
    }
  }

  /** With no leaves there is nothing to update: both new trees are the
      parameters' (empty) containers. */
  lemma BaseApplyNoLeaves<A, V>(rule: UpdateRule<A, V>, hp: HyperParams<V>, params: Tree<A>,
                                step: nat, ps: Tree<A>, grads: Tree<A>)
    requires |Leaves(params)| == 0
    requires FlattenUpTo(ShapeOf(params), ps).Ok? && FlattenUpTo(ShapeOf(params), grads).Ok?
    ensures BaseApply(rule, hp, params, OptimizerState(step, ps), grads)
         == Ok((params, OptimizerState(step + 1, params)))
  {
    var shape := ShapeOf(params);
    var out := ApplyEach(rule, step, hp, Leaves(params), FlattenUpTo(shape, ps).value, FlattenUpTo(shape, grads).value);
    BaseApplyUnfold(rule, hp, params, step, ps, grads);
    assert LeafTrees(Firsts(out)) == [] == LeafTrees(Leaves(params));
    assert Seconds(out) == [];
    UnflattenLeaves(params);
  }

  lemma BaseApplyUnfold<A, V>(rule: UpdateRule<A, V>, hp: HyperParams<V>, params: Tree<A>,
                              step: nat, ps: Tree<A>, grads: Tree<A>)
    requires FlattenUpTo(ShapeOf(params), ps).Ok? && FlattenUpTo(ShapeOf(params), grads).Ok?
    ensures var shape := ShapeOf(params);
      var out := ApplyEach(rule, step, hp, Leaves(params), FlattenUpTo(shape, ps).value, FlattenUpTo(shape, grads).value);
      BaseApply(rule, hp, params, OptimizerState(step, ps), grads)
        == Ok((Unflatten(shape, LeafTrees(Firsts(out))), OptimizerState(step + 1, Unflatten(shape, Seconds(out)))))
  {
  }

  /** Under a rule that changes nothing, a step from the initial state gives
      back the parameters and the initial per-parameter states, at step 1. */
  lemma NoOpStep<A, V>(h: HyperParams<V>, rule: UpdateRule<A, V>, hp: HyperParams<V>, params: Tree<A>, grads: Tree<A>)
    requires forall step, h', x, st, g :: rule.applyParamGradient(step, h', x, st, g) == (x, st)
    requires FlattenUpTo(ShapeOf(params), grads).Ok?
    ensures ApplyGradient(Base(h, rule), hp, params, InitState(Base(h, rule), params).value, grads)
         == Ok((params, OptimizerState(1, TreeMap(rule.initParamState, params))))
  {
    var shape := ShapeOf(params);
    var ss := MapAtoms(rule.initParamState, Leaves(params));
    InitStateConforms(h, rule, params);
    var gs := FlattenUpTo(shape, grads).value;
    var out := ApplyEach(rule, 0, hp, Leaves(params), ss, gs);
    assert Firsts(out) == Leaves(params);
    assert Seconds(out) == ss;
    UnflattenLeaves(params);
    TreeMapIsUnflatten(rule.initParamState, params);
  }

  /** On a single device the cross-replica mean of a gradient is the
      gradient, and the replicated step is the plain one. */
  lemma ReplicatedSingleDevice<A, V>(d: OptimizerDef<A, V>, mean: A -> A, hp: HyperParams<V>,
                                     params: Tree<A>, state: OptState<A>, grads: Tree<A>)
    requires forall x :: mean(x) == x
    ensures ApplyGradient(Replicated(d, mean), hp, params, state, grads) == ApplyGradient(d, hp, params, state, grads)
  {
    TreeMapIsUnflatten(MeanLeaf(mean), grads);
    assert MapAtoms(MeanLeaf(mean), Leaves(grads)) == LeafTrees(Leaves(grads));
    UnflattenLeaves(grads);
  }

  /** A sub-optimizer handed a list returns a list of the same length, so
      the new parameters the MultiOptimizer loop passes to `set` are always
      a list. */
  lemma {:induction false} ApplyToList<A, V>(d: OptimizerDef<A, V>, hp: HyperParams<V>, ts: seq<Tree<A>>,
                                             state: OptState<A>, grads: Tree<A>)
    requires ApplyGradient(d, hp, List(ts), state, grads).Ok?
    ensures ApplyGradient(d, hp, List(ts), state, grads).value.0.List?
    ensures |ApplyGradient(d, hp, List(ts), state, grads).value.0.items| == |ts|
    decreases d
  {
    match d
    case Base(_, rule) =>
      BaseApplySpec(rule, hp, List(ts), state.step, state.paramStates, grads);
    case Replicated(inner, mean) =>
      ApplyToList(inner, hp, ts, state, TreeMap(MeanLeaf(mean), grads));
    case Multi(fs) =>
  }

  // ---------------------------------------------------------------------------
  // Properties of a MultiOptimizer

  /** Each step keeps a canonical parameter dict canonical. */
  lemma {:induction false} ApplyCanonical<A, V>(d: OptimizerDef<A, V>, hp: HyperParams<V>, params: Tree<A>,
                                                state: OptState<A>, grads: Tree<A>)
    requires Canonical(params)
    requires ApplyGradient(d, hp, params, state, grads).Ok?
    ensures Canonical(ApplyGradient(d, hp, params, state, grads).value.0)
    decreases d, 1
  {
    match d
    case Base(_, rule) =>
      var shape := ShapeOf(params);
      var ss := FlattenUpTo(shape, state.paramStates).value;
      var gs := FlattenUpTo(shape, grads).value;
      var out := ApplyEach(rule, state.step, hp, Leaves(params), ss, gs);
      ShapeCanonical(params);
      UnflattenCanonical(shape, LeafTrees(Firsts(out)));
    case Replicated(inner, mean) =>
      ApplyCanonical(inner, hp, params, state, TreeMap(MeanLeaf(mean), grads));
    case Multi(fs) =>
      MultiApplyCanonical(fs, hp.items, state.subs, params, params, grads);
  }

  /** The result of one pair of the MultiOptimizer loop: the dict `cur`
      after the sub-optimizer's new values for `f`'s selection are written
      into it. */
  function StepResult<A, V(==)>(f: Focus<A, V>, h: HyperParams<V>, s: OptState<A>,
                                params: Tree<A>, cur: Tree<A>, grads: Tree<A>): Option<Tree<A>>
    requires params.Dict? && grads.Dict?
  {
    var out := ApplyGradient(f.opt, h, Selection(f, params), s, Selection(f, grads));
    if out.Ok? && out.value.0.List? && Set(f.traversal, out.value.0.items, cur).Ok?
    then Some(Set(f.traversal, out.value.0.items, cur).value)
    else None
  }

  /** MultiApply's first iteration, unrolled. */
  lemma MultiApplyUnroll<A, V>(fs: seq<Focus<A, V>>, hs: seq<HyperParams<V>>, ss: seq<OptState<A>>,
                               params: Tree<A>, cur: Tree<A>, grads: Tree<A>)
    requires fs != [] && hs != [] && ss != []
    requires MultiApply(fs, hs, ss, params, cur, grads).Ok?
    ensures params.Dict? && grads.Dict?
    ensures StepResult(fs[0], hs[0], ss[0], params, cur, grads).Some?
    ensures MultiApply(fs[1..], hs[1..], ss[1..], params, StepResult(fs[0], hs[0], ss[0], params, cur, grads).value, grads).Ok?
    ensures MultiApply(fs, hs, ss, params, cur, grads).value.0
         == MultiApply(fs[1..], hs[1..], ss[1..], params, StepResult(fs[0], hs[0], ss[0], params, cur, grads).value, grads).value.0
  {
  }

  /** One pair of the MultiOptimizer loop keeps canonical trees canonical. */
  lemma MultiStepCanonical<A, V>(f: Focus<A, V>, h: HyperParams<V>, s: OptState<A>,
                                 params: Tree<A>, cur: Tree<A>, grads: Tree<A>)
    requires params.Dict? && grads.Dict?
    requires Canonical(params) && Canonical(cur)
    requires StepResult(f, h, s, params, cur, grads).Some?
    ensures StepResult(f, h, s, params, cur, grads).value.Dict?
    ensures Canonical(StepResult(f, h, s, params, cur, grads).value)
    decreases f, 0
  {
    assert f.opt < f;
    var p := Iterate(f.traversal, params).value;
    var g := Iterate(f.traversal, grads).value;
    var out := ApplyGradient(f.opt, h, List(p), s, List(g)).value;
    IterateCanonical(f.traversal, params.members);
    assert Canonical(List(p));
    ApplyCanonical(f.opt, h, List(p), s, List(g));
    var ps := out.0.items;
    assert forall i :: 0 <= i < |ps| ==> Canonical(ps[i]);
    SetCanonical(f.traversal, ps, cur.members);
  }

  lemma {:induction false} MultiApplyCanonical<A, V>(fs: seq<Focus<A, V>>, hs: seq<HyperParams<V>>, ss: seq<OptState<A>>,
                                                     params: Tree<A>, cur: Tree<A>, grads: Tree<A>)
    requires Canonical(params) && Canonical(cur)
    requires MultiApply(fs, hs, ss, params, cur, grads).Ok?
    ensures Canonical(MultiApply(fs, hs, ss, params, cur, grads).value.0)
    decreases fs, 0
  {
    if fs != [] && hs != [] && ss != [] {
      MultiApplyUnroll(fs, hs, ss, params, cur, grads);
      assert fs[0] in fs;
      MultiStepCanonical(fs[0], hs[0], ss[0], params, cur, grads);
      var next := StepResult(fs[0], hs[0], ss[0], params, cur, grads).value;
      MultiApplyCanonical(fs[1..], hs[1..], ss[1..], params, next, grads);
    }
  }

  lemma {:induction false} MultiApplyKeepsUnselected<A, V>(fs: seq<Focus<A, V>>, hs: seq<HyperParams<V>>, ss: seq<OptState<A>>,
                                                           params: Tree<A>, cur: Tree<A>, grads: Tree<A>, p: Path, v: Tree<A>)
    requires Canonical(params) && Canonical(cur)
    requires MultiApply(fs, hs, ss, params, cur, grads).Ok?
    requires |p| > 0 && Lookup(cur, p) == Some(v) && !v.Dict?
    requires forall j :: 0 <= j < |fs| ==> !fs[j].traversal.filter(PathString(p), v)
    ensures Lookup(MultiApply(fs, hs, ss, params, cur, grads).value.0, p) == Some(v)
    decreases fs
  {
    if fs != [] && hs != [] && ss != [] {
      MultiApplyUnroll(fs, hs, ss, params, cur, grads);
      MultiStepCanonical(fs[0], hs[0], ss[0], params, cur, grads);
      var out := ApplyGradient(fs[0].opt, hs[0], Selection(fs[0], params), ss[0], Selection(fs[0], grads)).value;
      SetKeepsUnselected(fs[0].traversal, out.0.items, cur.members, p, v);
      var next := StepResult(fs[0], hs[0], ss[0], params, cur, grads).value;
      MultiApplyKeepsUnselected(fs[1..], hs[1..], ss[1..], params, next, grads, p, v);
    }
  }

  /** A MultiOptimizer step leaves every parameter that no traversal
      selects where it was and as it was. */
  lemma MultiKeepsUnselected<A, V>(fs: seq<Focus<A, V>>, hp: HyperParams<V>, params: Tree<A>,
                                   state: OptState<A>, grads: Tree<A>, p: Path, v: Tree<A>)
    requires Canonical(params)
    requires ApplyGradient(Multi(fs), hp, params, state, grads).Ok?
    requires |p| > 0 && Lookup(params, p) == Some(v) && !v.Dict?
    requires forall j :: 0 <= j < |fs| ==> !fs[j].traversal.filter(PathString(p), v)
    ensures Lookup(ApplyGradient(Multi(fs), hp, params, state, grads).value.0, p) == Some(v)
  {
    MultiApplyKeepsUnselected(fs, hp.items, state.subs, params, params, grads, p, v);
  }

  /** A one-pair MultiOptimizer (what `create` builds for a focus) writes
      the sub-optimizer's new parameters back where its traversal read
      them: the `k`-th path the traversal visits receives the `k`-th new
      parameter. When `zip` finds no hyperparameters or no states, the
      parameters come back unchanged. */
  lemma SinglePairWritesBack<A, V>(f: Focus<A, V>, hp: HyperParams<V>, ms: seq<Member<A>>,
                                   state: OptState<A>, grads: Tree<A>, k: nat)
    requires Canonical(Dict(ms))
    requires ApplyGradient(Multi([f]), hp, Dict(ms), state, grads).Ok?
    requires k < |IteratedPaths(f.traversal, ms)|
    ensures hp.Many? && state.SubStates?
    ensures |hp.items| == 0 || |state.subs| == 0 ==>
      ApplyGradient(Multi([f]), hp, Dict(ms), state, grads).value.0 == Dict(ms)
    ensures |hp.items| > 0 && |state.subs| > 0 ==>
      && grads.Dict?
      && var out := ApplyGradient(f.opt, hp.items[0], Selection(f, Dict(ms)), state.subs[0], Selection(f, grads));
      && out.Ok? && out.value.0.List? && k < |out.value.0.items|
      && Lookup(ApplyGradient(Multi([f]), hp, Dict(ms), state, grads).value.0, IteratedPaths(f.traversal, ms)[k])
         == Some(out.value.0.items[k])
  {
    if |hp.items| > 0 && |state.subs| > 0 {
      var fs := [f];
      MultiApplyUnroll(fs, hp.items, state.subs, Dict(ms), Dict(ms), grads);
      assert fs[0] == f && fs[1..] == [];
      var out := ApplyGradient(f.opt, hp.items[0], Selection(f, Dict(ms)), state.subs[0], Selection(f, grads)).value;
      SetArity(f.traversal, out.0.items, ms);
      IterateUnfold(f.traversal, ms);
      SetWritesInOrder(f.traversal, out.0.items, ms, k);
    }
  }

  // ---------------------------------------------------------------------------
  // Properties of the Optimizer

  /** `create` with a focus initialises the wrapped definition on the list
      the focus selects from the target. */
  lemma CreateWithFocus<A, V>(d: OptimizerDef<A, V>, target: Tree<A>, tr: ModelParamTraversal<A>)
    ensures Create(d, target, Some(tr)).Ok? <==>
      target.Dict? && InitState(d, Selection(Focus(tr, d), target)).Ok?
    ensures Create(d, target, Some(tr)).Ok? ==>
      target.Dict? &&
      Create(d, target, Some(tr)).value.state == SubStates([InitState(d, Selection(Focus(tr, d), target)).value])
  {
    MultiInitSpec([Focus(tr, d)], target);
  }

  /** Unreplicating undoes replicating. */
  lemma {:induction false} UnreplicateReplicate<A, V>(opt: Optimizer<A, V>, mean: A -> A)
    ensures Unreplicate(Replicate(opt, mean)) == Ok(opt)
  {
  }
}
