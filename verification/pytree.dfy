/** Nested parameter structures ("pytrees") and the flatten/unflatten
    capability the optimizer layer borrows from jax.

    A tree is an atom (an array), a sequence container (a Python list)
    or a dict. A dict is kept with its members strictly sorted by key: Python
    dicts compare equal regardless of insertion order, jax flattens a dict in
    sorted key order, and the flattening in `FlatDict` sorts too, so the sorted
    form loses nothing observable. `Canonical` states that invariant.

    A treedef (jax's structural descriptor) is a tree whose atoms are `()`.
 */
module PyTree {
  import opened Results
  import opened Lexicographic

  datatype Tree<A> = Leaf(atom: A) | List(items: seq<Tree<A>>) | Dict(members: seq<Member<A>>)

  datatype Member<A> = Member(key: string, child: Tree<A>)

  /** jax's treedef: the structure of a tree with its atoms forgotten. */
  type Shape = Tree<()>

  predicate KeysSorted<A>(ms: seq<Member<A>>)
  {
    forall i, j :: 0 <= i < j < |ms| ==> StrLt(ms[i].key, ms[j].key)
  }

  /** Every dict of the tree lists its members in strictly increasing key order. */
  predicate Canonical<A>(t: Tree<A>)
  {
    match t
    case Leaf(_) => true
    case List(ts) => forall i :: 0 <= i < |ts| ==> Canonical(ts[i])
    case Dict(ms) => KeysSorted(ms) && forall i :: 0 <= i < |ms| ==> Canonical(ms[i].child)
  }

  // ---------------------------------------------------------------------------
  // jax.tree_flatten: the atoms, in order

  function Leaves<A>(t: Tree<A>): seq<A>
  {
    match t
    case Leaf(a) => [a]
    case List(ts) => LeavesOfList(ts)
    case Dict(ms) => LeavesOfMembers(ms)
  }

  function LeavesOfList<A>(ts: seq<Tree<A>>): seq<A>
  {
    if ts == [] then [] else Leaves(ts[0]) + LeavesOfList(ts[1..])
  }

  function LeavesOfMembers<A>(ms: seq<Member<A>>): seq<A>
  {
    if ms == [] then [] else Leaves(ms[0].child) + LeavesOfMembers(ms[1..])
  }

  /** Each atom as a one-atom tree: the pieces `Unflatten` takes to rebuild a tree exactly. */
  function LeafTrees<A>(xs: seq<A>): (r: seq<Tree<A>>)
    ensures |r| == |xs|
  {
    seq(|xs|, i requires 0 <= i < |xs| => Leaf(xs[i]))
  }

  // ---------------------------------------------------------------------------
  // The treedef of a tree

  function ShapeOf<A>(t: Tree<A>): (s: Shape)
    ensures |Leaves(s)| == |Leaves(t)|
  {
    match t
    case Leaf(_) => Leaf(())
    case List(ts) => List(ShapeOfList(ts))
    case Dict(ms) => Dict(ShapeOfMembers(ms))
  }

  function ShapeOfList<A>(ts: seq<Tree<A>>): (r: seq<Shape>)
    ensures |r| == |ts|
    ensures forall i :: 0 <= i < |r| ==> r[i] == ShapeOf(ts[i])
    ensures |LeavesOfList(r)| == |LeavesOfList(ts)|
  {
    if ts == [] then [] else [ShapeOf(ts[0])] + ShapeOfList(ts[1..])
  }

  function ShapeOfMembers<A>(ms: seq<Member<A>>): (r: seq<Member<()>>)
    ensures |r| == |ms|
    ensures forall i :: 0 <= i < |r| ==> r[i] == Member(ms[i].key, ShapeOf(ms[i].child))
    ensures |LeavesOfMembers(r)| == |LeavesOfMembers(ms)|
  {
    if ms == [] then [] else [Member(ms[0].key, ShapeOf(ms[0].child))] + ShapeOfMembers(ms[1..])
  }

  // ---------------------------------------------------------------------------
  // jax.tree_unflatten: one piece per atom position of the treedef. A piece
  // may be a whole subtree, which is then grafted in place of that atom.

  function Unflatten<A>(s: Shape, parts: seq<Tree<A>>): Tree<A>
    requires |parts| == |Leaves(s)|
  {
    match s
    case Leaf(_) => parts[0]
    case List(ss) => List(UnflattenList(ss, parts))
    case Dict(ms) => Dict(UnflattenMembers(ms, parts))
  }

  function UnflattenList<A>(ss: seq<Shape>, parts: seq<Tree<A>>): (r: seq<Tree<A>>)
    requires |parts| == |LeavesOfList(ss)|
    ensures |r| == |ss|
  {
    if ss == [] then []
    else
      var n := |Leaves(ss[0])|;
      [Unflatten(ss[0], parts[..n])] + UnflattenList(ss[1..], parts[n..])
  }

  function UnflattenMembers<A>(ms: seq<Member<()>>, parts: seq<Tree<A>>): (r: seq<Member<A>>)
    requires |parts| == |LeavesOfMembers(ms)|
    ensures |r| == |ms|
    ensures forall i :: 0 <= i < |r| ==> r[i].key == ms[i].key
  {
    if ms == [] then []
    else
      var n := |Leaves(ms[0].child)|;
      [Member(ms[0].key, Unflatten(ms[0].child, parts[..n]))] + UnflattenMembers(ms[1..], parts[n..])
  }

  // ---------------------------------------------------------------------------
  // treedef.flatten_up_to: cut another tree along the treedef, failing when
  // the other tree does not have the treedef's containers, lengths and keys.

  function FlattenUpTo<A>(s: Shape, t: Tree<A>): (r: Result<seq<Tree<A>>>)
    ensures r.Ok? ==> |r.value| == |Leaves(s)|
  {
    match s
    case Leaf(_) => Ok([t])
    case List(ss) =>
      if t.List? && |t.items| == |ss| then FlattenUpToList(ss, t.items) else Err(StructureMismatch)
    case Dict(ms) =>
      if t.Dict? && |t.members| == |ms| then FlattenUpToMembers(ms, t.members) else Err(StructureMismatch)
  }

  function FlattenUpToList<A>(ss: seq<Shape>, ts: seq<Tree<A>>): (r: Result<seq<Tree<A>>>)
    requires |ts| == |ss|
    ensures r.Ok? ==> |r.value| == |LeavesOfList(ss)|
  {
    if ss == [] then Ok([])
    else
      var head :- FlattenUpTo(ss[0], ts[0]);
      var rest :- FlattenUpToList(ss[1..], ts[1..]);
      Ok(head + rest)
  }

  function FlattenUpToMembers<A>(ms: seq<Member<()>>, ns: seq<Member<A>>): (r: Result<seq<Tree<A>>>)
    requires |ns| == |ms|
    ensures r.Ok? ==> |r.value| == |LeavesOfMembers(ms)|
  {
    if ms == [] then Ok([])
    else if ms[0].key != ns[0].key then Err(StructureMismatch)
    else
      var head :- FlattenUpTo(ms[0].child, ns[0].child);
      var rest :- FlattenUpToMembers(ms[1..], ns[1..]);
      Ok(head + rest)
  }

  // ---------------------------------------------------------------------------
  // jax.tree_map with a function that may return a subtree per atom

  function TreeMap<A>(f: A -> Tree<A>, t: Tree<A>): Tree<A>
  {
    match t
    case Leaf(a) => f(a)
    case List(ts) => List(TreeMapList(f, ts))
    case Dict(ms) => Dict(TreeMapMembers(f, ms))
  }

  function TreeMapList<A>(f: A -> Tree<A>, ts: seq<Tree<A>>): seq<Tree<A>>
  {
    if ts == [] then [] else [TreeMap(f, ts[0])] + TreeMapList(f, ts[1..])
  }

  function TreeMapMembers<A>(f: A -> Tree<A>, ms: seq<Member<A>>): seq<Member<A>>
  {
    if ms == [] then [] else [Member(ms[0].key, TreeMap(f, ms[0].child))] + TreeMapMembers(f, ms[1..])
  }

  function MapAtoms<A>(f: A -> Tree<A>, xs: seq<A>): (r: seq<Tree<A>>)
    ensures |r| == |xs|
  {
    seq(|xs|, i requires 0 <= i < |xs| => f(xs[i]))
  }

  // ---------------------------------------------------------------------------
  // Splitting helpers

  lemma LeafTreesSplit<A>(a: seq<A>, b: seq<A>)
    ensures LeafTrees(a + b) == LeafTrees(a) + LeafTrees(b)
    ensures LeafTrees(a + b)[..|a|] == LeafTrees(a)
    ensures LeafTrees(a + b)[|a|..] == LeafTrees(b)
  {
  }

  lemma MapAtomsSplit<A>(f: A -> Tree<A>, a: seq<A>, b: seq<A>)
    ensures MapAtoms(f, a + b) == MapAtoms(f, a) + MapAtoms(f, b)
    ensures MapAtoms(f, a + b)[..|a|] == MapAtoms(f, a)
    ensures MapAtoms(f, a + b)[|a|..] == MapAtoms(f, b)
  {
  }

  // ---------------------------------------------------------------------------
  // Unflatten and FlattenUpTo are inverse: a tree rebuilt from a treedef
  // conforms to that treedef and cuts back into exactly the pieces it was built from.

  lemma {:induction false} UnflattenConforms<A>(s: Shape, parts: seq<Tree<A>>)
    requires |parts| == |Leaves(s)|
    ensures FlattenUpTo(s, Unflatten(s, parts)) == Ok(parts)
  {
    match s
    case Leaf(_) =>
      assert parts == [parts[0]];
    case List(ss) => UnflattenListConforms(ss, parts);
    case Dict(ms) => UnflattenMembersConforms(ms, parts);
  }

  lemma {:induction false} UnflattenListConforms<A>(ss: seq<Shape>, parts: seq<Tree<A>>)
    requires |parts| == |LeavesOfList(ss)|
    ensures FlattenUpToList(ss, UnflattenList(ss, parts)) == Ok(parts)
  {
    if ss != [] {
      var n := |Leaves(ss[0])|;
      var r := UnflattenList(ss, parts);
      UnflattenListHead(ss, parts);
      UnflattenConforms(ss[0], parts[..n]);
      UnflattenListConforms(ss[1..], parts[n..]);
      FlattenUpToListCompose(ss, r, parts, n);
    }
  }

  lemma UnflattenListHead<A>(ss: seq<Shape>, parts: seq<Tree<A>>)
    requires ss != [] && |parts| == |LeavesOfList(ss)|
    ensures var n := |Leaves(ss[0])|;
      && UnflattenList(ss, parts)[0] == Unflatten(ss[0], parts[..n])
      && UnflattenList(ss, parts)[1..] == UnflattenList(ss[1..], parts[n..])
  {
  }

  lemma SliceJoin<T>(s: seq<T>, n: nat)
    requires n <= |s|
    ensures s[..n] + s[n..] == s
  {
  }

  /** `FlattenUpToList` cuts a list into its head's pieces followed by its tail's. */
  lemma FlattenUpToListCompose<A>(ss: seq<Shape>, ts: seq<Tree<A>>, parts: seq<Tree<A>>, n: nat)
    requires ss != [] && |ts| == |ss| && n <= |parts|
    requires FlattenUpTo(ss[0], ts[0]) == Ok(parts[..n])
    requires FlattenUpToList(ss[1..], ts[1..]) == Ok(parts[n..])
    ensures FlattenUpToList(ss, ts) == Ok(parts)
  {
    FlattenUpToListCons(ss, ts, parts[..n], parts[n..]);
    SliceJoin(parts, n);
  }

  lemma FlattenUpToListCons<A>(ss: seq<Shape>, ts: seq<Tree<A>>, a: seq<Tree<A>>, b: seq<Tree<A>>)
    requires ss != [] && |ts| == |ss|
    requires FlattenUpTo(ss[0], ts[0]) == Ok(a)
    requires FlattenUpToList(ss[1..], ts[1..]) == Ok(b)
    ensures FlattenUpToList(ss, ts) == Ok(a + b)
  {
  }

  lemma {:induction false} UnflattenMembersConforms<A>(ms: seq<Member<()>>, parts: seq<Tree<A>>)
    requires |parts| == |LeavesOfMembers(ms)|
    ensures FlattenUpToMembers(ms, UnflattenMembers(ms, parts)) == Ok(parts)
  {
    if ms != [] {
      var n := |Leaves(ms[0].child)|;
      var r := UnflattenMembers(ms, parts);
      UnflattenMembersHead(ms, parts);
      UnflattenConforms(ms[0].child, parts[..n]);
      UnflattenMembersConforms(ms[1..], parts[n..]);
      FlattenUpToMembersCompose(ms, r, parts, n);
    }
  }

  lemma UnflattenMembersHead<A>(ms: seq<Member<()>>, parts: seq<Tree<A>>)
    requires ms != [] && |parts| == |LeavesOfMembers(ms)|
    ensures var n := |Leaves(ms[0].child)|;
      && UnflattenMembers(ms, parts)[0] == Member(ms[0].key, Unflatten(ms[0].child, parts[..n]))
      && UnflattenMembers(ms, parts)[1..] == UnflattenMembers(ms[1..], parts[n..])
  {
  }

  /** The same for the members of a dict. */
  lemma FlattenUpToMembersCompose<A>(ms: seq<Member<()>>, ns: seq<Member<A>>, parts: seq<Tree<A>>, n: nat)
    requires ms != [] && |ns| == |ms| && ms[0].key == ns[0].key && n <= |parts|
    requires FlattenUpTo(ms[0].child, ns[0].child) == Ok(parts[..n])
    requires FlattenUpToMembers(ms[1..], ns[1..]) == Ok(parts[n..])
    ensures FlattenUpToMembers(ms, ns) == Ok(parts)
  {
    FlattenUpToMembersCons(ms, ns, parts[..n], parts[n..]);
    SliceJoin(parts, n);
  }

  lemma FlattenUpToMembersCons<A>(ms: seq<Member<()>>, ns: seq<Member<A>>, a: seq<Tree<A>>, b: seq<Tree<A>>)
    requires ms != [] && |ns| == |ms| && ms[0].key == ns[0].key
    requires FlattenUpTo(ms[0].child, ns[0].child) == Ok(a)
    requires FlattenUpToMembers(ms[1..], ns[1..]) == Ok(b)
    ensures FlattenUpToMembers(ms, ns) == Ok(a + b)
  {
  }

  /** A tree conforms to its own treedef, and the pieces are its atoms. */
  lemma {:induction false} FlattenUpToSelf<A>(t: Tree<A>)
    ensures FlattenUpTo(ShapeOf(t), t) == Ok(LeafTrees(Leaves(t)))
  {
    match t
    case Leaf(a) =>
      assert LeafTrees([a]) == [Leaf(a)];
    case List(ts) => FlattenUpToSelfList(ts);
    case Dict(ms) => FlattenUpToSelfMembers(ms);
  }

  lemma {:induction false} FlattenUpToSelfList<A>(ts: seq<Tree<A>>)
    ensures FlattenUpToList(ShapeOfList(ts), ts) == Ok(LeafTrees(LeavesOfList(ts)))
  {
    if ts != [] {
      var ss := ShapeOfList(ts);
      assert ss[1..] == ShapeOfList(ts[1..]);
      FlattenUpToSelf(ts[0]);
      FlattenUpToSelfList(ts[1..]);
      LeafTreesSplit(Leaves(ts[0]), LeavesOfList(ts[1..]));
    }
  }

  lemma {:induction false} FlattenUpToSelfMembers<A>(ms: seq<Member<A>>)
    ensures FlattenUpToMembers(ShapeOfMembers(ms), ms) == Ok(LeafTrees(LeavesOfMembers(ms)))
  {
    if ms != [] {
      var ss := ShapeOfMembers(ms);
      assert ss[1..] == ShapeOfMembers(ms[1..]);
      FlattenUpToSelf(ms[0].child);
      FlattenUpToSelfMembers(ms[1..]);
      LeafTreesSplit(Leaves(ms[0].child), LeavesOfMembers(ms[1..]));
    }
  }

  /** Rebuilding a tree from its own treedef and atoms gives the tree back. */
  lemma {:induction false} UnflattenLeaves<A>(t: Tree<A>)
    ensures Unflatten(ShapeOf(t), LeafTrees(Leaves(t))) == t
  {
    match t
    case Leaf(a) =>
    case List(ts) => UnflattenLeavesList(ts);
    case Dict(ms) => UnflattenLeavesMembers(ms);
  }

  lemma {:induction false} UnflattenLeavesList<A>(ts: seq<Tree<A>>)
    ensures UnflattenList(ShapeOfList(ts), LeafTrees(LeavesOfList(ts))) == ts
  {
    if ts != [] {
      var ss := ShapeOfList(ts);
      assert ss[1..] == ShapeOfList(ts[1..]);
      LeafTreesSplit(Leaves(ts[0]), LeavesOfList(ts[1..]));
      UnflattenLeaves(ts[0]);
      UnflattenLeavesList(ts[1..]);
    }
  }

  lemma {:induction false} UnflattenLeavesMembers<A>(ms: seq<Member<A>>)
    ensures UnflattenMembers(ShapeOfMembers(ms), LeafTrees(LeavesOfMembers(ms))) == ms
  {
    if ms != [] {
      var ss := ShapeOfMembers(ms);
      assert ss[1..] == ShapeOfMembers(ms[1..]);
      LeafTreesSplit(Leaves(ms[0].child), LeavesOfMembers(ms[1..]));
      UnflattenLeaves(ms[0].child);
      UnflattenLeavesMembers(ms[1..]);
    }
  }

  /** Filling a treedef with one atom per position gives a tree of exactly that
      treedef whose atoms are the given ones, in order. */
  lemma {:induction false} UnflattenAtoms<A>(s: Shape, xs: seq<A>)
    requires |xs| == |Leaves(s)|
    ensures ShapeOf(Unflatten(s, LeafTrees(xs))) == s
    ensures Leaves(Unflatten(s, LeafTrees(xs))) == xs
  {
    match s
    case Leaf(u) =>
      assert u == ();
      assert xs == [xs[0]];
    case List(ss) => UnflattenAtomsList(ss, xs);
    case Dict(ms) => UnflattenAtomsMembers(ms, xs);
  }

  lemma {:induction false} UnflattenAtomsList<A>(ss: seq<Shape>, xs: seq<A>)
    requires |xs| == |LeavesOfList(ss)|
    ensures ShapeOfList(UnflattenList(ss, LeafTrees(xs))) == ss
    ensures LeavesOfList(UnflattenList(ss, LeafTrees(xs))) == xs
  {
    if ss != [] {
      var n := |Leaves(ss[0])|;
      var r := UnflattenList(ss, LeafTrees(xs));
      LeafTreesSplit(xs[..n], xs[n..]);
      SliceJoin(xs, n);
      UnflattenAtoms(ss[0], xs[..n]);
      UnflattenAtomsList(ss[1..], xs[n..]);
      assert r[1..] == UnflattenList(ss[1..], LeafTrees(xs[n..]));
    }
  }

  lemma {:induction false} UnflattenAtomsMembers<A>(ms: seq<Member<()>>, xs: seq<A>)
    requires |xs| == |LeavesOfMembers(ms)|
    ensures ShapeOfMembers(UnflattenMembers(ms, LeafTrees(xs))) == ms
    ensures LeavesOfMembers(UnflattenMembers(ms, LeafTrees(xs))) == xs
  {
    if ms != [] {
      var n := |Leaves(ms[0].child)|;
      var r := UnflattenMembers(ms, LeafTrees(xs));
      LeafTreesSplit(xs[..n], xs[n..]);
      SliceJoin(xs, n);
      UnflattenAtoms(ms[0].child, xs[..n]);
      UnflattenAtomsMembers(ms[1..], xs[n..]);
      assert r[1..] == UnflattenMembers(ms[1..], LeafTrees(xs[n..]));
    }
  }

  /** jax.tree_map is unflattening the treedef with `f` applied to every atom. */
  lemma {:induction false} TreeMapIsUnflatten<A>(f: A -> Tree<A>, t: Tree<A>)
    ensures TreeMap(f, t) == Unflatten(ShapeOf(t), MapAtoms(f, Leaves(t)))
  {
    match t
    case Leaf(a) =>
    case List(ts) => TreeMapIsUnflattenList(f, ts);
    case Dict(ms) => TreeMapIsUnflattenMembers(f, ms);
  }

  lemma {:induction false} TreeMapIsUnflattenList<A>(f: A -> Tree<A>, ts: seq<Tree<A>>)
    ensures TreeMapList(f, ts) == UnflattenList(ShapeOfList(ts), MapAtoms(f, LeavesOfList(ts)))
  {
    if ts != [] {
      var ss := ShapeOfList(ts);
      assert ss[1..] == ShapeOfList(ts[1..]);
      MapAtomsSplit(f, Leaves(ts[0]), LeavesOfList(ts[1..]));
      TreeMapIsUnflatten(f, ts[0]);
      TreeMapIsUnflattenList(f, ts[1..]);
    }
  }

  lemma {:induction false} TreeMapIsUnflattenMembers<A>(f: A -> Tree<A>, ms: seq<Member<A>>)
    ensures TreeMapMembers(f, ms) == UnflattenMembers(ShapeOfMembers(ms), MapAtoms(f, LeavesOfMembers(ms)))
  {
    if ms != [] {
      var ss := ShapeOfMembers(ms);
      assert ss[1..] == ShapeOfMembers(ms[1..]);
      MapAtomsSplit(f, Leaves(ms[0].child), LeavesOfMembers(ms[1..]));
      TreeMapIsUnflatten(f, ms[0].child);
      TreeMapIsUnflattenMembers(f, ms[1..]);
    }
  }

  // ---------------------------------------------------------------------------
  // Canonical form is kept by taking treedefs and by unflattening

  lemma {:induction false} ShapeCanonical<A>(t: Tree<A>)
    requires Canonical(t)
    ensures Canonical(ShapeOf(t))
  {
    match t
    case Leaf(_) =>
    case List(ts) =>
      forall i | 0 <= i < |ts| ensures Canonical(ShapeOfList(ts)[i]) {
        ShapeCanonical(ts[i]);
      }
    case Dict(ms) =>
      forall i | 0 <= i < |ms| ensures Canonical(ShapeOfMembers(ms)[i].child) {
        ShapeCanonical(ms[i].child);
      }
  }

  lemma {:induction false} UnflattenCanonical<A>(s: Shape, parts: seq<Tree<A>>)
    requires |parts| == |Leaves(s)|
    requires Canonical(s)
    requires forall i :: 0 <= i < |parts| ==> Canonical(parts[i])
    ensures Canonical(Unflatten(s, parts))
  {
    match s
    case Leaf(_) =>
    case List(ss) => UnflattenListCanonical(ss, parts);
    case Dict(ms) => UnflattenMembersCanonical(ms, parts);
  }

  lemma {:induction false} UnflattenListCanonical<A>(ss: seq<Shape>, parts: seq<Tree<A>>)
    requires |parts| == |LeavesOfList(ss)|
    requires forall i :: 0 <= i < |ss| ==> Canonical(ss[i])
    requires forall i :: 0 <= i < |parts| ==> Canonical(parts[i])
    ensures forall i :: 0 <= i < |ss| ==> Canonical(UnflattenList(ss, parts)[i])
  {
    if ss != [] {
      var n := |Leaves(ss[0])|;
      var r := UnflattenList(ss, parts);
      UnflattenCanonical(ss[0], parts[..n]);
      UnflattenListCanonical(ss[1..], parts[n..]);
      assert r[1..] == UnflattenList(ss[1..], parts[n..]);
      forall i | 0 <= i < |ss| ensures Canonical(r[i]) {
        if i > 0 {
          assert r[i] == r[1..][i - 1];
        }
      }
    }
  }

  lemma {:induction false} UnflattenMembersCanonical<A>(ms: seq<Member<()>>, parts: seq<Tree<A>>)
    requires |parts| == |LeavesOfMembers(ms)|
    requires forall i :: 0 <= i < |ms| ==> Canonical(ms[i].child)
    requires forall i :: 0 <= i < |parts| ==> Canonical(parts[i])
    ensures forall i :: 0 <= i < |ms| ==> Canonical(UnflattenMembers(ms, parts)[i].child)
  {
    if ms != [] {
      var n := |Leaves(ms[0].child)|;
      var r := UnflattenMembers(ms, parts);
      UnflattenCanonical(ms[0].child, parts[..n]);
      UnflattenMembersCanonical(ms[1..], parts[n..]);
      assert r[1..] == UnflattenMembers(ms[1..], parts[n..]);
      forall i | 0 <= i < |ms| ensures Canonical(r[i].child) {
        if i > 0 {
          assert r[i] == r[1..][i - 1];
        }
      }
    }
  }
}
