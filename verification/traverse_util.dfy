/** The nested-dict flattening that `ModelParamTraversal` relies on:
    `flatten_dict`, which turns a nested dict into (key tuple, value) items,
    and `unflatten_dict`, which rebuilds the nested dict by walking a cursor
    down each key tuple.

    Flattening descends into dicts only; any other value (an atom or a list)
    is a leaf of the flat view. With `keep` set, an empty nested dict is kept
    as an `EmptyNode` placeholder so that unflattening can restore it; an
    empty root dict flattens to no items at all.

    The main results are the round trip (`UnflattenFlatten`) and its
    generalisation to a flat view whose values have been replaced in place
    (`UnflattenRefill`), which is what `update` and `set` produce.
 */
module TraverseUtil {
  import opened Results
  import opened Lexicographic
  import opened PyTree

  type Path = seq<string>

  /** A flat-view value: a non-dict value, or the placeholder of an empty dict. */
  datatype Entry<A> = Value(value: Tree<A>) | EmptyNode

  datatype Item<A> = Item(path: Path, entry: Entry<A>)

  /** The tree an entry stands for: `unflatten_dict` turns the placeholder back into `{}`. */
  function EntryTree<A>(e: Entry<A>): Tree<A>
  {
    match e
    case Value(v) => v
    case EmptyNode => Dict([])
  }

  /** Every path of `items`, extended in front by `k`. */
  function Prefix<A>(k: string, items: seq<Item<A>>): (r: seq<Item<A>>)
    ensures |r| == |items|
    ensures forall i :: 0 <= i < |r| ==> r[i] == Item([k] + items[i].path, items[i].entry)
  {
    seq(|items|, i requires 0 <= i < |items| => Item([k] + items[i].path, items[i].entry))
  }

  /** The values of the `Value` items, in order. */
  function ItemValues<A>(items: seq<Item<A>>): seq<Tree<A>>
  {
    if items == [] then []
    else
      match items[0].entry
      case EmptyNode => ItemValues(items[1..])
      case Value(v) => [v] + ItemValues(items[1..])
  }

  /** How many non-dict values a tree holds when read as a nested dict. */
  function ValueCount<A>(t: Tree<A>): nat
  {
    match t
    case Dict(ms) => MembersValueCount(ms)
    case _ => 1
  }

  function MembersValueCount<A>(ms: seq<Member<A>>): nat
  {
    if ms == [] then 0 else ValueCount(ms[0].child) + MembersValueCount(ms[1..])
  }

  // ---------------------------------------------------------------------------
  // flatten_dict

  /** The items of one value, with paths relative to that value. */
  function FlattenValue<A>(t: Tree<A>, keep: bool): (r: seq<Item<A>>)
    ensures forall i :: 0 <= i < |r| ==> r[i].entry.Value? ==> !r[i].entry.value.Dict?
    ensures |ItemValues(r)| == ValueCount(t)
    ensures keep ==> |r| > 0
    decreases t
  {
    match t
    case Dict(ms) =>
      if ms == [] then (if keep then [Item([], EmptyNode)] else []) else FlattenDict(ms, keep)
    case _ => [Item([], Value(t))]
  }

  /** `flatten_dict(dict(ms), keep_empty_nodes=keep)`, in member order. */
  function FlattenDict<A>(ms: seq<Member<A>>, keep: bool): (r: seq<Item<A>>)
    ensures forall i :: 0 <= i < |r| ==> |r[i].path| > 0
    ensures forall i :: 0 <= i < |r| ==> r[i].entry.Value? ==> !r[i].entry.value.Dict?
    ensures |ItemValues(r)| == MembersValueCount(ms)
    ensures keep ==> (|r| > 0 <==> |ms| > 0)
    decreases ms
  {
    if ms == [] then []
    else
      var head := FlattenValue(ms[0].child, keep);
      var tail := FlattenDict(ms[1..], keep);
      ItemValuesPrefix(ms[0].key, head);
      ItemValuesAppend(Prefix(ms[0].key, head), tail);
      Prefix(ms[0].key, head) + tail
  }

  // ---------------------------------------------------------------------------
  // unflatten_dict

  /** The value stored under `k`, if any (`k in cursor` / `cursor[k]`). */
  function Child<A>(ms: seq<Member<A>>, k: string): Option<Tree<A>>
  {
    if ms == [] then None
    else if ms[0].key == k then Some(ms[0].child)
    else Child(ms[1..], k)
  }

  /** The cursor `unflatten_dict` descends into: the existing value, or a fresh `{}`. */
  function ChildOr<A>(ms: seq<Member<A>>, k: string): Tree<A>
  {
    Child(ms, k).GetOr(Dict([]))
  }

  /** `cursor[k] = v`: replace the value under `k`, or add `k` at its place in key order. */
  function Put<A>(ms: seq<Member<A>>, k: string, v: Tree<A>): (r: seq<Member<A>>)
    ensures Child(r, k) == Some(v)
  {
    if ms == [] then [Member(k, v)]
    else if ms[0].key == k then [Member(k, v)] + ms[1..]
    else if StrLt(k, ms[0].key) then [Member(k, v)] + ms
    else [ms[0]] + Put(ms[1..], k, v)
  }

  /** One iteration of `unflatten_dict`'s loop: walk the cursor down `path`,
      creating `{}` where a key is missing, and store `v` under the last key. */
  function Insert<A>(t: Tree<A>, path: Path, v: Tree<A>): Tree<A>
    requires |path| > 0
    decreases |path|
  {
    var ms := if t.Dict? then t.members else [];
    if |path| == 1 then Dict(Put(ms, path[0], v))
    else Dict(Put(ms, path[0], Insert(ChildOr(ms, path[0]), path[1..], v)))
  }

  predicate PathsNonEmpty<A>(items: seq<Item<A>>)
  {
    forall i :: 0 <= i < |items| ==> |items[i].path| > 0
  }

  function InsertAll<A>(t: Tree<A>, items: seq<Item<A>>): Tree<A>
    requires PathsNonEmpty(items)
    decreases |items|
  {
    if items == [] then t
    else InsertAll(Insert(t, items[0].path, EntryTree(items[0].entry)), items[1..])
  }

  /** `unflatten_dict(dict(items))`. */
  function UnflattenDict<A>(items: seq<Item<A>>): Tree<A>
    requires PathsNonEmpty(items)
  {
    InsertAll(Dict([]), items)
  }

  // ---------------------------------------------------------------------------
  // Replacing the non-dict values of a tree, in flattening order

  function RefillTree<A>(t: Tree<A>, vs: seq<Tree<A>>): Tree<A>
    requires |vs| == ValueCount(t)
    decreases t
  {
    match t
    case Dict(ms) => Dict(RefillMembers(ms, vs))
    case _ => vs[0]
  }

  function RefillMembers<A>(ms: seq<Member<A>>, vs: seq<Tree<A>>): (r: seq<Member<A>>)
    requires |vs| == MembersValueCount(ms)
    ensures |r| == |ms|
    ensures forall i :: 0 <= i < |r| ==> r[i].key == ms[i].key
    decreases ms
  {
    if ms == [] then []
    else
      var n := ValueCount(ms[0].child);
      [Member(ms[0].key, RefillTree(ms[0].child, vs[..n]))] + RefillMembers(ms[1..], vs[n..])
  }

  /** The same replacement on a flat view: the `Value` items take the values
      `vs` in order; paths and placeholders stay. */
  function RefillItems<A>(items: seq<Item<A>>, vs: seq<Tree<A>>): (r: seq<Item<A>>)
    requires |vs| == |ItemValues(items)|
    ensures |r| == |items|
    ensures forall i :: 0 <= i < |r| ==>
      r[i].path == items[i].path && (r[i].entry.EmptyNode? <==> items[i].entry.EmptyNode?)
    ensures ItemValues(r) == vs
  {
    if items == [] then []
    else
      match items[0].entry
      case EmptyNode => [items[0]] + RefillItems(items[1..], vs)
      case Value(_) => [Item(items[0].path, Value(vs[0]))] + RefillItems(items[1..], vs[1..])
  }

  /** Two flat views with the same paths and the same placeholders, in the same order. */
  predicate SameSkeleton<A>(a: seq<Item<A>>, b: seq<Item<A>>)
  {
    && |a| == |b|
    && forall i :: 0 <= i < |a| ==>
         a[i].path == b[i].path && (a[i].entry.EmptyNode? <==> b[i].entry.EmptyNode?)
  }

  // ---------------------------------------------------------------------------
  // Looking a path up in a nested dict: the reference reading of the flat view

  function Lookup<A>(t: Tree<A>, p: Path): Option<Tree<A>>
    decreases |p|
  {
    if p == [] then Some(t)
    else if !t.Dict? then None
    else
      match Child(t.members, p[0])
      case Some(c) => Lookup(c, p[1..])
      case None => None
  }

  // ---------------------------------------------------------------------------
  // Bookkeeping lemmas

  lemma {:induction false} ItemValuesAppend<A>(a: seq<Item<A>>, b: seq<Item<A>>)
    ensures ItemValues(a + b) == ItemValues(a) + ItemValues(b)
  {
    if a != [] {
      assert (a + b)[1..] == a[1..] + b;
      ItemValuesAppend(a[1..], b);
    } else {
      assert a + b == b;
    }
  }

  lemma {:induction false} ItemValuesPrefix<A>(k: string, items: seq<Item<A>>)
    ensures ItemValues(Prefix(k, items)) == ItemValues(items)
  {
    if items != [] {
      assert Prefix(k, items)[1..] == Prefix(k, items[1..]);
      ItemValuesPrefix(k, items[1..]);
    }
  }

  lemma SameSkeletonAppend<A>(a: seq<Item<A>>, b: seq<Item<A>>, c: seq<Item<A>>, d: seq<Item<A>>)
    requires SameSkeleton(a, c) && SameSkeleton(b, d)
    ensures SameSkeleton(a + b, c + d)
  {
    forall i | 0 <= i < |a + b|
      ensures (a + b)[i].path == (c + d)[i].path
      ensures (a + b)[i].entry.EmptyNode? <==> (c + d)[i].entry.EmptyNode?
    {
      if i < |a| {
        assert (a + b)[i] == a[i] && (c + d)[i] == c[i];
      } else {
        assert (a + b)[i] == b[i - |a|] && (c + d)[i] == d[i - |a|];
      }
    }
  }

  lemma RefillItemsSkeleton<A>(items: seq<Item<A>>, vs: seq<Tree<A>>)
    requires |vs| == |ItemValues(items)|
    ensures SameSkeleton(items, RefillItems(items, vs))
  {
  }

  lemma RefillItemsConcat<A>(a: seq<Item<A>>, b: seq<Item<A>>, va: seq<Tree<A>>, vb: seq<Tree<A>>)
    requires |va| == |ItemValues(a)| && |vb| == |ItemValues(b)|
    ensures |ItemValues(a + b)| == |va + vb|
    ensures RefillItems(a + b, va + vb) == RefillItems(a, va) + RefillItems(b, vb)
  {
    var ra := RefillItems(a, va);
    var rb := RefillItems(b, vb);
    RefillItemsSkeleton(a, va);
    RefillItemsSkeleton(b, vb);
    SameSkeletonAppend(a, b, ra, rb);
    ItemValuesAppend(ra, rb);
    SameSkeletonIsRefill(a + b, ra + rb);
  }

  lemma RefillItemsAppend<A>(a: seq<Item<A>>, b: seq<Item<A>>, vs: seq<Tree<A>>)
    requires |vs| == |ItemValues(a)| + |ItemValues(b)|
    ensures ItemValues(a + b) == ItemValues(a) + ItemValues(b)
    ensures RefillItems(a + b, vs)
         == RefillItems(a, vs[..|ItemValues(a)|]) + RefillItems(b, vs[|ItemValues(a)|..])
  {
    ItemValuesAppend(a, b);
    var n := |ItemValues(a)|;
    SliceJoin(vs, n);
    RefillItemsConcat(a, b, vs[..n], vs[n..]);
  }

  lemma PrefixCons<A>(k: string, x: Item<A>, items: seq<Item<A>>)
    ensures Prefix(k, [x] + items) == [Item([k] + x.path, x.entry)] + Prefix(k, items)
  {
  }

  lemma {:induction false} RefillItemsPrefix<A>(k: string, items: seq<Item<A>>, vs: seq<Tree<A>>)
    requires |vs| == |ItemValues(items)|
    ensures ItemValues(Prefix(k, items)) == ItemValues(items)
    ensures RefillItems(Prefix(k, items), vs) == Prefix(k, RefillItems(items, vs))
  {
    ItemValuesPrefix(k, items);
    if items != [] {
      var ps := Prefix(k, items);
      assert ps[0] == Item([k] + items[0].path, items[0].entry);
      assert ps[1..] == Prefix(k, items[1..]);
      match items[0].entry
      case EmptyNode =>
        RefillItemsPrefix(k, items[1..], vs);
        assert RefillItems(ps, vs) == [ps[0]] + RefillItems(ps[1..], vs);
        PrefixCons(k, items[0], RefillItems(items[1..], vs));
      case Value(_) =>
        RefillItemsPrefix(k, items[1..], vs[1..]);
        assert RefillItems(ps, vs) == [Item(ps[0].path, Value(vs[0]))] + RefillItems(ps[1..], vs[1..]);
        PrefixCons(k, Item(items[0].path, Value(vs[0])), RefillItems(items[1..], vs[1..]));
    }
  }

  /** A flat view can be refilled with its own values without change. */
  lemma {:induction false} RefillItemsIdentity<A>(items: seq<Item<A>>)
    ensures RefillItems(items, ItemValues(items)) == items
  {
    if items != [] {
      RefillItemsIdentity(items[1..]);
    }
  }

  /** A flat view that keeps the paths and placeholders of another is that
      other view refilled with its own values. */
  lemma {:induction false} SameSkeletonIsRefill<A>(a: seq<Item<A>>, b: seq<Item<A>>)
    requires SameSkeleton(a, b)
    ensures |ItemValues(b)| == |ItemValues(a)|
    ensures b == RefillItems(a, ItemValues(b))
  {
    if a != [] {
      assert SameSkeleton(a[1..], b[1..]);
      SameSkeletonIsRefill(a[1..], b[1..]);
      match b[0].entry
      case EmptyNode =>
        assert b[0] == a[0];
      case Value(_) =>
    }
  }

  lemma {:induction false} RefillTreeIdentity<A>(t: Tree<A>)
    ensures RefillTree(t, ItemValues(FlattenValue(t, true))) == t
    decreases t
  {
    match t
    case Dict(ms) =>
      if ms != [] {
        RefillMembersIdentity(ms);
      }
    case Leaf(_) =>
    case List(_) =>
  }

  lemma {:induction false} RefillMembersIdentity<A>(ms: seq<Member<A>>)
    ensures RefillMembers(ms, ItemValues(FlattenDict(ms, true))) == ms
    decreases ms
  {
    if ms != [] {
      var head := FlattenValue(ms[0].child, true);
      var tail := FlattenDict(ms[1..], true);
      ItemValuesPrefix(ms[0].key, head);
      ItemValuesAppend(Prefix(ms[0].key, head), tail);
      var vs := ItemValues(FlattenDict(ms, true));
      var n := ValueCount(ms[0].child);
      assert vs[..n] == ItemValues(head);
      assert vs[n..] == ItemValues(tail);
      RefillTreeIdentity(ms[0].child);
      RefillMembersIdentity(ms[1..]);
    }
  }

  // ---------------------------------------------------------------------------
  // The dict operations unflatten_dict is built on

  lemma {:induction false} PutPut<A>(ms: seq<Member<A>>, k: string, x: Tree<A>, y: Tree<A>)
    ensures Put(Put(ms, k, x), k, y) == Put(ms, k, y)
  {
    if ms != [] && ms[0].key != k && !StrLt(k, ms[0].key) {
      PutPut(ms[1..], k, x, y);
    }
  }

  /** Storing a key above every present key appends it. */
  lemma {:induction false} PutAbove<A>(ms: seq<Member<A>>, k: string, v: Tree<A>)
    requires forall i :: 0 <= i < |ms| ==> StrLt(ms[i].key, k)
    ensures Put(ms, k, v) == ms + [Member(k, v)]
  {
    if ms != [] {
      StrLtIrreflexive(k);
      StrLtAsymmetric(ms[0].key, k);
      PutAbove(ms[1..], k, v);
    }
  }

  lemma {:induction false} ChildAbove<A>(ms: seq<Member<A>>, k: string)
    requires forall i :: 0 <= i < |ms| ==> StrLt(ms[i].key, k)
    ensures Child(ms, k) == None
  {
    if ms != [] {
      StrLtIrreflexive(k);
      ChildAbove(ms[1..], k);
    }
  }

  lemma {:induction false} InsertAllAppend<A>(t: Tree<A>, a: seq<Item<A>>, b: seq<Item<A>>)
    requires PathsNonEmpty(a) && PathsNonEmpty(b)
    ensures PathsNonEmpty(a + b)
    ensures InsertAll(t, a + b) == InsertAll(InsertAll(t, a), b)
    decreases |a|
  {
    if a == [] {
      assert a + b == b;
    } else {
      assert (a + b)[1..] == a[1..] + b;
      InsertAllAppend(Insert(t, a[0].path, EntryTree(a[0].entry)), a[1..], b);
    }
  }

  /** Inserting a batch of items that all start with key `k` builds the value
      under `k` from the batch with `k` stripped, starting from what was there. */
  lemma {:induction false} InsertAllPrefix<A>(ms: seq<Member<A>>, k: string, items: seq<Item<A>>)
    requires |items| > 0 && PathsNonEmpty(items)
    ensures PathsNonEmpty(Prefix(k, items))
    ensures InsertAll(Dict(ms), Prefix(k, items)) == Dict(Put(ms, k, InsertAll(ChildOr(ms, k), items)))
    decreases |items|
  {
    var p := items[0].path;
    var v := EntryTree(items[0].entry);
    var x := Insert(ChildOr(ms, k), p, v);
    assert ([k] + p)[1..] == p;
    assert Insert(Dict(ms), [k] + p, v) == Dict(Put(ms, k, x));
    assert Prefix(k, items)[1..] == Prefix(k, items[1..]);
    if |items| > 1 {
      var ms1 := Put(ms, k, x);
      InsertAllPrefix(ms1, k, items[1..]);
      assert ChildOr(ms1, k) == x;
      PutPut(ms, k, x, InsertAll(x, items[1..]));
    }
  }

  // ---------------------------------------------------------------------------
  // unflatten_dict inverts flatten_dict

  /** The refilled flat view of a dict is its first member's refilled view,
      under that member's key, followed by the rest's. */
  lemma RefillFlattenSplit<A>(ms: seq<Member<A>>, vs: seq<Tree<A>>)
    requires |ms| > 0
    requires |vs| == MembersValueCount(ms)
    ensures var n := ValueCount(ms[0].child);
      RefillItems(FlattenDict(ms, true), vs)
        == Prefix(ms[0].key, RefillItems(FlattenValue(ms[0].child, true), vs[..n]))
         + RefillItems(FlattenDict(ms[1..], true), vs[n..])
  {
    var k := ms[0].key;
    var head := FlattenValue(ms[0].child, true);
    var tail := FlattenDict(ms[1..], true);
    var n := ValueCount(ms[0].child);
    assert FlattenDict(ms, true) == Prefix(k, head) + tail;
    ItemValuesPrefix(k, head);
    RefillItemsAppend(Prefix(k, head), tail, vs);
    RefillItemsPrefix(k, head, vs[..n]);
  }

  /** Inserting one item under a key above every key present appends it. */
  lemma InsertSingle<A>(ms: seq<Member<A>>, k: string, e: Entry<A>)
    requires forall i :: 0 <= i < |ms| ==> StrLt(ms[i].key, k)
    ensures PathsNonEmpty(Prefix(k, [Item([], e)]))
    ensures InsertAll(Dict(ms), Prefix(k, [Item([], e)])) == Dict(ms + [Member(k, EntryTree(e))])
  {
    assert [k] + [] == [k];
    assert Prefix(k, [Item([], e)]) == [Item([k], e)];
    PutAbove(ms, k, EntryTree(e));
  }

  /** The same for a member holding a non-empty dict. */
  lemma InsertMemberDict<A>(ms: seq<Member<A>>, k: string, cms: seq<Member<A>>, vs: seq<Tree<A>>)
    requires cms != [] && Canonical(Dict(cms))
    requires forall i :: 0 <= i < |ms| ==> StrLt(ms[i].key, k)
    requires |vs| == MembersValueCount(cms)
    ensures PathsNonEmpty(Prefix(k, RefillItems(FlattenDict(cms, true), vs)))
    ensures InsertAll(Dict(ms), Prefix(k, RefillItems(FlattenDict(cms, true), vs)))
         == Dict(ms + [Member(k, Dict(RefillMembers(cms, vs)))])
    decreases cms, 2
  {
    var items := RefillItems(FlattenDict(cms, true), vs);
    InsertAllPrefix(ms, k, items);
    ChildAbove(ms, k);
    UnflattenRefill([], cms, vs);
    assert [] + RefillMembers(cms, vs) == RefillMembers(cms, vs);
    PutAbove(ms, k, Dict(RefillMembers(cms, vs)));
  }

  /** Inserting the refilled items of one member, whose key lies above every
      key present, appends that member, refilled. */
  lemma {:induction false} InsertMember<A>(ms: seq<Member<A>>, k: string, c: Tree<A>, vs: seq<Tree<A>>)
    requires Canonical(c)
    requires forall i :: 0 <= i < |ms| ==> StrLt(ms[i].key, k)
    requires |vs| == ValueCount(c)
    ensures PathsNonEmpty(Prefix(k, RefillItems(FlattenValue(c, true), vs)))
    ensures InsertAll(Dict(ms), Prefix(k, RefillItems(FlattenValue(c, true), vs)))
         == Dict(ms + [Member(k, RefillTree(c, vs))])
    decreases c, 2
  {
    match c
    case Dict(cms) =>
      if cms == [] {
        assert RefillItems(FlattenValue(c, true), vs) == [Item([], EmptyNode)];
        InsertSingle(ms, k, EmptyNode);
      } else {
        InsertMemberDict(ms, k, cms, vs);
      }
    case Leaf(_) =>
      assert RefillItems(FlattenValue(c, true), vs) == [Item([], Value(vs[0]))];
      InsertSingle(ms, k, Value(vs[0]));
    case List(_) =>
      assert RefillItems(FlattenValue(c, true), vs) == [Item([], Value(vs[0]))];
      InsertSingle(ms, k, Value(vs[0]));
  }

  /** Inserting the refilled items of a dict's first member appends that
      member, refilled, to what earlier members built. */
  lemma UnflattenRefillHead<A>(done: seq<Member<A>>, ms: seq<Member<A>>, vs: seq<Tree<A>>)
    requires |ms| > 0
    requires Canonical(Dict(ms))
    requires forall i, j :: 0 <= i < |done| && 0 <= j < |ms| ==> StrLt(done[i].key, ms[j].key)
    requires |vs| == MembersValueCount(ms)
    ensures var n := ValueCount(ms[0].child);
      InsertAll(Dict(done), RefillItems(FlattenDict(ms, true), vs))
        == InsertAll(Dict(done + [Member(ms[0].key, RefillTree(ms[0].child, vs[..n]))]),
                     RefillItems(FlattenDict(ms[1..], true), vs[n..]))
    decreases ms, 0
  {
    var k := ms[0].key;
    var c := ms[0].child;
    var head := FlattenValue(c, true);
    var tail := FlattenDict(ms[1..], true);
    var n := ValueCount(c);
    var items := RefillItems(head, vs[..n]);
    var rest := RefillItems(tail, vs[n..]);
    assert FlattenDict(ms, true) == Prefix(k, head) + tail;
    ItemValuesPrefix(k, head);
    RefillItemsAppend(Prefix(k, head), tail, vs);
    RefillItemsPrefix(k, head, vs[..n]);
    assert RefillItems(FlattenDict(ms, true), vs) == Prefix(k, items) + rest;
    assert Canonical(c);
    assert forall i :: 0 <= i < |done| ==> StrLt(done[i].key, k);
    assert ms[0] in ms;
    InsertMember(done, k, c, vs[..n]);
    InsertAllAppend(Dict(done), Prefix(k, items), rest);
  }

  /** Unflattening the flat view of a canonical dict, with its values replaced
      in order by `vs`, gives the dict with those values replaced in place.
      `done` is what earlier members have already built; its keys lie below
      every key of `ms`. */
  lemma {:induction false} UnflattenRefill<A>(done: seq<Member<A>>, ms: seq<Member<A>>, vs: seq<Tree<A>>)
    requires Canonical(Dict(ms))
    requires forall i, j :: 0 <= i < |done| && 0 <= j < |ms| ==> StrLt(done[i].key, ms[j].key)
    requires |vs| == MembersValueCount(ms)
    ensures PathsNonEmpty(RefillItems(FlattenDict(ms, true), vs))
    ensures InsertAll(Dict(done), RefillItems(FlattenDict(ms, true), vs)) == Dict(done + RefillMembers(ms, vs))
    decreases ms, 1
  {
    if ms == [] {
      assert done + [] == done;
    } else {
      var n := ValueCount(ms[0].child);
      var m := Member(ms[0].key, RefillTree(ms[0].child, vs[..n]));
      UnflattenRefillHead(done, ms, vs);
      RestAbove(done, ms, m.child);
      UnflattenRefill(done + [m], ms[1..], vs[n..]);
      RefillMembersCons(done, ms, vs);
    }
  }

  lemma RefillMembersHead<A>(ms: seq<Member<A>>, vs: seq<Tree<A>>)
    requires |ms| > 0
    requires |vs| == MembersValueCount(ms)
    ensures var n := ValueCount(ms[0].child);
      RefillMembers(ms, vs) == [Member(ms[0].key, RefillTree(ms[0].child, vs[..n]))] + RefillMembers(ms[1..], vs[n..])
  {
  }

  lemma CanonicalTail<A>(ms: seq<Member<A>>)
    requires |ms| > 0 && Canonical(Dict(ms))
    ensures Canonical(Dict(ms[1..]))
  {
    assert forall j :: 0 <= j < |ms[1..]| ==> ms[1..][j] == ms[j + 1];
  }

  lemma RefillMembersCons<A>(done: seq<Member<A>>, ms: seq<Member<A>>, vs: seq<Tree<A>>)
    requires |ms| > 0
    requires |vs| == MembersValueCount(ms)
    ensures var n := ValueCount(ms[0].child);
      done + RefillMembers(ms, vs)
        == (done + [Member(ms[0].key, RefillTree(ms[0].child, vs[..n]))]) + RefillMembers(ms[1..], vs[n..])
  {
  }

  /** The invariant of `UnflattenRefill` carries over to its recursive call. */
  lemma RestAbove<A>(done: seq<Member<A>>, ms: seq<Member<A>>, v: Tree<A>)
    requires |ms| > 0
    requires Canonical(Dict(ms))
    requires forall i, j :: 0 <= i < |done| && 0 <= j < |ms| ==> StrLt(done[i].key, ms[j].key)
    ensures Canonical(Dict(ms[1..]))
    ensures var done' := done + [Member(ms[0].key, v)];
      forall i, j :: 0 <= i < |done'| && 0 <= j < |ms[1..]| ==> StrLt(done'[i].key, ms[1..][j].key)
  {
    var done' := done + [Member(ms[0].key, v)];
    forall i, j | 0 <= i < |done'| && 0 <= j < |ms[1..]|
      ensures StrLt(done'[i].key, ms[1..][j].key)
    {
      assert ms[1..][j] == ms[j + 1];
      if i < |done| {
        assert done'[i] == done[i];
      }
    }
  }

  /** `unflatten_dict(flatten_dict(d, keep_empty_nodes=True)) == d`. */
  lemma UnflattenFlatten<A>(ms: seq<Member<A>>)
    requires Canonical(Dict(ms))
    ensures UnflattenDict(FlattenDict(ms, true)) == Dict(ms)
  {
    var items := FlattenDict(ms, true);
    RefillItemsIdentity(items);
    UnflattenRefill([], ms, ItemValues(items));
    RefillMembersIdentity(ms);
    assert [] + ms == ms;
  }

  // ---------------------------------------------------------------------------
  // What the flat view says about the nested dict

  /** Every path of the flat view starts with one of the dict's keys; so when
      all those keys lie above `k`, so do all the paths' first keys. */
  lemma {:induction false} FlatHeadsAbove<A>(ms: seq<Member<A>>, k: string, keep: bool)
    requires forall j :: 0 <= j < |ms| ==> StrLt(k, ms[j].key)
    ensures forall i :: 0 <= i < |FlattenDict(ms, keep)| ==> StrLt(k, FlattenDict(ms, keep)[i].path[0])
  {
    if ms != [] {
      var head := FlattenValue(ms[0].child, keep);
      var tail := FlattenDict(ms[1..], keep);
      assert FlattenDict(ms, keep) == Prefix(ms[0].key, head) + tail;
      FlatHeadsAbove(ms[1..], k, keep);
      forall i | 0 <= i < |FlattenDict(ms, keep)|
        ensures StrLt(k, FlattenDict(ms, keep)[i].path[0])
      {
        if i >= |head| {
          assert FlattenDict(ms, keep)[i] == tail[i - |head|];
        }
      }
    }
  }

  /** The flat view of a canonical value lists its paths in strictly
      increasing tuple order. */
  lemma {:induction false} FlatValueSorted<A>(t: Tree<A>, keep: bool)
    requires Canonical(t)
    ensures forall i, j :: 0 <= i < j < |FlattenValue(t, keep)| ==>
      PathLt(FlattenValue(t, keep)[i].path, FlattenValue(t, keep)[j].path)
    decreases t, 1
  {
    if t.Dict? && t.members != [] {
      FlatSorted(t.members, keep);
    }
  }

  /** `flatten_dict` of a canonical dict is already in the order `sorted` would give it. */
  lemma {:induction false} FlatSorted<A>(ms: seq<Member<A>>, keep: bool)
    requires Canonical(Dict(ms))
    ensures forall i, j :: 0 <= i < j < |FlattenDict(ms, keep)| ==>
      PathLt(FlattenDict(ms, keep)[i].path, FlattenDict(ms, keep)[j].path)
    decreases ms, 0
  {
    if ms != [] {
      var k := ms[0].key;
      var head := FlattenValue(ms[0].child, keep);
      var pre := Prefix(k, head);
      var tail := FlattenDict(ms[1..], keep);
      var f := FlattenDict(ms, keep);
      assert f == pre + tail;
      FlatValueSorted(ms[0].child, keep);
      assert Canonical(Dict(ms[1..]));
      FlatSorted(ms[1..], keep);
      FlatHeadsAbove(ms[1..], k, keep);
      forall i, j | 0 <= i < j < |f| ensures PathLt(f[i].path, f[j].path) {
        if j < |pre| {
          PathLtCons(k, head[i].path, head[j].path);
        } else if i >= |pre| {
          assert f[i] == tail[i - |pre|] && f[j] == tail[j - |pre|];
        } else {
          assert f[j] == tail[j - |pre|];
          PathLtByHead(f[i].path, f[j].path);
        }
      }
    }
  }

  /** The flat-view item that stands for the value `v` found at path `p`. */
  function ItemAt<A>(p: Path, v: Tree<A>): Item<A>
  {
    Item(p, if v.Dict? then EmptyNode else Value(v))
  }

  /** Whatever non-dict value (or, with `keep`, empty dict) sits at a path of
      the tree has an item in the tree's flat view. */
  lemma {:induction false} LookupFlatValue<A>(t: Tree<A>, p: Path, v: Tree<A>, keep: bool)
    requires Lookup(t, p) == Some(v)
    requires !v.Dict? || (keep && v.members == [])
    ensures ItemAt(p, v) in FlattenValue(t, keep)
    decreases |p|, 2
  {
    if p != [] {
      LookupFlat(t.members, p, v, keep);
    }
  }

  lemma {:induction false} LookupFlat<A>(ms: seq<Member<A>>, p: Path, v: Tree<A>, keep: bool)
    requires |p| > 0
    requires Lookup(Dict(ms), p) == Some(v)
    requires !v.Dict? || (keep && v.members == [])
    ensures ItemAt(p, v) in FlattenDict(ms, keep)
    decreases |p|, 1, |ms|
  {
    var head := FlattenValue(ms[0].child, keep);
    var tail := FlattenDict(ms[1..], keep);
    assert FlattenDict(ms, keep) == Prefix(ms[0].key, head) + tail;
    if ms[0].key == p[0] {
      LookupFlatFirst(ms, p, v, keep);
    } else {
      assert Lookup(Dict(ms[1..]), p) == Some(v);
      LookupFlat(ms[1..], p, v, keep);
    }
  }

  /** The path runs through the first member. */
  lemma {:induction false} LookupFlatFirst<A>(ms: seq<Member<A>>, p: Path, v: Tree<A>, keep: bool)
    requires |p| > 0 && |ms| > 0 && ms[0].key == p[0]
    requires Lookup(Dict(ms), p) == Some(v)
    requires !v.Dict? || (keep && v.members == [])
    ensures ItemAt(p, v) in Prefix(ms[0].key, FlattenValue(ms[0].child, keep))
    decreases |p|, 0
  {
    var k := ms[0].key;
    var head := FlattenValue(ms[0].child, keep);
    assert Lookup(ms[0].child, p[1..]) == Some(v);
    LookupFlatValue(ms[0].child, p[1..], v, keep);
    var i :| 0 <= i < |head| && head[i] == ItemAt(p[1..], v);
    assert [k] + p[1..] == p;
    assert Prefix(k, head)[i] == ItemAt(p, v);
  }

  /** Reading the refilled tree at a path of the refilled flat view finds
      that item's value. */
  lemma {:induction false} LookupRefillValue<A>(t: Tree<A>, vs: seq<Tree<A>>, p: Path, e: Entry<A>)
    requires Canonical(t)
    requires |vs| == ValueCount(t)
    requires Item(p, e) in RefillItems(FlattenValue(t, true), vs)
    ensures Lookup(RefillTree(t, vs), p) == Some(EntryTree(e))
    decreases t, 1
  {
    if t.Dict? && t.members != [] {
      LookupRefill(t.members, vs, p, e);
    } else {
      assert |RefillItems(FlattenValue(t, true), vs)| == 1;
    }
  }

  lemma {:induction false} LookupRefill<A>(ms: seq<Member<A>>, vs: seq<Tree<A>>, p: Path, e: Entry<A>)
    requires Canonical(Dict(ms))
    requires |vs| == MembersValueCount(ms)
    requires Item(p, e) in RefillItems(FlattenDict(ms, true), vs)
    ensures Lookup(Dict(RefillMembers(ms, vs)), p) == Some(EntryTree(e))
    decreases ms, 0, 1
  {
    var n := ValueCount(ms[0].child);
    RefillFlattenSplit(ms, vs);
    if Item(p, e) in Prefix(ms[0].key, RefillItems(FlattenValue(ms[0].child, true), vs[..n])) {
      LookupRefillFirst(ms, vs, p, e);
    } else {
      LookupRefillRest(ms, vs, p, e);
    }
  }

  /** The item comes from the first member's part of the flat view. */
  lemma {:induction false} LookupRefillFirst<A>(ms: seq<Member<A>>, vs: seq<Tree<A>>, p: Path, e: Entry<A>)
    requires Canonical(Dict(ms))
    requires |ms| > 0 && |vs| == MembersValueCount(ms)
    requires Item(p, e) in Prefix(ms[0].key, RefillItems(FlattenValue(ms[0].child, true), vs[..ValueCount(ms[0].child)]))
    ensures Lookup(Dict(RefillMembers(ms, vs)), p) == Some(EntryTree(e))
    decreases ms, 0, 0
  {
    var k := ms[0].key;
    var c := ms[0].child;
    var n := ValueCount(c);
    var items := RefillItems(FlattenValue(c, true), vs[..n]);
    var m := Member(k, RefillTree(c, vs[..n]));
    var others := RefillMembers(ms[1..], vs[n..]);
    assert RefillMembers(ms, vs) == [m] + others;
    var i :| 0 <= i < |items| && Prefix(k, items)[i] == Item(p, e);
    assert p[1..] == items[i].path;
    calc {
      Lookup(Dict([m] + others), p);
    == { LookupFirst(m, others, p); }
      Lookup(m.child, p[1..]);
    == { assert ms[0] in ms; LookupRefillValue(c, vs[..n], items[i].path, e); }
      Some(EntryTree(e));
    }
  }

  /** The item comes from the other members' part of the flat view. */
  lemma {:induction false} LookupRefillRest<A>(ms: seq<Member<A>>, vs: seq<Tree<A>>, p: Path, e: Entry<A>)
    requires Canonical(Dict(ms))
    requires |ms| > 0 && |vs| == MembersValueCount(ms)
    requires Item(p, e) in RefillItems(FlattenDict(ms[1..], true), vs[ValueCount(ms[0].child)..])
    ensures Lookup(Dict(RefillMembers(ms, vs)), p) == Some(EntryTree(e))
    decreases ms, 0, 0
  {
    var k := ms[0].key;
    var c := ms[0].child;
    var n := ValueCount(c);
    var m := Member(k, RefillTree(c, vs[..n]));
    var others := RefillMembers(ms[1..], vs[n..]);
    RefillMembersHead(ms, vs);
    RestHeadAbove(ms, vs, p, e);
    LookupSkip(m, others, p);
    CanonicalTail(ms);
    LookupRefill(ms[1..], vs[n..], p, e);
  }

  /** An item of the other members' refilled part does not start with the first member's key. */
  lemma RestHeadAbove<A>(ms: seq<Member<A>>, vs: seq<Tree<A>>, p: Path, e: Entry<A>)
    requires Canonical(Dict(ms))
    requires |ms| > 0 && |vs| == MembersValueCount(ms)
    requires Item(p, e) in RefillItems(FlattenDict(ms[1..], true), vs[ValueCount(ms[0].child)..])
    ensures |p| > 0 && p[0] != ms[0].key
  {
    var k := ms[0].key;
    var flat := FlattenDict(ms[1..], true);
    var rest := RefillItems(flat, vs[ValueCount(ms[0].child)..]);
    var i :| 0 <= i < |rest| && rest[i] == Item(p, e);
    assert p == flat[i].path;
    TailAbove(ms);
    FlatHeadsAbove(ms[1..], k, true);
    StrLtIrreflexive(k);
  }

  lemma TailAbove<A>(ms: seq<Member<A>>)
    requires |ms| > 0 && KeysSorted(ms)
    ensures forall j :: 0 <= j < |ms[1..]| ==> StrLt(ms[0].key, ms[1..][j].key)
  {
    forall j | 0 <= j < |ms[1..]| ensures StrLt(ms[0].key, ms[1..][j].key) {
      assert ms[1..][j] == ms[j + 1];
    }
  }

  lemma LookupFirst<A>(m: Member<A>, ms: seq<Member<A>>, p: Path)
    requires |p| > 0 && m.key == p[0]
    ensures Lookup(Dict([m] + ms), p) == Lookup(m.child, p[1..])
  {
  }

  lemma LookupSkip<A>(m: Member<A>, ms: seq<Member<A>>, p: Path)
    requires |p| > 0 && m.key != p[0]
    ensures Lookup(Dict([m] + ms), p) == Lookup(Dict(ms), p)
  {
    assert ([m] + ms)[1..] == ms;
  }

  /** Each `Value` item of the flat view of a canonical dict records what sits at its path. */
  lemma FlatLookup<A>(ms: seq<Member<A>>, p: Path, v: Tree<A>)
    requires Canonical(Dict(ms))
    requires Item(p, Value(v)) in FlattenDict(ms, true)
    ensures Lookup(Dict(ms), p) == Some(v)
  {
    var items := FlattenDict(ms, true);
    RefillItemsIdentity(items);
    LookupRefill(ms, ItemValues(items), p, Value(v));
    RefillMembersIdentity(ms);
  }

  // ---------------------------------------------------------------------------
  // Flattening without placeholders drops exactly the placeholders

  function DropEmpty<A>(items: seq<Item<A>>): (r: seq<Item<A>>)
    ensures forall x :: x in r ==> x in items
  {
    if items == [] then []
    else if items[0].entry.EmptyNode? then DropEmpty(items[1..])
    else [items[0]] + DropEmpty(items[1..])
  }

  lemma {:induction false} DropEmptyAppend<A>(a: seq<Item<A>>, b: seq<Item<A>>)
    ensures DropEmpty(a + b) == DropEmpty(a) + DropEmpty(b)
  {
    if a == [] {
      assert a + b == b;
    } else {
      assert (a + b)[1..] == a[1..] + b;
      DropEmptyAppend(a[1..], b);
    }
  }

  lemma {:induction false} DropEmptyPrefix<A>(k: string, items: seq<Item<A>>)
    ensures DropEmpty(Prefix(k, items)) == Prefix(k, DropEmpty(items))
  {
    if items != [] {
      assert Prefix(k, items)[1..] == Prefix(k, items[1..]);
      DropEmptyPrefix(k, items[1..]);
      if !items[0].entry.EmptyNode? {
        PrefixCons(k, items[0], DropEmpty(items[1..]));
      }
    }
  }

  lemma {:induction false} FlattenValueDrop<A>(t: Tree<A>)
    ensures FlattenValue(t, false) == DropEmpty(FlattenValue(t, true))
    decreases t, 1
  {
    if t.Dict? && t.members != [] {
      FlattenDrop(t.members);
    }
  }

  /** `flatten_dict(d)` is `flatten_dict(d, keep_empty_nodes=True)` without the placeholders. */
  lemma {:induction false} FlattenDrop<A>(ms: seq<Member<A>>)
    ensures FlattenDict(ms, false) == DropEmpty(FlattenDict(ms, true))
    decreases ms, 0
  {
    if ms != [] {
      var k := ms[0].key;
      FlattenValueDrop(ms[0].child);
      FlattenDrop(ms[1..]);
      DropEmptyAppend(Prefix(k, FlattenValue(ms[0].child, true)), FlattenDict(ms[1..], true));
      DropEmptyPrefix(k, FlattenValue(ms[0].child, true));
    }
  }

  // ---------------------------------------------------------------------------
  // Canonical form is kept

  lemma {:induction false} ChildCanonical<A>(ms: seq<Member<A>>, k: string)
    requires forall i :: 0 <= i < |ms| ==> Canonical(ms[i].child)
    requires Child(ms, k).Some?
    ensures Canonical(Child(ms, k).value)
  {
    if ms[0].key != k {
      ChildCanonical(ms[1..], k);
    }
  }

  /** Every value found in a canonical tree is canonical. */
  lemma {:induction false} LookupCanonical<A>(t: Tree<A>, p: Path)
    requires Canonical(t)
    requires Lookup(t, p).Some?
    ensures Canonical(Lookup(t, p).value)
    decreases |p|
  {
    if p != [] {
      ChildCanonical(t.members, p[0]);
      LookupCanonical(Child(t.members, p[0]).value, p[1..]);
    }
  }

  lemma {:induction false} ItemValuesMember<A>(items: seq<Item<A>>, k: nat)
    requires k < |ItemValues(items)|
    ensures exists i :: 0 <= i < |items| && items[i].entry == Value(ItemValues(items)[k])
  {
    if items[0].entry.EmptyNode? || k > 0 {
      var k' := if items[0].entry.EmptyNode? then k else k - 1;
      ItemValuesMember(items[1..], k');
      var i :| 0 <= i < |items[1..]| && items[1..][i].entry == Value(ItemValues(items[1..])[k']);
      assert items[i + 1].entry == Value(ItemValues(items)[k]);
    } else {
      assert items[0].entry == Value(ItemValues(items)[k]);
    }
  }

  lemma {:induction false} RefillTreeCanonical<A>(t: Tree<A>, vs: seq<Tree<A>>)
    requires Canonical(t)
    requires |vs| == ValueCount(t)
    requires forall i :: 0 <= i < |vs| ==> Canonical(vs[i])
    ensures Canonical(RefillTree(t, vs))
    decreases t, 1
  {
    if t.Dict? {
      RefillCanonical(t.members, vs);
    }
  }

  /** Refilling a canonical dict with canonical values keeps it canonical. */
  lemma {:induction false} RefillCanonical<A>(ms: seq<Member<A>>, vs: seq<Tree<A>>)
    requires Canonical(Dict(ms))
    requires |vs| == MembersValueCount(ms)
    requires forall i :: 0 <= i < |vs| ==> Canonical(vs[i])
    ensures Canonical(Dict(RefillMembers(ms, vs)))
    decreases ms, 0
  {
    if ms != [] {
      var n := ValueCount(ms[0].child);
      var r := RefillMembers(ms, vs);
      var rest := RefillMembers(ms[1..], vs[n..]);
      assert r == [Member(ms[0].key, RefillTree(ms[0].child, vs[..n]))] + rest;
      assert Canonical(ms[0].child);
      RefillTreeCanonical(ms[0].child, vs[..n]);
      assert Canonical(Dict(ms[1..]));
      RefillCanonical(ms[1..], vs[n..]);
      forall i | 0 <= i < |r| ensures Canonical(r[i].child) {
        if i > 0 {
          assert r[i] == rest[i - 1];
        }
      }
    }
  }
}
