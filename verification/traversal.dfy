/** `ModelParamTraversal`: selecting model parameters by a filter on their
    '/'-joined path and value, reading them out (`iterate`), rewriting them
    (`update`) and writing a sequence of values back (`set`).

    All three walk the flat view of the parameter dict sorted by key tuple
    (`_sorted_items`). A Flax model instance, the `FrozenDict` wrapper and the
    re-wrapping of the result are not modelled; any input other than a dict
    is the `ValueError` path, `Err(NotADict)`.
 */
module Traversal {
  import opened Results
  import opened Lexicographic
  import opened PyTree
  import opened TraverseUtil

  datatype ModelParamTraversal<!A> = ModelParamTraversal(filter: (string, Tree<A>) -> bool)

  /** `'/'.join(key)`. */
  function Join(p: Path): string
  {
    if p == [] then ""
    else if |p| == 1 then p[0]
    else p[0] + "/" + Join(p[1..])
  }

  /** The name a filter sees: `'/' + '/'.join(key)`. */
  function PathString(p: Path): string
  {
    "/" + Join(p)
  }

  lemma {:induction false} JoinAppend(p: Path, k: string)
    requires p != []
    ensures Join(p + [k]) == Join(p) + "/" + k
    decreases |p|
  {
    assert (p + [k])[0] == p[0] && (p + [k])[1..] == p[1..] + [k];
    if |p| > 1 {
      JoinAppend(p[1..], k);
      assert Join(p + [k]) == p[0] + "/" + Join(p[1..] + [k]);
    } else {
      assert p[1..] + [k] == [k];
      assert Join([k]) == k && Join(p) == p[0];
    }
  }

  /** The path string grows by `"/" + k` for each key appended to a
      non-empty path; a one-key path is `"/" + k`. */
  lemma PathStringAppend(p: Path, k: string)
    ensures p == [] ==> PathString(p + [k]) == "/" + k
    ensures p != [] ==> PathString(p + [k]) == PathString(p) + "/" + k
  {
    if p == [] {
      assert p + [k] == [k];
    } else {
      JoinAppend(p, k);
    }
  }

  // ---------------------------------------------------------------------------
  // _sorted_items: Python's stable `sorted` keyed on the key tuple

  predicate SortedByPath<A>(items: seq<Item<A>>)
  {
    forall i, j :: 0 <= i < j < |items| ==> PathLe(items[i].path, items[j].path)
  }

  predicate StrictlySortedByPath<A>(items: seq<Item<A>>)
  {
    forall i, j :: 0 <= i < j < |items| ==> PathLt(items[i].path, items[j].path)
  }

  /** Insert `x` before the first element whose key is not smaller. */
  function InsertSorted<A>(x: Item<A>, s: seq<Item<A>>): (r: seq<Item<A>>)
    ensures |r| == |s| + 1
    ensures multiset(r) == multiset(s) + multiset{x}
    ensures SortedByPath(s) ==> SortedByPath(r)
  {
    if s == [] then [x]
    else if PathLe(x.path, s[0].path) then
      InsertSortedFront(x, s);
      [x] + s
    else
      var rest := InsertSorted(x, s[1..]);
      InsertSortedBehind(x, s, rest);
      [s[0]] + rest
  }

  lemma InsertSortedFront<A>(x: Item<A>, s: seq<Item<A>>)
    requires |s| > 0 && PathLe(x.path, s[0].path)
    ensures SortedByPath(s) ==> SortedByPath([x] + s)
  {
    if SortedByPath(s) {
      var r := [x] + s;
      forall i, j | 0 <= i < j < |r| ensures PathLe(r[i].path, r[j].path) {
        if i == 0 && j > 1 && x.path != s[0].path && s[0].path != s[j - 1].path {
          PathLtTransitive(x.path, s[0].path, s[j - 1].path);
        }
      }
    }
  }

  lemma InsertSortedBehind<A>(x: Item<A>, s: seq<Item<A>>, rest: seq<Item<A>>)
    requires |s| > 0 && !PathLe(x.path, s[0].path)
    requires multiset(rest) == multiset(s[1..]) + multiset{x}
    requires SortedByPath(s[1..]) ==> SortedByPath(rest)
    ensures multiset([s[0]] + rest) == multiset(s) + multiset{x}
    ensures SortedByPath(s) ==> SortedByPath([s[0]] + rest)
  {
    assert s == [s[0]] + s[1..];
    if SortedByPath(s) {
      assert SortedByPath(s[1..]);
      var r := [s[0]] + rest;
      PathLtTotal(x.path, s[0].path);
      forall i, j | 0 <= i < j < |r| ensures PathLe(r[i].path, r[j].path) {
        if i == 0 {
          var y := r[j];
          assert y in multiset(rest);
          assert y in multiset(s[1..]) || y == x;
          if y != x {
            var k :| 0 <= k < |s[1..]| && s[1..][k] == y;
            assert s[k + 1] == y;
          }
        }
      }
    }
  }

  /** `_sorted_items`: the items in ascending key-tuple order, ties in input order. */
  function SortedItems<A>(s: seq<Item<A>>): (r: seq<Item<A>>)
    ensures |r| == |s|
    ensures multiset(r) == multiset(s)
    ensures SortedByPath(r)
  {
    if s == [] then []
    else
      assert s == [s[0]] + s[1..];
      InsertSorted(s[0], SortedItems(s[1..]))
  }

  /** Items that are already strictly sorted are left where they are. */
  lemma {:induction false} SortedItemsIdentity<A>(s: seq<Item<A>>)
    requires StrictlySortedByPath(s)
    ensures SortedItems(s) == s
  {
    if s != [] {
      SortedItemsIdentity(s[1..]);
      assert s == [s[0]] + s[1..];
    }
  }

  lemma SortedItemsPaths<A>(s: seq<Item<A>>)
    requires PathsNonEmpty(s)
    ensures PathsNonEmpty(SortedItems(s))
  {
    var r := SortedItems(s);
    forall i | 0 <= i < |r| ensures |r[i].path| > 0 {
      assert r[i] in multiset(s);
      var j :| 0 <= j < |s| && s[j] == r[i];
    }
  }

  // ---------------------------------------------------------------------------
  // iterate

  predicate Selected<A>(f: (string, Tree<A>) -> bool, x: Item<A>)
  {
    x.entry.Value? && f(PathString(x.path), x.entry.value)
  }

  /** The values of the selected items, in order. The flat view `iterate`
      reads carries no placeholders, so skipping them changes nothing. */
  function Select<A>(f: (string, Tree<A>) -> bool, items: seq<Item<A>>): seq<Tree<A>>
  {
    if items == [] then []
    else (if Selected(f, items[0]) then [items[0].entry.value] else []) + Select(f, items[1..])
  }

  /** The paths of the values `Select` yields. */
  ghost function SelectedPaths<A>(f: (string, Tree<A>) -> bool, items: seq<Item<A>>): seq<Path>
  {
    if items == [] then []
    else (if Selected(f, items[0]) then [items[0].path] else []) + SelectedPaths(f, items[1..])
  }

  /** `ModelParamTraversal.iterate`. */
  function Iterate<A>(tr: ModelParamTraversal<A>, inputs: Tree<A>): (r: Result<seq<Tree<A>>>)
    ensures r.Ok? <==> inputs.Dict?
  {
    match inputs
    case Dict(ms) => Ok(Select(tr.filter, SortedItems(FlattenDict(ms, false))))
    case _ => Err(NotADict)
  }

  /** The paths at which `iterate` finds its values. */
  ghost function IteratedPaths<A>(tr: ModelParamTraversal<A>, ms: seq<Member<A>>): seq<Path>
  {
    SelectedPaths(tr.filter, SortedItems(FlattenDict(ms, false)))
  }

  lemma {:induction false} SelectedPathsLength<A>(f: (string, Tree<A>) -> bool, items: seq<Item<A>>)
    ensures |SelectedPaths(f, items)| == |Select(f, items)|
  {
    if items != [] {
      SelectedPathsLength(f, items[1..]);
    }
  }

  /** The `i`-th selected value is the value of a selected item, whose path
      is the `i`-th selected path. */
  lemma {:induction false} SelectSound<A>(f: (string, Tree<A>) -> bool, items: seq<Item<A>>, i: nat)
    requires i < |Select(f, items)|
    ensures |SelectedPaths(f, items)| == |Select(f, items)|
    ensures Item(SelectedPaths(f, items)[i], Value(Select(f, items)[i])) in items
    ensures Selected(f, Item(SelectedPaths(f, items)[i], Value(Select(f, items)[i])))
  {
    SelectedPathsLength(f, items);
    if Selected(f, items[0]) {
      if i > 0 {
        SelectSound(f, items[1..], i - 1);
      }
    } else {
      SelectSound(f, items[1..], i);
    }
  }

  /** Every selected item's path is among the selected paths. */
  lemma {:induction false} SelectComplete<A>(f: (string, Tree<A>) -> bool, items: seq<Item<A>>, j: nat)
    requires j < |items| && Selected(f, items[j])
    ensures items[j].path in SelectedPaths(f, items)
  {
    if j > 0 {
      assert items[1..][j - 1] == items[j];
      SelectComplete(f, items[1..], j - 1);
    }
  }

  /** Selecting from strictly sorted items keeps the paths strictly sorted. */
  lemma {:induction false} SelectSorted<A>(f: (string, Tree<A>) -> bool, items: seq<Item<A>>)
    requires StrictlySortedByPath(items)
    ensures forall i, j :: 0 <= i < j < |SelectedPaths(f, items)| ==>
      PathLt(SelectedPaths(f, items)[i], SelectedPaths(f, items)[j])
  {
    if items != [] {
      assert StrictlySortedByPath(items[1..]);
      SelectSorted(f, items[1..]);
      var ps := SelectedPaths(f, items);
      var tail := SelectedPaths(f, items[1..]);
      SelectedPathsLength(f, items[1..]);
      if Selected(f, items[0]) {
        forall i, j | 0 <= i < j < |ps| ensures PathLt(ps[i], ps[j]) {
          if i == 0 {
            SelectSound(f, items[1..], j - 1);
            var x := Item(tail[j - 1], Value(Select(f, items[1..])[j - 1]));
            var k :| 0 <= k < |items[1..]| && items[1..][k] == x;
            assert items[k + 1] == x;
          } else {
            assert ps[i] == tail[i - 1] && ps[j] == tail[j - 1];
          }
        }
      }
    }
  }

  /** On a canonical dict `iterate` needs no re-sorting: it selects from the flat view. */
  lemma IterateUnfold<A>(tr: ModelParamTraversal<A>, ms: seq<Member<A>>)
    requires Canonical(Dict(ms))
    ensures Iterate(tr, Dict(ms)) == Ok(Select(tr.filter, FlattenDict(ms, false)))
    ensures IteratedPaths(tr, ms) == SelectedPaths(tr.filter, FlattenDict(ms, false))
    ensures |IteratedPaths(tr, ms)| == |Iterate(tr, Dict(ms)).value|
  {
    FlatSorted(ms, false);
    SortedItemsIdentity(FlattenDict(ms, false));
    SelectedPathsLength(tr.filter, FlattenDict(ms, false));
  }

  /** Each value `iterate` yields is a selected non-dict value found at its path. */
  lemma IterateSound<A>(tr: ModelParamTraversal<A>, ms: seq<Member<A>>, i: nat)
    requires Canonical(Dict(ms))
    requires i < |IteratedPaths(tr, ms)|
    ensures Iterate(tr, Dict(ms)).Ok? && i < |Iterate(tr, Dict(ms)).value|
    ensures Lookup(Dict(ms), IteratedPaths(tr, ms)[i]) == Some(Iterate(tr, Dict(ms)).value[i])
    ensures !Iterate(tr, Dict(ms)).value[i].Dict?
    ensures tr.filter(PathString(IteratedPaths(tr, ms)[i]), Iterate(tr, Dict(ms)).value[i])
  {
    var flat := FlattenDict(ms, false);
    IterateUnfold(tr, ms);
    var vs := Iterate(tr, Dict(ms)).value;
    var ps := IteratedPaths(tr, ms);
    SelectSound(tr.filter, flat, i);
    var k :| 0 <= k < |flat| && flat[k] == Item(ps[i], Value(vs[i]));
    FlattenDrop(ms);
    assert flat[k] in FlattenDict(ms, true);
    FlatLookup(ms, ps[i], vs[i]);
  }

  /** Every selected non-dict value of the dict is at one of the iterated paths. */
  lemma IterateComplete<A>(tr: ModelParamTraversal<A>, ms: seq<Member<A>>, p: Path)
    requires Canonical(Dict(ms))
    requires |p| > 0 && Lookup(Dict(ms), p).Some? && !Lookup(Dict(ms), p).value.Dict?
    requires tr.filter(PathString(p), Lookup(Dict(ms), p).value)
    ensures p in IteratedPaths(tr, ms)
  {
    var flat := FlattenDict(ms, false);
    IterateUnfold(tr, ms);
    var v := Lookup(Dict(ms), p).value;
    LookupFlat(ms, p, v, false);
    var k :| 0 <= k < |flat| && flat[k] == ItemAt(p, v);
    SelectComplete(tr.filter, flat, k);
  }

  /** `iterate` over a dict yields exactly the non-dict values whose path
      passes the filter, each once, in strictly ascending key-tuple order. */
  lemma IterateSpec<A>(tr: ModelParamTraversal<A>, ms: seq<Member<A>>)
    requires Canonical(Dict(ms))
    ensures Iterate(tr, Dict(ms)).Ok?
    ensures |IteratedPaths(tr, ms)| == |Iterate(tr, Dict(ms)).value|
    ensures forall i, j :: 0 <= i < j < |IteratedPaths(tr, ms)| ==>
      PathLt(IteratedPaths(tr, ms)[i], IteratedPaths(tr, ms)[j])
    ensures forall i :: 0 <= i < |IteratedPaths(tr, ms)| ==>
      && Lookup(Dict(ms), IteratedPaths(tr, ms)[i]) == Some(Iterate(tr, Dict(ms)).value[i])
      && !Iterate(tr, Dict(ms)).value[i].Dict?
      && tr.filter(PathString(IteratedPaths(tr, ms)[i]), Iterate(tr, Dict(ms)).value[i])
    ensures forall p | |p| > 0 && Lookup(Dict(ms), p).Some? && !Lookup(Dict(ms), p).value.Dict?
                       && tr.filter(PathString(p), Lookup(Dict(ms), p).value) ::
      p in IteratedPaths(tr, ms)
  {
    IterateUnfold(tr, ms);
    FlatSorted(ms, false);
    SelectSorted(tr.filter, FlattenDict(ms, false));
    var vs := Iterate(tr, Dict(ms)).value;
    var ps := IteratedPaths(tr, ms);
    forall i | 0 <= i < |ps|
      ensures Lookup(Dict(ms), ps[i]) == Some(vs[i]) && !vs[i].Dict? && tr.filter(PathString(ps[i]), vs[i])
    {
      IterateSound(tr, ms, i);
    }
    forall p | |p| > 0 && Lookup(Dict(ms), p).Some? && !Lookup(Dict(ms), p).value.Dict?
               && tr.filter(PathString(p), Lookup(Dict(ms), p).value)
      ensures p in ps
    {
      IterateComplete(tr, ms, p);
    }
  }


  // The worked example behind `IterateOrdersByKeyTuple`. The `Example*`
  // lemmas are its evaluation steps on concrete values, split so each stays
  // small; they are checked computations, not general properties.

  /** The parameter dict `{"a": {"b": 1}, "a-": 2}`. */
  function ExampleParams(): seq<Member<int>>
  {
    [Member("a", Dict([Member("b", Leaf(1))])), Member("a-", Leaf(2))]
  }

  /** A traversal that selects every parameter. */
  function SelectAll(): ModelParamTraversal<int>
  {
    ModelParamTraversal((s: string, v: Tree<int>) => true)
  }

  /** Worked step: The inner dict flattens to one item. */
  lemma ExampleFlatInner()
    ensures FlattenDict([Member("b", Leaf(1))], false) == [Item(["b"], Value(Leaf(1)))]
  {
    var inner: seq<Member<int>> := [Member("b", Leaf(1))];
    var leafOne: seq<Item<int>> := [Item([], Value(Leaf(1)))];
    assert FlattenDict(inner[1..], false) == [];
    assert FlattenValue(Leaf(1), false) == leafOne;
    assert ["b"] + leafOne[0].path == ["b"];
  }

  /** Worked step: The second member flattens to one item. */
  lemma ExampleFlatSecond()
    ensures FlattenDict(ExampleParams()[1..], false) == [Item(["a-"], Value(Leaf(2)))]
  {
    var ms := ExampleParams();
    var leafTwo: seq<Item<int>> := [Item([], Value(Leaf(2)))];
    assert ms[1..][1..] == [];
    assert FlattenValue(Leaf(2), false) == leafTwo;
    assert ["a-"] + leafTwo[0].path == ["a-"];
  }

  /** Worked step: The whole example flattens to two items, in key-tuple order. */
  lemma ExampleFlat()
    ensures FlattenDict(ExampleParams(), false)
         == [Item(["a", "b"], Value(Leaf(1))), Item(["a-"], Value(Leaf(2)))]
  {
    var ms := ExampleParams();
    ExampleFlatInner();
    ExampleFlatSecond();
    assert FlattenValue(ms[0].child, false) == [Item(["b"], Value(Leaf(1)))];
    assert Prefix("a", [Item(["b"], Value(Leaf(1)))]) == [Item(["a", "b"], Value(Leaf(1)))] by {
      assert ["a"] + ["b"] == ["a", "b"];
    }
  }

  /** Worked step: The joined names of the two paths, and their string order. */
  lemma ExampleNames()
    ensures PathString(["a", "b"]) == "/a/b"
    ensures PathString(["a-"]) == "/a-"
    ensures StrLt("/a-", "/a/b")
  {
    assert Join(["a", "b"]) == "a/b" by {
      assert ["a", "b"][1..] == ["b"];
    }
    assert StrLt("/a-", "/a/b") by {
      assert "/a-"[1..] == "a-" && "/a/b"[1..] == "a/b";
      assert "a-"[1..] == "-" && "a/b"[1..] == "/b";
    }
  }

  /** Worked step: `_sorted_items` leaves the example's flat view as it is. */
  lemma ExampleSorted()
    ensures var flat := [Item(["a", "b"], Value(Leaf(1))), Item(["a-"], Value(Leaf(2)))];
      SortedItems(flat) == flat
  {
    var flat := [Item(["a", "b"], Value(Leaf(1))), Item(["a-"], Value(Leaf(2)))];
    assert StrLt("a", "a-") by {
      assert "a"[1..] == "" && "a-"[1..] == "-";
    }
    assert PathLt(flat[0].path, flat[1].path);
    SortedItemsIdentity(flat);
  }

  /** Worked step: Selecting everything yields both values in flat-view order. */
  lemma ExampleSelect()
    ensures Select(SelectAll().filter, [Item(["a", "b"], Value(Leaf(1))), Item(["a-"], Value(Leaf(2)))])
         == [Leaf(1), Leaf(2)]
  {
    var f := SelectAll().filter;
    var one := Item(["a", "b"], Value(Leaf(1)));
    var two := Item(["a-"], Value(Leaf(2)));
    assert Selected(f, one) && Selected(f, two);
    assert Select(f, [two]) == [Leaf(2)] by {
      assert [two][1..] == [];
    }
    assert [one, two][1..] == [two];
  }

  /** Values come in key-tuple order, not in the order of their joined names:
      in `{"a": {"b": 1}, "a-": 2}` the name "/a-" sorts before "/a/b" as a
      string, yet `iterate` yields 1 first. */
  lemma IterateOrdersByKeyTuple()
    ensures StrLt(PathString(["a-"]), PathString(["a", "b"]))
    ensures Iterate(SelectAll(), Dict(ExampleParams())) == Ok([Leaf(1), Leaf(2)])
  {
    ExampleFlat();
    ExampleNames();
    ExampleSorted();
    ExampleSelect();
  }

  // ---------------------------------------------------------------------------
  // update

  /** One step of `update`'s loop: placeholders are copied, a selected value is passed through `fn`. */
  function Rewrite<A>(f: (string, Tree<A>) -> bool, fn: Tree<A> -> Tree<A>, x: Item<A>): Item<A>
  {
    if Selected(f, x) then Item(x.path, Value(fn(x.entry.value))) else x
  }

  function RewriteItems<A>(f: (string, Tree<A>) -> bool, fn: Tree<A> -> Tree<A>, items: seq<Item<A>>): (r: seq<Item<A>>)
    ensures |r| == |items|
    ensures forall i :: 0 <= i < |r| ==> r[i] == Rewrite(f, fn, items[i])
  {
    seq(|items|, i requires 0 <= i < |items| => Rewrite(f, fn, items[i]))
  }

  /** `ModelParamTraversal.update`. */
  function Update<A>(tr: ModelParamTraversal<A>, fn: Tree<A> -> Tree<A>, inputs: Tree<A>): (r: Result<Tree<A>>)
    ensures r.Ok? <==> inputs.Dict?
  {
    match inputs
    case Dict(ms) =>
      var sorted := SortedItems(FlattenDict(ms, true));
      SortedItemsPaths(FlattenDict(ms, true));
      Ok(UnflattenDict(RewriteItems(tr.filter, fn, sorted)))
    case _ => Err(NotADict)
  }

  /** A flat view with the paths and placeholders of a canonical dict's flat
      view unflattens to that dict with its non-dict values replaced in place. */
  lemma UnflattenSameSkeleton<A>(ms: seq<Member<A>>, items: seq<Item<A>>)
    requires Canonical(Dict(ms))
    requires SameSkeleton(FlattenDict(ms, true), items)
    ensures |ItemValues(items)| == MembersValueCount(ms)
    ensures PathsNonEmpty(items)
    ensures UnflattenDict(items) == Dict(RefillMembers(ms, ItemValues(items)))
  {
    SameSkeletonIsRefill(FlattenDict(ms, true), items);
    UnflattenRefill([], ms, ItemValues(items));
    assert [] + RefillMembers(ms, ItemValues(items)) == RefillMembers(ms, ItemValues(items));
  }

  /** ... and reading that dict at the path of any of the items finds the item's value. */
  lemma LookupSameSkeleton<A>(ms: seq<Member<A>>, items: seq<Item<A>>, i: nat)
    requires Canonical(Dict(ms))
    requires SameSkeleton(FlattenDict(ms, true), items)
    requires i < |items|
    ensures PathsNonEmpty(items)
    ensures Lookup(UnflattenDict(items), items[i].path) == Some(EntryTree(items[i].entry))
  {
    UnflattenSameSkeleton(ms, items);
    SameSkeletonIsRefill(FlattenDict(ms, true), items);
    assert items[i] in RefillItems(FlattenDict(ms, true), ItemValues(items));
    LookupRefill(ms, ItemValues(items), items[i].path, items[i].entry);
  }

  /** On a canonical dict `update` needs no re-sorting: it rewrites the flat view in place. */
  lemma UpdateUnfold<A>(tr: ModelParamTraversal<A>, fn: Tree<A> -> Tree<A>, ms: seq<Member<A>>)
    requires Canonical(Dict(ms))
    ensures SameSkeleton(FlattenDict(ms, true), RewriteItems(tr.filter, fn, FlattenDict(ms, true)))
    ensures Update(tr, fn, Dict(ms)) == Ok(UnflattenDict(RewriteItems(tr.filter, fn, FlattenDict(ms, true))))
  {
    FlatSorted(ms, true);
    SortedItemsIdentity(FlattenDict(ms, true));
    RewriteSkeleton(tr.filter, fn, FlattenDict(ms, true));
  }

  lemma RewriteSkeleton<A>(f: (string, Tree<A>) -> bool, fn: Tree<A> -> Tree<A>, items: seq<Item<A>>)
    ensures SameSkeleton(items, RewriteItems(f, fn, items))
  {
  }

  /** `update` rewrites exactly the selected values: a selected value `v`
      becomes `fn(v)`, every other value and every empty dict stays. */
  lemma UpdateSpec<A>(tr: ModelParamTraversal<A>, fn: Tree<A> -> Tree<A>, ms: seq<Member<A>>, p: Path, v: Tree<A>)
    requires Canonical(Dict(ms))
    requires |p| > 0 && Lookup(Dict(ms), p) == Some(v)
    requires !v.Dict? || v.members == []
    ensures Update(tr, fn, Dict(ms)).Ok?
    ensures Lookup(Update(tr, fn, Dict(ms)).value, p)
         == Some(if !v.Dict? && tr.filter(PathString(p), v) then fn(v) else v)
  {
    var flat := FlattenDict(ms, true);
    UpdateUnfold(tr, fn, ms);
    var items := RewriteItems(tr.filter, fn, flat);
    LookupFlat(ms, p, v, true);
    var k :| 0 <= k < |flat| && flat[k] == ItemAt(p, v);
    assert items[k] == Rewrite(tr.filter, fn, flat[k]);
    LookupSameSkeleton(ms, items, k);
  }

  /** `update` with the identity function gives back its input. */
  lemma UpdateIdentity<A>(tr: ModelParamTraversal<A>, ms: seq<Member<A>>)
    requires Canonical(Dict(ms))
    ensures Update(tr, x => x, Dict(ms)) == Ok(Dict(ms))
  {
    var flat := FlattenDict(ms, true);
    FlatSorted(ms, true);
    SortedItemsIdentity(flat);
    assert RewriteItems(tr.filter, x => x, flat) == flat;
    UnflattenFlatten(ms);
  }

  // ---------------------------------------------------------------------------
  // set

  /** `Traversal.set`'s walk: every selected value takes the next replacement;
      running out of replacements, or having some left over, is an error. */
  function SetItems<A>(f: (string, Tree<A>) -> bool, items: seq<Item<A>>, vs: seq<Tree<A>>): (r: Result<seq<Item<A>>>)
    ensures r.Ok? <==> |vs| == |Select(f, items)|
  {
    if items == [] then
      if vs == [] then Ok([]) else Err(TooManyValues)
    else if Selected(f, items[0]) then
      if vs == [] then Err(NotEnoughValues)
      else
        var rest :- SetItems(f, items[1..], vs[1..]);
        Ok([Item(items[0].path, Value(vs[0]))] + rest)
    else
      var rest :- SetItems(f, items[1..], vs);
      Ok([items[0]] + rest)
  }

  /** `set` leaves every unselected entry as it was, and every entry it
      changes holds one of the replacement values. */
  lemma {:induction false} SetItemsKeeps<A>(f: (string, Tree<A>) -> bool, items: seq<Item<A>>, vs: seq<Tree<A>>)
    requires SetItems(f, items, vs).Ok?
    ensures SameSkeleton(items, SetItems(f, items, vs).value)
    ensures forall i :: 0 <= i < |items| && !Selected(f, items[i]) ==> SetItems(f, items, vs).value[i] == items[i]
    ensures forall i :: 0 <= i < |items| ==>
      var x := SetItems(f, items, vs).value[i];
      x == items[i] || (x.entry.Value? && x.entry.value in vs)
  {
    if items != [] {
      var r := SetItems(f, items, vs).value;
      if Selected(f, items[0]) {
        SetItemsKeeps(f, items[1..], vs[1..]);
        var rest := SetItems(f, items[1..], vs[1..]).value;
        assert r == [Item(items[0].path, Value(vs[0]))] + rest;
        forall i | 0 < i < |items| ensures r[i] == rest[i - 1] && items[i] == items[1..][i - 1] {}
      } else {
        SetItemsKeeps(f, items[1..], vs);
        var rest := SetItems(f, items[1..], vs).value;
        assert r == [items[0]] + rest;
        forall i | 0 < i < |items| ensures r[i] == rest[i - 1] && items[i] == items[1..][i - 1] {}
      }
    }
  }

  /** `Traversal.set(values, inputs)`. */
  function Set<A>(tr: ModelParamTraversal<A>, values: seq<Tree<A>>, inputs: Tree<A>): (r: Result<Tree<A>>)
    ensures inputs.Dict? ==>
      (r.Ok? <==> |values| == |Select(tr.filter, SortedItems(FlattenDict(inputs.members, true)))|)
    ensures !inputs.Dict? ==> r == Err(NotADict)
  {
    match inputs
    case Dict(ms) =>
      var sorted := SortedItems(FlattenDict(ms, true));
      SortedItemsPaths(FlattenDict(ms, true));
      var items :- SetItems(tr.filter, sorted, values);
      SetItemsKeeps(tr.filter, sorted, values);
      Ok(UnflattenDict(items))
    case _ => Err(NotADict)
  }

  function Map<A>(fn: Tree<A> -> Tree<A>, xs: seq<Tree<A>>): (r: seq<Tree<A>>)
    ensures |r| == |xs|
    ensures forall i :: 0 <= i < |r| ==> r[i] == fn(xs[i])
  {
    seq(|xs|, i requires 0 <= i < |xs| => fn(xs[i]))
  }

  lemma {:induction false} SetItemsIsRewrite<A>(f: (string, Tree<A>) -> bool, fn: Tree<A> -> Tree<A>, items: seq<Item<A>>)
    ensures SetItems(f, items, Map(fn, Select(f, items))) == Ok(RewriteItems(f, fn, items))
  {
    if items != [] {
      SetItemsIsRewrite(f, fn, items[1..]);
      assert RewriteItems(f, fn, items) == [Rewrite(f, fn, items[0])] + RewriteItems(f, fn, items[1..]);
      if Selected(f, items[0]) {
        assert Map(fn, Select(f, items))[1..] == Map(fn, Select(f, items[1..]));
      } else {
        assert Map(fn, Select(f, items)) == Map(fn, Select(f, items[1..]));
      }
    }
  }

  lemma {:induction false} SelectDropEmpty<A>(f: (string, Tree<A>) -> bool, items: seq<Item<A>>)
    ensures Select(f, DropEmpty(items)) == Select(f, items)
  {
    if items != [] {
      SelectDropEmpty(f, items[1..]);
      if !items[0].entry.EmptyNode? {
        assert DropEmpty(items)[1..] == DropEmpty(items[1..]);
      }
    }
  }

  /** `set` accepts exactly as many values as `iterate` yields. */
  lemma SetArity<A>(tr: ModelParamTraversal<A>, values: seq<Tree<A>>, ms: seq<Member<A>>)
    requires Canonical(Dict(ms))
    ensures Set(tr, values, Dict(ms)).Ok? <==> |values| == |Iterate(tr, Dict(ms)).value|
  {
    FlatSorted(ms, true);
    SortedItemsIdentity(FlattenDict(ms, true));
    FlatSorted(ms, false);
    SortedItemsIdentity(FlattenDict(ms, false));
    FlattenDrop(ms);
    SelectDropEmpty(tr.filter, FlattenDict(ms, true));
  }

  /** Writing back `fn` of what `iterate` read is the same as `update(fn)`. */
  lemma SetAgreesWithUpdate<A>(tr: ModelParamTraversal<A>, fn: Tree<A> -> Tree<A>, ms: seq<Member<A>>)
    requires Canonical(Dict(ms))
    ensures Set(tr, Map(fn, Iterate(tr, Dict(ms)).value), Dict(ms)) == Update(tr, fn, Dict(ms))
  {
    var flat := FlattenDict(ms, true);
    FlatSorted(ms, true);
    SortedItemsIdentity(flat);
    FlatSorted(ms, false);
    SortedItemsIdentity(FlattenDict(ms, false));
    FlattenDrop(ms);
    SelectDropEmpty(tr.filter, flat);
    SetItemsIsRewrite(tr.filter, fn, flat);
  }

  /** On a canonical dict `set` needs no re-sorting: it is `SetItems` on the flat view, unflattened. */
  lemma SetUnfold<A>(tr: ModelParamTraversal<A>, values: seq<Tree<A>>, ms: seq<Member<A>>)
    requires Canonical(Dict(ms))
    requires Set(tr, values, Dict(ms)).Ok?
    ensures SetItems(tr.filter, FlattenDict(ms, true), values).Ok?
    ensures PathsNonEmpty(SetItems(tr.filter, FlattenDict(ms, true), values).value)
    ensures Set(tr, values, Dict(ms)) == Ok(UnflattenDict(SetItems(tr.filter, FlattenDict(ms, true), values).value))
  {
    FlatSorted(ms, true);
    SortedItemsIdentity(FlattenDict(ms, true));
    SetItemsKeeps(tr.filter, FlattenDict(ms, true), values);
  }

  /** `set` leaves every unselected value and every empty dict where it was. */
  lemma SetKeepsUnselected<A>(tr: ModelParamTraversal<A>, values: seq<Tree<A>>, ms: seq<Member<A>>, p: Path, v: Tree<A>)
    requires Canonical(Dict(ms))
    requires Set(tr, values, Dict(ms)).Ok?
    requires |p| > 0 && Lookup(Dict(ms), p) == Some(v)
    requires (!v.Dict? && !tr.filter(PathString(p), v)) || (v.Dict? && v.members == [])
    ensures Lookup(Set(tr, values, Dict(ms)).value, p) == Some(v)
  {
    var flat := FlattenDict(ms, true);
    SetUnfold(tr, values, ms);
    var items := SetItems(tr.filter, flat, values).value;
    SetItemsKeeps(tr.filter, flat, values);
    LookupFlat(ms, p, v, true);
    var k :| 0 <= k < |flat| && flat[k] == ItemAt(p, v);
    assert items[k] == flat[k];
    LookupSameSkeleton(ms, items, k);
  }

  /** Everything `iterate` yields from a canonical dict is canonical. */
  lemma IterateCanonical<A>(tr: ModelParamTraversal<A>, ms: seq<Member<A>>)
    requires Canonical(Dict(ms))
    ensures Iterate(tr, Dict(ms)).Ok?
    ensures forall i :: 0 <= i < |Iterate(tr, Dict(ms)).value| ==> Canonical(Iterate(tr, Dict(ms)).value[i])
  {
    IterateSpec(tr, ms);
    var vs := Iterate(tr, Dict(ms)).value;
    var ps := IteratedPaths(tr, ms);
    forall i | 0 <= i < |vs| ensures Canonical(vs[i]) {
      LookupCanonical(Dict(ms), ps[i]);
    }
  }

  /** `set` with canonical values keeps a canonical dict canonical. */
  lemma SetCanonical<A>(tr: ModelParamTraversal<A>, values: seq<Tree<A>>, ms: seq<Member<A>>)
    requires Canonical(Dict(ms))
    requires forall i :: 0 <= i < |values| ==> Canonical(values[i])
    requires Set(tr, values, Dict(ms)).Ok?
    ensures Set(tr, values, Dict(ms)).value.Dict?
    ensures Canonical(Set(tr, values, Dict(ms)).value)
  {
    var flat := FlattenDict(ms, true);
    SetUnfold(tr, values, ms);
    var items := SetItems(tr.filter, flat, values).value;
    SetItemsKeeps(tr.filter, flat, values);
    UnflattenSameSkeleton(ms, items);
    var ws := ItemValues(items);
    forall k | 0 <= k < |ws| ensures Canonical(ws[k]) {
      ItemValuesMember(items, k);
      var i :| 0 <= i < |items| && items[i].entry == Value(ws[k]);
      if items[i] == flat[i] {
        assert flat[i] in flat;
        FlatLookup(ms, flat[i].path, ws[k]);
        LookupCanonical(Dict(ms), flat[i].path);
      }
    }
    RefillCanonical(ms, ws);
  }

  // ---------------------------------------------------------------------------
  // Where `set` writes each value

  /** Placeholders are never selected, so dropping them changes no selected path. */
  lemma {:induction false} SelectedPathsDropEmpty<A>(f: (string, Tree<A>) -> bool, items: seq<Item<A>>)
    ensures SelectedPaths(f, DropEmpty(items)) == SelectedPaths(f, items)
  {
    if items != [] {
      SelectedPathsDropEmpty(f, items[1..]);
      if !items[0].entry.EmptyNode? {
        assert DropEmpty(items)[1..] == DropEmpty(items[1..]);
      }
    }
  }

  /** The `k`-th selected entry receives the `k`-th value. */
  lemma {:induction false} SetItemsAt<A>(f: (string, Tree<A>) -> bool, items: seq<Item<A>>, vs: seq<Tree<A>>, k: nat)
    requires SetItems(f, items, vs).Ok?
    requires k < |vs|
    ensures |SelectedPaths(f, items)| == |vs|
    ensures Item(SelectedPaths(f, items)[k], Value(vs[k])) in SetItems(f, items, vs).value
  {
    SelectedPathsLength(f, items);
    assert items != [];
    var r := SetItems(f, items, vs).value;
    if Selected(f, items[0]) {
      var rest := SetItems(f, items[1..], vs[1..]).value;
      assert r == [Item(items[0].path, Value(vs[0]))] + rest;
      if k > 0 {
        SetItemsAt(f, items[1..], vs[1..], k - 1);
        assert SelectedPaths(f, items)[k] == SelectedPaths(f, items[1..])[k - 1];
        assert r[1..] == rest;
      }
    } else {
      var rest := SetItems(f, items[1..], vs).value;
      assert r == [items[0]] + rest;
      SetItemsAt(f, items[1..], vs, k);
      assert SelectedPaths(f, items) == SelectedPaths(f, items[1..]);
      assert r[1..] == rest;
    }
  }

  /** `set` writes the `k`-th value at the `k`-th path `iterate` visits:
      values go back where `iterate` read them, in the same order. */
  lemma SetWritesInOrder<A>(tr: ModelParamTraversal<A>, values: seq<Tree<A>>, ms: seq<Member<A>>, k: nat)
    requires Canonical(Dict(ms))
    requires Set(tr, values, Dict(ms)).Ok?
    requires k < |values|
    ensures k < |IteratedPaths(tr, ms)|
    ensures Lookup(Set(tr, values, Dict(ms)).value, IteratedPaths(tr, ms)[k]) == Some(values[k])
  {
    var flat := FlattenDict(ms, true);
    SetUnfold(tr, values, ms);
    var items := SetItems(tr.filter, flat, values).value;
    SetItemsKeeps(tr.filter, flat, values);
    SetItemsAt(tr.filter, flat, values, k);
    IterateUnfold(tr, ms);
    FlattenDrop(ms);
    SelectedPathsDropEmpty(tr.filter, flat);
    var p := SelectedPaths(tr.filter, flat)[k];
    assert IteratedPaths(tr, ms)[k] == p;
    var i :| 0 <= i < |items| && items[i] == Item(p, Value(values[k]));
    LookupSameSkeleton(ms, items, i);
  }

  /** `update` keeps the dict skeleton: the result is the input with its
      non-dict values replaced, in flat order, by the rewritten ones. */
  lemma UpdateShape<A>(tr: ModelParamTraversal<A>, fn: Tree<A> -> Tree<A>, ms: seq<Member<A>>)
    requires Canonical(Dict(ms))
    ensures var vs := ItemValues(RewriteItems(tr.filter, fn, FlattenDict(ms, true)));
      && |vs| == MembersValueCount(ms)
      && Update(tr, fn, Dict(ms)) == Ok(Dict(RefillMembers(ms, vs)))
  {
    UpdateUnfold(tr, fn, ms);
    UnflattenSameSkeleton(ms, RewriteItems(tr.filter, fn, FlattenDict(ms, true)));
  }

  /** `set` keeps the dict skeleton in the same way. */
  lemma SetShape<A>(tr: ModelParamTraversal<A>, values: seq<Tree<A>>, ms: seq<Member<A>>)
    requires Canonical(Dict(ms))
    requires Set(tr, values, Dict(ms)).Ok?
    ensures SetItems(tr.filter, FlattenDict(ms, true), values).Ok?
    ensures var vs := ItemValues(SetItems(tr.filter, FlattenDict(ms, true), values).value);
      && |vs| == MembersValueCount(ms)
      && Set(tr, values, Dict(ms)) == Ok(Dict(RefillMembers(ms, vs)))
  {
    SetUnfold(tr, values, ms);
    SetItemsKeeps(tr.filter, FlattenDict(ms, true), values);
    UnflattenSameSkeleton(ms, SetItems(tr.filter, FlattenDict(ms, true), values).value);
  }
}
