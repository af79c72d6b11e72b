/** Hyperparameters and their per-call overrides.

    A concrete optimizer keeps its hyperparameters in a frozen dataclass whose
    `replace(**fields)` returns a copy with named fields changed; a
    MultiOptimizer keeps the list of its sub-optimizers' records. Field values
    are left abstract (`V`).
 */
module HyperParams {
  import opened Results

  datatype HyperParams<V(==)> = Record(fields: map<string, V>) | Many(items: seq<HyperParams<V>>)

  /** The keyword arguments of `update_hyper_params`: the optional
      `hyper_params=` entry, and every other entry, each naming a field. */
  datatype Overrides<V(==)> = Overrides(replacement: Option<HyperParams<V>>, fields: map<string, V>)

  function NoOverrides<V(==)>(): Overrides<V>
  {
    Overrides(None, map[])
  }

  /** `r` is the record `base` with the named fields set and every other field kept. */
  predicate ReplacesFields<V(==)>(base: HyperParams<V>, fields: map<string, V>, r: HyperParams<V>)
  {
    && base.Record?
    && r.Record?
    && fields.Keys <= base.fields.Keys
    && r.fields.Keys == base.fields.Keys
    && (forall k :: k in fields ==> r.fields[k] == fields[k])
    && (forall k :: k in base.fields && k !in fields ==> r.fields[k] == base.fields[k])
  }

  /** `hp.replace(**fields)`: a list has no `replace`, and a dataclass rejects
      a field it does not declare. */
  function Replace<V(==)>(hp: HyperParams<V>, fields: map<string, V>): (r: Result<HyperParams<V>>)
    ensures r.Ok? <==> hp.Record? && fields.Keys <= hp.fields.Keys
    ensures r.Ok? ==> ReplacesFields(hp, fields, r.value)
    ensures hp.Many? ==> r == Err(NotARecord)
  {
    match hp
    case Many(_) => Err(NotARecord)
    case Record(fs) => if fields.Keys <= fs.Keys then Ok(Record(fs + fields)) else Err(UnknownField)
  }

  /** `OptimizerDef.update_hyper_params`: start from the `hyper_params=`
      override if there is one, else from the definition's own record; then,
      if any other override is present, replace those fields. */
  function UpdateOne<V(==)>(own: HyperParams<V>, ov: Overrides<V>): (r: Result<HyperParams<V>>)
    ensures |ov.fields| == 0 ==> r == Ok(ov.replacement.GetOr(own))
    ensures |ov.fields| > 0 ==>
      (r.Ok? <==> ov.replacement.GetOr(own).Record? && ov.fields.Keys <= ov.replacement.GetOr(own).fields.Keys)
    ensures |ov.fields| > 0 && r.Ok? ==> ReplacesFields(ov.replacement.GetOr(own), ov.fields, r.value)
  {
    var hp := ov.replacement.GetOr(own);
    if |ov.fields| == 0 then Ok(hp) else Replace(hp, ov.fields)
  }

  /** The list comprehension `[hp.replace(**fields) for hp in hps]`, failing on the first failure. */
  function ReplaceEach<V(==)>(hs: seq<HyperParams<V>>, fields: map<string, V>): (r: Result<seq<HyperParams<V>>>)
    ensures r.Ok? <==> forall i :: 0 <= i < |hs| ==> Replace(hs[i], fields).Ok?
    ensures r.Ok? ==> |r.value| == |hs|
    ensures r.Ok? ==> forall i :: 0 <= i < |hs| ==> ReplacesFields(hs[i], fields, r.value[i])
  {
    if hs == [] then Ok([])
    else
      var h :- Replace(hs[0], fields);
      var rest :- ReplaceEach(hs[1..], fields);
      Ok([h] + rest)
  }

  /** `MultiOptimizer.update_hyper_params`: the same field replacement applied
      to every record of the list. Iterating a single record fails. */
  function UpdateEach<V(==)>(own: HyperParams<V>, ov: Overrides<V>): (r: Result<HyperParams<V>>)
    ensures |ov.fields| == 0 ==> r == Ok(ov.replacement.GetOr(own))
    ensures |ov.fields| > 0 ==>
      (r.Ok? <==> ov.replacement.GetOr(own).Many? &&
                  forall i :: 0 <= i < |ov.replacement.GetOr(own).items| ==>
                    Replace(ov.replacement.GetOr(own).items[i], ov.fields).Ok?)
    ensures |ov.fields| > 0 && r.Ok? ==>
      && r.value.Many?
      && |r.value.items| == |ov.replacement.GetOr(own).items|
      && forall i :: 0 <= i < |r.value.items| ==>
           ReplacesFields(ov.replacement.GetOr(own).items[i], ov.fields, r.value.items[i])
  {
    var hps := ov.replacement.GetOr(own);
    if |ov.fields| == 0 then Ok(hps)
    else
      match hps
      case Record(_) => Err(NotIterable)
      case Many(hs) =>
        var rs :- ReplaceEach(hs, ov.fields);
        Ok(Many(rs))
  }

  /** Each element of the MultiOptimizer's result is what the single-record
      update makes of the matching element. */
  lemma UpdateEachIsUpdateOneOnEach<V>(hs: seq<HyperParams<V>>, fields: map<string, V>, i: nat)
    requires |fields| > 0
    requires UpdateEach(Many(hs), Overrides(None, fields)).Ok?
    requires i < |hs|
    ensures UpdateOne(hs[i], Overrides(None, fields)).Ok?
    ensures UpdateEach(Many(hs), Overrides(None, fields)).value.items[i]
         == UpdateOne(hs[i], Overrides(None, fields)).value
  {
    var r := UpdateEach(Many(hs), Overrides(None, fields)).value;
    var one := UpdateOne(hs[i], Overrides(None, fields)).value;
    assert ReplacesFields(hs[i], fields, r.items[i]);
    assert ReplacesFields(hs[i], fields, one);
    assert r.items[i].fields == one.fields;
  }
}
