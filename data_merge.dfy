/**
 * The data utilities' record merges (`merge.ts`): `merge` spreads its arguments left to right
 * into a fresh object, so later arguments win key by key; `deepMerge` does the same into an
 * accumulator it updates key by key, except that where both the accumulated and the incoming
 * value are plain objects it merges them recursively. Records are maps from keys to JSON-like
 * values.
 */
module DataMerge {
  import opened Json

  type Record = map<string, Value>

  /** The keys some argument has. */
  function AllKeys(objects: seq<Record>): (keys: set<string>)
    ensures forall k :: k in keys <==> exists i | 0 <= i < |objects| :: k in objects[i]
  {
    if objects == [] then {}
    else
      var init := objects[..|objects| - 1];
      assert forall i | 0 <= i < |init| :: init[i] == objects[i];
      AllKeys(init) + objects[|objects| - 1].Keys
  }

  /** The last argument that has the key. */
  function LastWith(objects: seq<Record>, k: string): (i: nat)
    requires k in AllKeys(objects)
    ensures i < |objects| && k in objects[i]
    ensures forall j | i < j < |objects| :: k !in objects[j]
  {
    var n := |objects| - 1;
    if k in objects[n] then n
    else
      assert AllKeys(objects) == AllKeys(objects[..n]) + objects[n].Keys;
      assert forall i | 0 <= i < n :: objects[..n][i] == objects[i];
      LastWith(objects[..n], k)
  }

  /** A key the last argument lacks is decided by the earlier arguments. */
  lemma LastWithInPrefix(objects: seq<Record>, k: string)
    requires k in AllKeys(objects) && objects != [] && k !in objects[|objects| - 1]
    ensures k in AllKeys(objects[..|objects| - 1])
    ensures LastWith(objects, k) == LastWith(objects[..|objects| - 1], k)
  {
    assert AllKeys(objects) == AllKeys(objects[..|objects| - 1]) + objects[|objects| - 1].Keys;
  }

  /** `merge(...objects)`: `objects.reduce((acc, obj) => ({ ...acc, ...obj }), {})`. */
  function Merge(objects: seq<Record>): (r: Record)
    ensures r.Keys == AllKeys(objects)
    ensures forall k | k in r :: r[k] == objects[LastWith(objects, k)][k]
  {
    if objects == [] then map[]
    else
      var n := |objects| - 1;
      var acc := Merge(objects[..n]);
      assert forall i | 0 <= i < n :: objects[..n][i] == objects[i];
      acc + objects[n]
  }

  /** `merge()` is the empty object; `merge(x)` is a copy of `x`. */
  lemma MergeFewArguments(x: Record)
    ensures Merge([]) == map[]
    ensures Merge([x]) == x
  {
    assert [x][..0] == [];
  }

  /** `isObject`: truthy, of type `object`, and not an array. */
  predicate IsPlainObject(v: Value) {
    v.Obj?
  }

  /** What `acc[key]` becomes when `obj` has `key`: the recursive `deepMerge(accValue, objValue)`
      when both are plain objects, otherwise `objValue`, whatever it is. */
  function MergedValue(acc: Record, obj: Record, key: string): Value
    requires key in obj
    decreases Obj(obj), 0
  {
    if key in acc && IsPlainObject(acc[key]) && IsPlainObject(obj[key]) then
      assert obj[key] == Obj(obj[key].fields);
      Obj(MergeInto(acc[key].fields, obj[key].fields))
    else obj[key]
  }

  /** The accumulator after the given keys of `obj` have been processed. */
  function MergeKeys(acc: Record, obj: Record, done: set<string>): (r: Record)
    requires done <= obj.Keys
    ensures r.Keys == acc.Keys + done
    ensures forall k | k in done :: r[k] == MergedValue(acc, obj, k)
    ensures forall k | k in acc && k !in done :: r[k] == acc[k]
    decreases Obj(obj), 1
  {
    map k | k in acc.Keys + done :: if k in done then MergedValue(acc, obj, k) else acc[k]
  }

  /** Processing one more key of `obj` sets that key, from the value `acc` started with. */
  lemma MergeKeysStep(acc: Record, obj: Record, done: set<string>, key: string)
    requires done <= obj.Keys && key in obj && key !in done
    ensures var before := MergeKeys(acc, obj, done);
      && (key in before <==> key in acc)
      && (key in acc ==> before[key] == acc[key])
      && MergeKeys(acc, obj, done + {key}) == before[key := MergedValue(acc, obj, key)]
  {
  }

  /** One step of the `reduce`: every key of `obj` processed. A key only `acc` has keeps its
      value; an incoming value that is not a plain object (an array, `null`, `undefined`, a
      primitive) overwrites, so arrays are replaced wholesale; two plain objects are merged,
      keeping both sides' keys. */
  function MergeInto(acc: Record, obj: Record): (r: Record)
    ensures r.Keys == acc.Keys + obj.Keys
    ensures forall k | k in acc && k !in obj :: r[k] == acc[k]
    ensures forall k | k in obj && (k !in acc || !IsPlainObject(acc[k]) || !IsPlainObject(obj[k])) ::
      r[k] == obj[k]
    ensures forall k | k in obj && k in acc && IsPlainObject(acc[k]) && IsPlainObject(obj[k]) ::
      r[k].Obj? && r[k].fields.Keys == acc[k].fields.Keys + obj[k].fields.Keys
    decreases Obj(obj), 2
  {
    MergeKeys(acc, obj, obj.Keys)
  }

  /** `deepMerge(...objects)` as a fold from `{}`. */
  function DeepMergeSpec(objects: seq<Record>): (r: Record)
    ensures r.Keys == AllKeys(objects)
  {
    if objects == [] then map[]
    else MergeInto(DeepMergeSpec(objects[..|objects| - 1]), objects[|objects| - 1])
  }

  /** `deepMerge`: the `forEach` over each argument's keys, updating the accumulator. The
      recursive `deepMerge(accValue, objValue)` is `MergeInto(accValue, objValue)`, which
      `NestedCallIsMergeInto` justifies. */
  method MergeIntoAcc(acc0: Record, obj: Record) returns (acc: Record)
    ensures acc == MergeInto(acc0, obj)
    decreases Obj(obj)
  {
    acc := acc0;
    var keys := obj.Keys;
    while keys != {}
      invariant keys <= obj.Keys
      invariant acc == MergeKeys(acc0, obj, obj.Keys - keys)
      decreases keys
    {
      var key :| key in keys;
      MergeKeysStep(acc0, obj, obj.Keys - keys, key);
      assert obj.Keys - (keys - {key}) == (obj.Keys - keys) + {key};
      var objValue := obj[key];
      if key in acc && IsPlainObject(acc[key]) && IsPlainObject(objValue) {
        assert objValue == Obj(objValue.fields);
        var nested := MergeIntoAcc(acc[key].fields, objValue.fields);
        acc := acc[key := Obj(nested)];
      } else {
        acc := acc[key := objValue];
      }
      keys := keys - {key};
    }
  }

  method DeepMerge(objects: seq<Record>) returns (acc: Record)
    ensures acc == DeepMergeSpec(objects)
    ensures acc.Keys == AllKeys(objects)
  {
    acc := map[];
    for i := 0 to |objects|
      invariant acc == DeepMergeSpec(objects[..i])
    {
      assert objects[..i + 1][..i] == objects[..i];
      acc := MergeIntoAcc(acc, objects[i]);
    }
    assert objects[..|objects|] == objects;
  }

  /** Merging into `{}` copies: so the nested `deepMerge(a, b)`, which merges `a` and then `b`
      into a fresh `{}`, equals `MergeInto(a, b)`, and `deepMerge(x)` equals `x`. */
  lemma MergeIntoEmpty(a: Record)
    ensures MergeInto(map[], a) == a
  {
    var copy := MergeInto(map[], a);
    assert forall k | k in a :: copy[k] == a[k];
  }

  lemma NestedCallIsMergeInto(a: Record, b: Record)
    ensures DeepMergeSpec([a]) == a
    ensures DeepMergeSpec([a, b]) == MergeInto(a, b)
  {
    var one := [a];
    var two := [a, b];
    assert one[..0] == [];
    assert two[..1] == one;
    calc {
      DeepMergeSpec(one);
      MergeInto(DeepMergeSpec([]), a);
      { MergeIntoEmpty(a); }
      a;
    }
    assert DeepMergeSpec(two) == MergeInto(DeepMergeSpec(one), b);
  }

  /** The last argument with a key decides its value whenever that value is not a plain
      object, as in the shallow `merge`. */
  lemma {:induction false} LastNonObjectWins(objects: seq<Record>, k: string)
    requires k in AllKeys(objects) && !IsPlainObject(objects[LastWith(objects, k)][k])
    ensures DeepMergeSpec(objects)[k] == objects[LastWith(objects, k)][k]
  {
    var n := |objects| - 1;
    var init := objects[..n];
    var acc := DeepMergeSpec(init);
    assert DeepMergeSpec(objects)[k] == MergeInto(acc, objects[n])[k];
    if k in objects[n] {
      assert LastWith(objects, k) == n;
    } else {
      LastWithInPrefix(objects, k);
      LastNonObjectWins(init, k);
      assert k in acc;
    }
  }

  /** No value of the record is a plain object. */
  predicate Flat(r: Record) {
    forall k | k in r :: !IsPlainObject(r[k])
  }

  /** On records without nested objects the deep merge is the shallow one. */
  lemma {:induction false} DeepMergeOfFlatIsMerge(objects: seq<Record>)
    requires forall i | 0 <= i < |objects| :: Flat(objects[i])
    ensures DeepMergeSpec(objects) == Merge(objects)
  {
    if objects != [] {
      var init := objects[..|objects| - 1];
      var last := objects[|objects| - 1];
      DeepMergeOfFlatIsMerge(init);
      var acc := DeepMergeSpec(init);
      assert MergeInto(acc, last) == acc + last;
    }
  }

  /** Deep-merging a record with itself gives it back, at every depth. */
  lemma {:induction false} MergeIntoSelf(x: Record)
    ensures MergeInto(x, x) == x
    decreases Obj(x)
  {
    forall k | k in x
      ensures MergeInto(x, x)[k] == x[k]
    {
      if IsPlainObject(x[k]) {
        assert x[k] == Obj(x[k].fields);
        MergeIntoSelf(x[k].fields);
      }
    }
  }
}
