/**
 * The data utilities' normalisation (`normalize.ts`): a placeholder that casts its input to
 * the expected type, so it returns the data unchanged whatever the schema, and maps that over
 * an array.
 */
module DataNormalize {
  import opened Json

  /** `normalize(data, _schema)` */
  function Normalize(data: Value, schema: Value): (r: Value)
    ensures r == data
  {
    data
  }

  /** `normalizeArray(data, _schema)`: `data.map(item => normalize(item, _schema))`. */
  function NormalizeArray(data: seq<Value>, schema: Value): (r: seq<Value>)
    ensures |r| == |data|
    ensures forall i | 0 <= i < |r| :: r[i] == Normalize(data[i], schema)
  {
    if data == [] then [] else [Normalize(data[0], schema)] + NormalizeArray(data[1..], schema)
  }

  /** Each element and its position are kept, so the array comes back equal; the empty
      array gives the empty array, and the schema makes no difference. */
  lemma {:induction false} NormalizeArrayKeeps(data: seq<Value>, schema: Value, other: Value)
    ensures NormalizeArray(data, schema) == data
    ensures NormalizeArray([], schema) == []
    ensures NormalizeArray(data, schema) == NormalizeArray(data, other)
  {
    var r := NormalizeArray(data, schema);
    assert forall i | 0 <= i < |r| :: r[i] == data[i];
  }
}
