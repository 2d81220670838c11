/**
 * The data utilities' checks (`validate.ts`): `validate` only rejects falsy data, and
 * `validateRequired` reports, in field order, each required field that is absent or holds
 * `null` or `undefined`. Both collect their errors in a list and are valid when it is empty.
 */
module DataValidate {
  import opened Json
  import opened Seqs

  datatype ValidationResult = ValidationResult(valid: bool, errors: seq<string>)

  const DataMissing := "Data is null or undefined"

  /** `validate(data, _schema)`: the schema plays no part. */
  method Validate(data: Value, schema: Value) returns (result: ValidationResult)
    ensures result.valid <==> Truthy(data)
    ensures result.valid <==> result.errors == []
    ensures !result.valid ==> result.errors == [DataMissing]
  {
    var errors: seq<string> := [];
    if !Truthy(data) {
      errors := errors + [DataMissing];
    }
    return ValidationResult(|errors| == 0, errors);
  }

  /** The field counts as given: it is a key of the object and its value is neither `null`
      nor `undefined`. */
  predicate Present(data: map<string, Value>, field: string) {
    field in data && data[field] != Null && data[field] != Undefined
  }

  /** The required fields that are not given, in their order. */
  function Missing(data: map<string, Value>, fields: seq<string>): (r: seq<string>)
    ensures IsSubsequence(r, fields) && |r| <= |fields|
    ensures forall f | f in r :: f in fields && !Present(data, f)
    ensures forall i | 0 <= i < |fields| && !Present(data, fields[i]) :: fields[i] in r
  {
    if fields == [] then []
    else
      var rest := Missing(data, fields[1..]);
      assert forall i | 1 <= i < |fields| :: fields[i] == fields[1..][i - 1];
      if Present(data, fields[0]) then
        SubsequenceSkip(rest, fields[1..], fields[0]);
        assert [fields[0]] + fields[1..] == fields;
        rest
      else [fields[0]] + rest
  }

  /** `Required field "<f>" is missing` */
  function RequiredError(field: string): string {
    "Required field \"" + field + "\" is missing"
  }

  function Errors(fields: seq<string>): (r: seq<string>)
    ensures |r| == |fields|
    ensures forall i | 0 <= i < |r| :: r[i] == RequiredError(fields[i])
  {
    seq(|fields|, i requires 0 <= i < |fields| => RequiredError(fields[i]))
  }

  /** `validateRequired(data, requiredFields)`: the `forEach` pushing one error per missing
      field. The object's prototype chain is not modelled: `field in data` is a key test. */
  method ValidateRequired(data: map<string, Value>, requiredFields: seq<string>) returns (result: ValidationResult)
    ensures result.errors == Errors(Missing(data, requiredFields))
    ensures result.valid <==> forall f | f in requiredFields :: Present(data, f)
    ensures |result.errors| <= |requiredFields|
  {
    var errors: seq<string> := [];
    for i := 0 to |requiredFields|
      invariant errors == Errors(Missing(data, requiredFields[..i]))
    {
      var field := requiredFields[i];
      ErrorsStep(data, requiredFields, i);
      if !(field in data) || data[field] == Null || data[field] == Undefined {
        errors := errors + [RequiredError(field)];
      }
    }
    assert requiredFields[..|requiredFields|] == requiredFields;
    NothingMissingIff(data, requiredFields);
    return ValidationResult(|errors| == 0, errors);
  }

  /** One more field adds its error exactly when it is not given. */
  lemma ErrorsStep(data: map<string, Value>, fields: seq<string>, i: nat)
    requires i < |fields|
    ensures Errors(Missing(data, fields[..i + 1]))
      == Errors(Missing(data, fields[..i])) + (if Present(data, fields[i]) then [] else [RequiredError(fields[i])])
  {
    assert fields[..i + 1] == fields[..i] + [fields[i]];
    MissingAppend(data, fields[..i], fields[i]);
    if !Present(data, fields[i]) {
      ErrorsAppend(Missing(data, fields[..i]), fields[i]);
    }
  }

  /** No field is missing exactly when every required field is given. */
  lemma NothingMissingIff(data: map<string, Value>, fields: seq<string>)
    ensures Missing(data, fields) == [] <==> forall f | f in fields :: Present(data, f)
  {
    var missing := Missing(data, fields);
    if missing == [] {
      forall f | f in fields ensures Present(data, f) {
        var i :| 0 <= i < |fields| && fields[i] == f;
      }
    } else {
      assert missing[0] in missing;
    }
  }

  lemma ErrorsAppend(fields: seq<string>, f: string)
    ensures Errors(fields + [f]) == Errors(fields) + [RequiredError(f)]
  {
    assert forall i | 0 <= i < |fields| :: (fields + [f])[i] == fields[i];
  }

  /** The missing fields of a longer list extend those of the shorter one. */
  lemma {:induction false} MissingAppend(data: map<string, Value>, fields: seq<string>, f: string)
    ensures Missing(data, fields + [f]) == Missing(data, fields) + (if Present(data, f) then [] else [f])
  {
    if fields == [] {
      assert [f][1..] == [];
    } else {
      assert (fields + [f])[1..] == fields[1..] + [f];
      MissingAppend(data, fields[1..], f);
    }
  }
}
