/**
 * `create-project`'s rename of the copied template's `package.json`: the parsed document
 * gets `name` set to the folder name and is written back.
 */
module PackageJson {
  import opened Wrappers
  import opened Json

  /** What `updatePackageJson` does: nothing but a warning when the file is missing, writes a
      document, or throws (which makes the script exit with status 1). */
  datatype Outcome = Missing | Written(document: Value) | Throws

  /** `packageJson.name = folderName` on the parsed document. On an object the property is
      set; on an array it is set as a non-index property, which `JSON.stringify` does not
      write, so the array is written unchanged; on `null` and on primitives the assignment
      throws a `TypeError` (module code runs in strict mode). */
  function UpdatePackageJson(file: Option<Value>, folderName: string): (r: Outcome)
    ensures r == Missing <==> file.None?
    ensures r.Written? && file.value.Obj? ==>
      && r.document.Obj?
      && r.document.fields.Keys == file.value.fields.Keys + {"name"}
      && r.document.fields["name"] == Str(folderName)
      && forall k | k in file.value.fields && k != "name" :: r.document.fields[k] == file.value.fields[k]
    ensures r.Written? && !file.value.Obj? ==> r.document == file.value
    ensures r == Throws <==> file.Some? && !file.value.Obj? && !file.value.Arr?
  {
    match file
    case None => Missing
    case Some(doc) =>
      match doc
      case Obj(fields) => Written(Obj(fields["name" := Str(folderName)]))
      case Arr(_) => Written(doc)
      case _ => Throws
  }

  /** Renaming an already renamed document writes the same document again. */
  lemma UpdateIdempotent(file: Option<Value>, folderName: string)
    requires UpdatePackageJson(file, folderName).Written?
    ensures var first := UpdatePackageJson(file, folderName);
      UpdatePackageJson(Some(first.document), folderName) == first
  {
    var first := UpdatePackageJson(file, folderName);
    if file.value.Obj? {
      var fields := file.value.fields;
      assert fields["name" := Str(folderName)]["name" := Str(folderName)] == fields["name" := Str(folderName)];
    }
  }
}
