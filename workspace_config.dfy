/**
 * `create-project`'s registration of the new project in `projects/pnpm-workspace.yaml`:
 * the line `  - '<folder>'` is inserted right after the `packages:` line, unless it is
 * already in the file.
 */
module WorkspaceConfig {
  import opened Wrappers
  import opened Strings

  /** The list item naming the project. */
  function ProjectEntry(folderName: string): string {
    "  - '" + folderName + "'"
  }

  /** `lines.findIndex(line => line.trim() === 'packages:')`, with `None` for `-1`. */
  function FindPackagesLine(lines: seq<string>): (k: Option<nat>)
    ensures k.Some? ==> k.value < |lines| && Trim(lines[k.value]) == "packages:"
    ensures k.Some? ==> forall j | 0 <= j < k.value :: Trim(lines[j]) != "packages:"
    ensures k.None? ==> forall j | 0 <= j < |lines| :: Trim(lines[j]) != "packages:"
  {
    if lines == [] then None
    else if Trim(lines[0]) == "packages:" then Some(0)
    else
      assert forall j | 1 <= j < |lines| :: lines[j] == lines[1..][j - 1];
      match FindPackagesLine(lines[1..])
      case None => None
      case Some(k) => Some(k + 1)
  }

  /** `lines.splice(i + 1, 0, entry)` */
  function InsertAfter(lines: seq<string>, i: nat, entry: string): (r: seq<string>)
    requires i < |lines|
    ensures |r| == |lines| + 1 && r[i + 1] == entry
    ensures r[..i + 1] == lines[..i + 1] && r[i + 2..] == lines[i + 1..]
  {
    lines[..i + 1] + [entry] + lines[i + 1..]
  }

  /** The content `updateWorkspaceConfig` writes, or `None` when it writes nothing: the file
      is missing, already lists the project, or has no `packages:` line. */
  function UpdatedWorkspace(file: Option<string>, folderName: string): Option<string> {
    match file
    case None => None
    case Some(content) =>
      var entry := ProjectEntry(folderName);
      if Contains(content, entry) then None
      else
        var lines := Split(content, '\n');
        match FindPackagesLine(lines)
        case None => None
        case Some(i) => Some(Join(InsertAfter(lines, i, entry), '\n'))
  }

  /** A file is written exactly when it exists, does not yet contain the entry, and has a
      line that trims to `packages:`. */
  lemma WrittenIff(file: Option<string>, folderName: string)
    ensures UpdatedWorkspace(file, folderName).Some? <==>
      && file.Some?
      && !Contains(file.value, ProjectEntry(folderName))
      && exists j | 0 <= j < |Split(file.value, '\n')| :: Trim(Split(file.value, '\n')[j]) == "packages:"
  {
    if file.Some? && exists j | 0 <= j < |Split(file.value, '\n')| :: Trim(Split(file.value, '\n')[j]) == "packages:" {
      var j :| 0 <= j < |Split(file.value, '\n')| && Trim(Split(file.value, '\n')[j]) == "packages:";
      assert FindPackagesLine(Split(file.value, '\n')).Some?;
    }
  }

  /** Running the update on the file it wrote writes nothing: the registration is idempotent. */
  lemma UpdateIdempotent(content: string, folderName: string)
    requires UpdatedWorkspace(Some(content), folderName).Some?
    ensures UpdatedWorkspace(UpdatedWorkspace(Some(content), folderName), folderName) == None
  {
    var entry := ProjectEntry(folderName);
    var lines := Split(content, '\n');
    var i := FindPackagesLine(lines).value;
    var inserted := InsertAfter(lines, i, entry);
    JoinContains(inserted, i + 1, '\n');
  }

  /** Inserting a line without the separator keeps every line free of it. */
  lemma InsertAfterWithout(lines: seq<string>, i: nat, entry: string, sep: char)
    requires i < |lines| && sep !in entry
    requires forall l | l in lines :: sep !in l
    ensures forall l | l in InsertAfter(lines, i, entry) :: sep !in l
  {
    var r := InsertAfter(lines, i, entry);
    assert r == lines[..i + 1] + [entry] + lines[i + 1..];
    forall l | l in r ensures sep !in l {
      if l in lines[..i + 1] {
        assert l in lines;
      } else if l in lines[i + 1..] {
        assert l in lines;
      }
    }
  }

  /** The written file's lines are the old lines with the entry inserted right after the
      first `packages:` line; every other line keeps its place. */
  lemma InsertedAfterPackages(content: string, folderName: string)
    requires '\n' !in folderName
    requires UpdatedWorkspace(Some(content), folderName).Some?
    ensures var lines := Split(content, '\n');
      var i := FindPackagesLine(lines);
      && i.Some?
      && Split(UpdatedWorkspace(Some(content), folderName).value, '\n') == InsertAfter(lines, i.value, ProjectEntry(folderName))
  {
    var entry := ProjectEntry(folderName);
    var lines := Split(content, '\n');
    var i := FindPackagesLine(lines).value;
    assert '\n' !in entry;
    InsertAfterWithout(lines, i, entry, '\n');
    SplitJoin(InsertAfter(lines, i, entry), '\n');
  }
}
