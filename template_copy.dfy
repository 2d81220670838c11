/**
 * `create-project`'s copy of a template directory into the new project folder, over an
 * abstract directory tree: every entry is copied, at every depth, except those named
 * `node_modules`.
 */
module TemplateCopy {

  /** A directory entry: a file with its content, or a directory with its entries. */
  datatype Entry = File(name: string, content: string) | Directory(name: string, children: seq<Entry>)

  const Skipped := "node_modules"

  /** The entries the copy creates in a fresh target directory for the given source entries,
      in `readdirSync` order. */
  function Copied(items: seq<Entry>): seq<Entry>
    decreases items
  {
    if items == [] then []
    else
      var init := Copied(items[..|items| - 1]);
      var item := items[|items| - 1];
      if item.name == Skipped then init
      else
        match item
        case File(_, _) => init + [item]
        case Directory(name, children) => init + [Directory(name, Copied(children))]
  }

  /** `copyDirectoryRecursive(source, target)` for a target that does not exist yet (the
      folder question rejects existing project folders), returning what it creates. */
  method CopyDirectoryRecursive(items: seq<Entry>) returns (target: seq<Entry>)
    ensures target == Copied(items)
    decreases items
  {
    target := [];
    for i := 0 to |items|
      invariant target == Copied(items[..i])
    {
      assert items[..i + 1][..i] == items[..i];
      var item := items[i];
      if item.name == Skipped {
        continue;
      }
      match item {
        case File(_, _) =>
          target := target + [item];
        case Directory(name, children) =>
          var copiedChildren := CopyDirectoryRecursive(children);
          target := target + [Directory(name, copiedChildren)];
      }
    }
    assert items[..|items|] == items;
  }

  /** The entry holds a file with this content at this path, relative to the entry's parent. */
  predicate EntryHasFile(e: Entry, path: seq<string>, content: string)
    decreases e
  {
    match e
    case File(name, c) => path == [name] && c == content
    case Directory(name, children) => |path| > 1 && path[0] == name && HasFile(children, path[1..], content)
  }

  /** The entries hold a file with this content at this path. */
  predicate HasFile(items: seq<Entry>, path: seq<string>, content: string)
    decreases items
  {
    exists k | 0 <= k < |items| :: EntryHasFile(items[k], path, content)
  }

  lemma HasFileAppend(items: seq<Entry>, e: Entry, path: seq<string>, content: string)
    ensures HasFile(items + [e], path, content) <==> HasFile(items, path, content) || EntryHasFile(e, path, content)
  {
    var all := items + [e];
    if HasFile(items, path, content) {
      var k :| 0 <= k < |items| && EntryHasFile(items[k], path, content);
      assert all[k] == items[k];
    }
    if EntryHasFile(e, path, content) {
      assert all[|items|] == e;
    }
    if HasFile(all, path, content) {
      var k :| 0 <= k < |all| && EntryHasFile(all[k], path, content);
      if k < |items| {
        assert all[k] == items[k];
      }
    }
  }

  /** The copy holds exactly the source's files (same path, same content) whose path does not
      pass through, or end at, an entry named `node_modules`. */
  lemma {:induction false} CopiedFiles(items: seq<Entry>, path: seq<string>, content: string)
    ensures HasFile(Copied(items), path, content) <==> HasFile(items, path, content) && Skipped !in path
    decreases items
  {
    if items != [] {
      var init := items[..|items| - 1];
      var item := items[|items| - 1];
      assert items == init + [item];
      CopiedFiles(init, path, content);
      HasFileAppend(init, item, path, content);
      if item.name == Skipped {
        if EntryHasFile(item, path, content) {
          assert path[0] == Skipped;
        }
      } else {
        match item {
          case File(_, _) =>
            HasFileAppend(Copied(init), item, path, content);
          case Directory(name, children) =>
            var copy := Directory(name, Copied(children));
            HasFileAppend(Copied(init), copy, path, content);
            if |path| > 1 && path[0] == name {
              CopiedFiles(children, path[1..], content);
              assert path == [path[0]] + path[1..];
            }
        }
      }
    } else {
      assert !HasFile([], path, content);
    }
  }

  /** No entry anywhere in the tree is named `node_modules`. */
  predicate FreeOfSkipped(items: seq<Entry>)
    decreases items
  {
    forall k | 0 <= k < |items| ::
      && items[k].name != Skipped
      && (items[k].Directory? ==> FreeOfSkipped(items[k].children))
  }

  /** The copy is free of `node_modules`, and copying a tree that is already free of it
      reproduces the tree, so copying a copy changes nothing. */
  lemma CopyOfFreeTree(items: seq<Entry>)
    ensures FreeOfSkipped(Copied(items))
    ensures FreeOfSkipped(items) ==> Copied(items) == items
  {
    CopyIsFree(items);
    if FreeOfSkipped(items) {
      CopyOfFreeIsIdentity(items);
    }
  }

  lemma {:induction false} CopyIsFree(items: seq<Entry>)
    ensures FreeOfSkipped(Copied(items))
    decreases items
  {
    if items != [] {
      var item := items[|items| - 1];
      CopyIsFree(items[..|items| - 1]);
      var r := Copied(items);
      var ci := Copied(items[..|items| - 1]);
      if item.name != Skipped {
        match item {
          case File(_, _) =>
            assert r == ci + [item];
            assert forall k | 0 <= k < |ci| :: r[k] == ci[k];
          case Directory(name, children) =>
            CopyIsFree(children);
            assert r == ci + [Directory(name, Copied(children))];
            assert forall k | 0 <= k < |ci| :: r[k] == ci[k];
        }
      }
    }
  }

  lemma {:induction false} CopyOfFreeIsIdentity(items: seq<Entry>)
    requires FreeOfSkipped(items)
    ensures Copied(items) == items
    decreases items
  {
    if items != [] {
      var init := items[..|items| - 1];
      var item := items[|items| - 1];
      assert forall k | 0 <= k < |init| :: init[k] == items[k];
      CopyOfFreeIsIdentity(init);
      assert items == init + [item];
      match item {
        case File(_, _) =>
        case Directory(name, children) =>
          CopyOfFreeIsIdentity(children);
      }
    }
  }
}
