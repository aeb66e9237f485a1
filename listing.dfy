/** What a refresh of the file list displays (main.c `update_file_list`):
    the names the directory enumeration yields, minus the self-entry `.`, in
    enumeration order, each classified by `stat` of the joined path. */
module Listing {
  import opened CStrings
  import opened Paths

  /** The two icons a row can carry: `folder` or `text-x-generic`. */
  datatype Kind = Directory | File

  /** A displayed row of the file list. */
  datatype Row = Row(name: string, kind: Kind)

  /** The file system as the browser observes it at one moment.
      `readDir(p)` is the sequence of names `readdir` yields for `p`, or
      `None` when `opendir(p)` fails; `isDir(p)` is `S_ISDIR` of what
      `stat(p)` reports. */
  datatype FileSystem = FileSystem(readDir: string -> Option<seq<string>>, isDir: string -> bool)

  /** The classification of one entry. */
  function KindOf(isDir: bool): (k: Kind)
    ensures k == Directory <==> isDir
  {
    if isDir then Directory else File
  }

  /** The entries that get a row: all but those named exactly `.`. */
  function VisibleNames(entries: seq<string>): (r: seq<string>)
    ensures |r| <= |entries|
    ensures forall k :: 0 <= k < |r| ==> r[k] != "." && r[k] in entries
  {
    if entries == [] then []
    else
      var name := entries[|entries| - 1];
      VisibleNames(entries[..|entries| - 1]) + (if name == "." then [] else [name])
  }

  /** The rows a refresh of `dir` appends for the enumerated `entries`. */
  function ListingOf(dir: string, entries: seq<string>, isDir: string -> bool): (r: seq<Row>)
    ensures |r| <= |entries|
    ensures forall k :: 0 <= k < |r| ==>
      r[k].name != "." && r[k].name in entries &&
      (r[k].kind == Directory <==> isDir(Join(dir, r[k].name)))
  {
    if entries == [] then []
    else
      var name := entries[|entries| - 1];
      ListingOf(dir, entries[..|entries| - 1], isDir) +
        (if name == "." then [] else [Row(name, KindOf(isDir(Join(dir, name))))])
  }

  /** The rows for `dir` in `fs`: empty when the directory cannot be opened. */
  function RowsFor(fs: FileSystem, dir: string): (r: seq<Row>)
    ensures fs.readDir(dir).None? ==> r == []
    ensures forall k :: 0 <= k < |r| ==>
      fs.readDir(dir).Some? && r[k].name in fs.readDir(dir).value && r[k].name != "." &&
      (r[k].kind == Directory <==> fs.isDir(Join(dir, r[k].name)))
  {
    match fs.readDir(dir)
    case None => []
    case Some(entries) => ListingOf(dir, entries, fs.isDir)
  }

  /** A name is shown exactly when it was enumerated and is not `.`; `..`
      and names starting with `.` are shown. */
  lemma {:induction false} VisibleNamesMembers(entries: seq<string>, name: string)
    ensures name in VisibleNames(entries) <==> name in entries && name != "."
    decreases |entries|
  {
    if entries != [] {
      var front := entries[..|entries| - 1];
      assert entries == front + [entries[|entries| - 1]];
      VisibleNamesMembers(front, name);
    }
  }

  /** Exactly the `.` entries are dropped, each occurrence once. */
  lemma {:induction false} VisibleNamesCount(entries: seq<string>)
    ensures multiset(VisibleNames(entries)) == multiset(entries)["." := 0]
    decreases |entries|
  {
    if entries != [] {
      var front := entries[..|entries| - 1];
      assert entries == front + [entries[|entries| - 1]];
      VisibleNamesCount(front);
    }
  }

  /** Filtering two consecutive parts of an enumeration gives the filtered
      parts one after the other: the enumeration order is kept. */
  lemma {:induction false} VisibleNamesAppend(a: seq<string>, b: seq<string>)
    ensures VisibleNames(a + b) == VisibleNames(a) + VisibleNames(b)
    decreases |b|
  {
    if b == [] {
      assert a + b == a;
    } else {
      var b' := b[..|b| - 1];
      assert (a + b)[..|a + b| - 1] == a + b';
      VisibleNamesAppend(a, b');
    }
  }

  /** The rows are the visible names in order, and a row is a directory row
      exactly when `stat` of its joined path reports a directory. */
  lemma {:induction false} ListingRows(dir: string, entries: seq<string>, isDir: string -> bool)
    ensures |ListingOf(dir, entries, isDir)| == |VisibleNames(entries)|
    ensures forall i :: 0 <= i < |VisibleNames(entries)| ==>
      ListingOf(dir, entries, isDir)[i].name == VisibleNames(entries)[i] &&
      (ListingOf(dir, entries, isDir)[i].kind == Directory <==> isDir(Join(dir, VisibleNames(entries)[i])))
    decreases |entries|
  {
    if entries != [] {
      ListingRows(dir, entries[..|entries| - 1], isDir);
    }
  }

  /** A scenario: `/home/alice` holds `.`, `..`, `a.txt` and the directory
      `sub`; the list shows `..`, `a.txt` and `sub`. */
  lemma ListingOfScenario(isDir: string -> bool)
    requires !isDir("/home/alice/a.txt") && isDir("/home/alice/sub") && isDir("/home/alice/..")
    ensures ListingOf("/home/alice", [".", "..", "a.txt", "sub"], isDir)
         == [Row("..", Directory), Row("a.txt", File), Row("sub", Directory)]
  {
    var d := "/home/alice";
    assert Join(d, "..") == "/home/alice/..";
    assert Join(d, "a.txt") == "/home/alice/a.txt";
    assert Join(d, "sub") == "/home/alice/sub";
    assert ListingOf(d, ["."], isDir) == [] by { assert ["."][..0] == []; }
    assert ListingOf(d, [".", ".."], isDir) == [Row("..", Directory)] by {
      assert [".", ".."][..1] == ["."];
    }
    assert ListingOf(d, [".", "..", "a.txt"], isDir) == [Row("..", Directory), Row("a.txt", File)] by {
      assert [".", "..", "a.txt"][..2] == [".", ".."];
    }
    assert [".", "..", "a.txt", "sub"][..3] == [".", "..", "a.txt"];
  }
}
