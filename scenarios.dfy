/** Client code driving a `Browser` through the behaviour the navigation
    engine is known for, using only the contracts of its methods. */
module Scenarios {
  import opened CStrings
  import opened Paths
  import opened Listing
  import opened Explorer

  /** From `/home/alice` the go-up button reaches `/home` and then stops:
      `/home` has its last `/` at position 0. */
  method GoUpStopsBelowRoot(fs: FileSystem, mounts: seq<string>)
    requires forall m :: m in mounts ==> IsAbsolute(m)
  {
    var b := new Browser("/home/alice", mounts, fs);
    assert UpTarget("/home/alice") == Some("/home") by { UpTargetCases(); }
    b.GoUp(fs);
    assert b.currentPath == "/home";
    assert UpTarget("/home") == None by { UpTargetCases(); }
    b.GoUp(fs);
    assert b.currentPath == "/home";
    assert b.events == [Refreshed("/home/alice"), Refreshed("/home")];
  }

  /** Entering a sub-directory and going up again comes back to the start. */
  method EnterAndLeave(fs: FileSystem, mounts: seq<string>, index: nat)
    requires forall m :: m in mounts ==> IsAbsolute(m)
  {
    var b := new Browser("/home/alice", mounts, fs);
    if index < |b.rows| && '/' !in b.rows[index].name {
      var name := b.rows[index].name;
      b.Activate(index, fs);
      if fs.isDir(Join("/home/alice", name)) {
        UpUndoesJoin("/home/alice", name);
        b.GoUp(fs);
        assert b.currentPath == "/home/alice";
      } else {
        assert b.currentPath == "/home/alice";
        assert b.events[|b.events| - 1] == OpenRequested(Join("/home/alice", name));
      }
    }
  }
}
