/** The browser's session state and its transitions (main.c): the current
    path buffer, the path label, the rows of the file list and of the
    sidebar, and the requests handed to the default-application launcher.
    The file system and the mount table are inputs, never modelled. */
module Explorer {
  import opened CStrings
  import opened Paths
  import opened Sidebar
  import opened Listing

  /** What the core hands to its environment: a refresh of the file list for
      a path (`update_file_list`), or a request to open a file with its
      default application (`open_file`). */
  datatype Event = Refreshed(path: string) | OpenRequested(path: string)

  /** Appending the next element of `b` to `a` followed by a prefix of `b`
      gives `a` followed by the longer prefix. */
  lemma GrowPrefix<T>(a: seq<T>, b: seq<T>, k: nat)
    requires k < |b|
    ensures a + b[..k] + [b[k]] == a + b[..k + 1]
  {
    assert b[..k + 1] == b[..k] + [b[k]];
  }

  class Browser {
    /** The global `current_path` buffer (without its 1024-byte bound). */
    var currentPath: string
    /** The text of `current_path_label`. */
    var pathLabel: string
    /** The rows of `list_box`, in display order. */
    var rows: seq<Row>
    /** The rows of `sidebar_list`, in display order. */
    var sidebar: seq<Shortcut>
    /** Every refresh and open request so far, oldest first. */
    var events: seq<Event>

    /** The browser's invariant: the current path is absolute, and so is the
        path stored on every sidebar row. */
    ghost predicate Valid()
      reads this
    {
      IsAbsolute(currentPath) && forall k :: 0 <= k < |sidebar| ==> IsAbsolute(sidebar[k].path)
    }

    /** Start-up as `main` performs it: the home shortcuts, then the mounted
        volumes, then the home directory becomes the current path and is
        listed. */
    constructor (home: string, mounts: seq<string>, fs: FileSystem)
      requires IsAbsolute(home) && forall m :: m in mounts ==> IsAbsolute(m)
      ensures Valid()
      ensures sidebar == HomeShortcuts(home) + Volumes(mounts)
      ensures currentPath == home && pathLabel == home
      ensures rows == RowsFor(fs, home)
      ensures events == [Refreshed(home)]
    {
      currentPath, pathLabel, rows, sidebar, events := "", "", [], [], [];
      new;
      AddHomeShortcuts(home);
      AddMountedVolumes(mounts);
      SidebarAbsolute(home, mounts);
      currentPath := home;
      Refresh(fs);
    }

    /** The six `add_sidebar_item` calls of `main`: Home, then the five
        standard folders under it, in that order. */
    method AddHomeShortcuts(home: string)
      modifies this
      ensures sidebar == old(sidebar) + HomeShortcuts(home)
      ensures currentPath == old(currentPath) && pathLabel == old(pathLabel)
      ensures rows == old(rows) && events == old(events)
    {
      ghost var start, hs := sidebar, HomeShortcuts(home);
      AddSidebarItem("Home", home);
      assert sidebar == start + hs[..1];
      AddSidebarItem("Documents", BuildFilename(home, "Documents"));
      assert HomeFolders[0] == "Documents";
      GrowPrefix(start, hs, 1);
      AddSidebarItem("Downloads", BuildFilename(home, "Downloads"));
      assert HomeFolders[1] == "Downloads";
      GrowPrefix(start, hs, 2);
      AddSidebarItem("Pictures", BuildFilename(home, "Pictures"));
      assert HomeFolders[2] == "Pictures";
      GrowPrefix(start, hs, 3);
      AddSidebarItem("Music", BuildFilename(home, "Music"));
      assert HomeFolders[3] == "Music";
      GrowPrefix(start, hs, 4);
      AddSidebarItem("Videos", BuildFilename(home, "Videos"));
      assert HomeFolders[4] == "Videos";
      GrowPrefix(start, hs, 5);
      assert hs[..6] == hs;
    }

    /** `add_sidebar_item`: one row at the end of the sidebar, storing its
        own target path. */
    method AddSidebarItem(name: string, path: string)
      modifies this
      ensures sidebar == old(sidebar) + [Shortcut(name, path)]
      ensures currentPath == old(currentPath) && pathLabel == old(pathLabel)
      ensures rows == old(rows) && events == old(events)
    {
      sidebar := sidebar + [Shortcut(name, path)];
    }

    /** `add_mounted_volumes`: one sidebar row per kept mount record, in
        mount-table order. */
    method AddMountedVolumes(mounts: seq<string>)
      modifies this
      ensures sidebar == old(sidebar) + Volumes(mounts)
      ensures currentPath == old(currentPath) && pathLabel == old(pathLabel)
      ensures rows == old(rows) && events == old(events)
    {
      var k := 0;
      while k < |mounts|
        invariant 0 <= k <= |mounts|
        invariant sidebar == old(sidebar) + Volumes(mounts[..k])
        invariant currentPath == old(currentPath) && pathLabel == old(pathLabel)
        invariant rows == old(rows) && events == old(events)
      {
        var dir := mounts[k];
        if Kept(dir) {
          AddSidebarItem(VolumeLabel(dir), dir);
        }
        assert mounts[..k + 1][..k] == mounts[..k];
        k := k + 1;
      }
      assert mounts[..k] == mounts;
    }

    /** `update_file_list`: every existing row is destroyed, one row is
        appended per visible entry of the current directory (none when it
        cannot be opened), and the label shows the current path. */
    method Refresh(fs: FileSystem)
      requires Valid()
      modifies this
      ensures Valid()
      ensures rows == RowsFor(fs, currentPath) && pathLabel == currentPath
      ensures events == old(events) + [Refreshed(currentPath)]
      ensures currentPath == old(currentPath) && sidebar == old(sidebar)
    {
      var children := rows;
      var i := 0;
      while i < |children|
        invariant 0 <= i <= |children|
        invariant rows == children[i..]
        invariant currentPath == old(currentPath) && sidebar == old(sidebar) && events == old(events)
      {
        rows := rows[1..];
        i := i + 1;
      }
      var listing := fs.readDir(currentPath);
      if listing.Some? {
        var entries := listing.value;
        var k := 0;
        while k < |entries|
          invariant 0 <= k <= |entries|
          invariant rows == ListingOf(currentPath, entries[..k], fs.isDir)
          invariant currentPath == old(currentPath) && sidebar == old(sidebar) && events == old(events)
        {
          var name := entries[k];
          if name != "." {
            var kind := KindOf(fs.isDir(Join(currentPath, name)));
            rows := rows + [Row(name, kind)];
          }
          assert entries[..k + 1][..k] == entries[..k];
          k := k + 1;
        }
        assert entries[..k] == entries;
      }
      pathLabel := currentPath;
      events := events + [Refreshed(currentPath)];
    }

    /** `go_up_clicked`: the path is cut at its last `/` and listed, unless
        there is no `/` or the last one is the first character, in which case
        nothing at all happens. */
    method GoUp(fs: FileSystem)
      requires Valid()
      modifies this
      ensures Valid()
      ensures UpTarget(old(currentPath)).Some? ==>
        currentPath == UpTarget(old(currentPath)).value &&
        rows == RowsFor(fs, currentPath) && pathLabel == currentPath &&
        events == old(events) + [Refreshed(currentPath)]
      ensures UpTarget(old(currentPath)).None? ==>
        currentPath == old(currentPath) && rows == old(rows) &&
        pathLabel == old(pathLabel) && events == old(events)
      ensures sidebar == old(sidebar)
    {
      var lastSlash := LastIndexOf(currentPath, '/');
      if lastSlash.Some? && lastSlash.value != 0 {
        UpKeepsAbsolute(currentPath);
        currentPath := currentPath[..lastSlash.value];
        Refresh(fs);
      }
    }

    /** `row_activated` on row `index`: the row's name is joined to the
        current path; a directory becomes the current path and is listed,
        anything else is handed to the launcher and the state stays as it
        was. */
    method Activate(index: nat, fs: FileSystem)
      requires Valid() && index < |rows|
      modifies this
      ensures Valid()
      ensures var candidate := Join(old(currentPath), old(rows[index].name));
        if fs.isDir(candidate) then
          currentPath == candidate && rows == RowsFor(fs, candidate) &&
          pathLabel == candidate && events == old(events) + [Refreshed(candidate)]
        else
          currentPath == old(currentPath) && rows == old(rows) &&
          pathLabel == old(pathLabel) && events == old(events) + [OpenRequested(candidate)]
      ensures sidebar == old(sidebar)
    {
      var candidate := Join(currentPath, rows[index].name);
      JoinKeepsAbsolute(currentPath, rows[index].name);
      if fs.isDir(candidate) {
        currentPath := candidate;
        Refresh(fs);
      } else {
        events := events + [OpenRequested(candidate)];
      }
    }

    /** `sidebar_row_activated` on row `index`: the row's stored path becomes
        the current path, without any check, and is listed. */
    method Jump(index: nat, fs: FileSystem)
      requires Valid() && index < |sidebar|
      modifies this
      ensures Valid()
      ensures currentPath == old(sidebar[index].path)
      ensures rows == RowsFor(fs, currentPath) && pathLabel == currentPath
      ensures events == old(events) + [Refreshed(currentPath)]
      ensures sidebar == old(sidebar)
    {
      currentPath := sidebar[index].path;
      Refresh(fs);
    }
  }
}
