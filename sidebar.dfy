/** Volume discovery and the sidebar's shortcuts (main.c `add_mounted_volumes`
    and the seeding in `main`). A mount record is reduced to its mount
    directory, the only field the browser reads. */
module Sidebar {
  import opened CStrings
  import opened Paths

  /** A sidebar row: the text shown and the path stored on the row. */
  datatype Shortcut = Shortcut(name: string, path: string)

  /** The substrings that mark a mount directory as a system mount. */
  const ReservedMarks: seq<string> := ["/dev", "/sys", "/proc", "/run"]

  /** The folders under the home directory that get a shortcut, in order. */
  const HomeFolders: seq<string> := ["Documents", "Downloads", "Pictures", "Music", "Videos"]

  /** A mount directory is offered as a volume when none of the reserved
      marks occurs in it at any position (a substring test, not a prefix
      test). */
  function Kept(dir: string): (b: bool)
    ensures b <==> forall k: nat, i: nat :: k < |ReservedMarks| ==> !OccursAt(dir, ReservedMarks[k], i)
  {
    var b := !Contains(dir, "/dev") && !Contains(dir, "/sys") &&
             !Contains(dir, "/proc") && !Contains(dir, "/run");
    NoReservedMark(dir, b);
    b
  }

  /** The four `strstr` tests together say that no reserved mark occurs. */
  lemma NoReservedMark(dir: string, b: bool)
    requires b <==> !Contains(dir, "/dev") && !Contains(dir, "/sys") &&
                    !Contains(dir, "/proc") && !Contains(dir, "/run")
    ensures b <==> forall k: nat, i: nat :: k < |ReservedMarks| ==> !OccursAt(dir, ReservedMarks[k], i)
  {
    if b {
      forall k: nat, i: nat | k < |ReservedMarks| ensures !OccursAt(dir, ReservedMarks[k], i) {
        assert k == 0 || k == 1 || k == 2 || k == 3;
      }
    } else {
      var k: nat := if Contains(dir, "/dev") then 0 else if Contains(dir, "/sys") then 1
                    else if Contains(dir, "/proc") then 2 else 3;
      assert Contains(dir, ReservedMarks[k]);
      var i: nat :| OccursAt(dir, ReservedMarks[k], i);
    }
  }

  /** A directory in which no `/` is followed by `d`, `s`, `p` or `r` holds
      no reserved mark. */
  lemma KeptWithoutMarkStart(dir: string)
    requires forall i :: 0 <= i < |dir| - 1 && dir[i] == '/' ==> dir[i + 1] !in "dspr"
    ensures Kept(dir)
  {
    forall k: nat, i: nat | k < |ReservedMarks| ensures !OccursAt(dir, ReservedMarks[k], i) {
      var m := ReservedMarks[k];
      assert |m| >= 4 && m[0] == '/' && m[1] in "dspr";
    }
  }

  /** The volume's label: the text after the last `/`, or the whole
      directory when it has no `/`. */
  function VolumeLabel(dir: string): (r: string)
    ensures '/' !in r
    ensures r == dir <==> '/' !in dir
    ensures '/' in dir ==> |r| < |dir| && dir[|dir| - |r| - 1] == '/' && dir[|dir| - |r|..] == r
  {
    match LastIndexOf(dir, '/')
    case Some(i) => dir[i + 1..]
    case None => dir
  }

  /** The shortcuts `add_mounted_volumes` appends for a mount table, one per
      kept record, in table order. */
  function Volumes(mounts: seq<string>): (r: seq<Shortcut>)
    ensures |r| <= |mounts|
    ensures forall k :: 0 <= k < |r| ==>
      r[k].path in mounts && Kept(r[k].path) && r[k].name == VolumeLabel(r[k].path)
  {
    if mounts == [] then []
    else
      var dir := mounts[|mounts| - 1];
      Volumes(mounts[..|mounts| - 1]) + (if Kept(dir) then [Shortcut(VolumeLabel(dir), dir)] else [])
  }

  /** The six home-based shortcuts added before the volumes. */
  function HomeShortcuts(home: string): (r: seq<Shortcut>)
    ensures |r| == 1 + |HomeFolders| && r[0] == Shortcut("Home", home)
    ensures forall k :: 0 <= k < |HomeFolders| ==>
      r[k + 1] == Shortcut(HomeFolders[k], BuildFilename(home, HomeFolders[k]))
    ensures IsAbsolute(home) ==> forall k :: 0 <= k < |r| ==> IsAbsolute(r[k].path)
  {
    [Shortcut("Home", home)] +
      seq(|HomeFolders|, k requires 0 <= k < |HomeFolders| =>
        Shortcut(HomeFolders[k], BuildFilename(home, HomeFolders[k])))
  }

  /** The discovered volumes of two consecutive parts of the mount table are
      the volumes of the first part followed by those of the second: survivors
      keep their relative order. */
  lemma {:induction false} VolumesAppend(a: seq<string>, b: seq<string>)
    ensures Volumes(a + b) == Volumes(a) + Volumes(b)
    decreases |b|
  {
    if b == [] {
      assert a + b == a;
    } else {
      var b' := b[..|b| - 1];
      assert (a + b)[..|a + b| - 1] == a + b';
      VolumesAppend(a, b');
    }
  }

  /** A shortcut is discovered exactly when its path is a kept record of the
      mount table and its label is that path's label. */
  lemma {:induction false} VolumesMembers(mounts: seq<string>, v: Shortcut)
    ensures v in Volumes(mounts) <==> v.path in mounts && Kept(v.path) && v.name == VolumeLabel(v.path)
    decreases |mounts|
  {
    if mounts != [] {
      var front := mounts[..|mounts| - 1];
      assert mounts == front + [mounts[|mounts| - 1]];
      VolumesMembers(front, v);
    }
  }

  /** Every record is either dropped or contributes exactly one shortcut. */
  lemma {:induction false} VolumesCount(mounts: seq<string>)
    ensures |Volumes(mounts)| <= |mounts|
    ensures |Volumes(mounts)| == |mounts| <==> forall i :: 0 <= i < |mounts| ==> Kept(mounts[i])
    decreases |mounts|
  {
    if mounts != [] {
      var front := mounts[..|mounts| - 1];
      VolumesCount(front);
      if !Kept(mounts[|mounts| - 1]) {
        assert |Volumes(mounts)| < |mounts|;
      } else if |Volumes(mounts)| == |mounts| {
        forall i | 0 <= i < |mounts| ensures Kept(mounts[i]) {
          if i < |front| {
            assert mounts[i] == front[i];
          }
        }
      }
    }
  }

  /** The mark must appear as a substring: `/media/usb-dev-backup` is kept,
      `/media/my/dev` and `/proc` are dropped. */
  lemma KeptCases()
    ensures Kept("/media/usb-dev-backup")
    ensures !Kept("/media/my/dev")
    ensures !Kept("/proc")
  {
    KeptWithoutMarkStart("/media/usb-dev-backup");
    DroppedByMark("/media/my/dev", 0, 9);
    DroppedByMark("/proc", 2, 0);
  }

  /** A directory holding a reserved mark at some position is dropped. */
  lemma DroppedByMark(dir: string, k: nat, i: nat)
    requires k < |ReservedMarks| && OccursAt(dir, ReservedMarks[k], i)
    ensures !Kept(dir)
  {
  }

  /** Labels: `""` for `/`, `efi` for `/boot/efi`, the whole text when there is
      no `/`. */
  lemma VolumeLabelCases()
    ensures VolumeLabel("/") == ""
    ensures VolumeLabel("/boot/efi") == "efi"
    ensures VolumeLabel("/media/usb") == "usb"
    ensures VolumeLabel("usb") == "usb"
  {
    assert VolumeLabel("/") == "" by {
      assert LastIndexOf("/", '/') == Some(0);
    }
    assert VolumeLabel("/boot/efi") == "efi" by {
      var d := "/boot/efi";
      assert d[5] == '/' && d[6..] == "efi";
      assert LastIndexOf(d, '/') == Some(5);
    }
    assert VolumeLabel("/media/usb") == "usb" by {
      var d := "/media/usb";
      assert d[6] == '/' && d[7..] == "usb";
      assert LastIndexOf(d, '/') == Some(6);
    }
  }

  /** The sidebar at start-up: six home-based shortcuts, Home first, then
      one row per kept mount record, each labelled by its last component. */
  lemma SidebarLayout(home: string, mounts: seq<string>)
    ensures var s := HomeShortcuts(home) + Volumes(mounts);
      |s| == 6 + |Volumes(mounts)| &&
      s[0] == Shortcut("Home", home) &&
      s[1].name == "Documents" && s[2].name == "Downloads" && s[3].name == "Pictures" &&
      s[4].name == "Music" && s[5].name == "Videos" &&
      forall k :: 6 <= k < |s| ==>
        s[k].path in mounts && Kept(s[k].path) && s[k].name == VolumeLabel(s[k].path)
  {
    var s := HomeShortcuts(home) + Volumes(mounts);
    forall k | 6 <= k < |s|
      ensures s[k].path in mounts && Kept(s[k].path) && s[k].name == VolumeLabel(s[k].path)
    {
      assert s[k] == Volumes(mounts)[k - 6];
      VolumesMembers(mounts, s[k]);
    }
  }

  /** Every start-up shortcut points at an absolute path when the home
      directory and every mount directory are absolute. */
  lemma SidebarAbsolute(home: string, mounts: seq<string>)
    requires IsAbsolute(home) && forall m :: m in mounts ==> IsAbsolute(m)
    ensures forall k :: 0 <= k < |HomeShortcuts(home) + Volumes(mounts)| ==>
      IsAbsolute((HomeShortcuts(home) + Volumes(mounts))[k].path)
  {
    var hs: seq<Shortcut>, vs: seq<Shortcut> := HomeShortcuts(home), Volumes(mounts);
    forall k | 0 <= k < |hs + vs| ensures IsAbsolute((hs + vs)[k].path) {
      if k >= |hs| {
        assert (hs + vs)[k] == vs[k - |hs|];
      }
    }
  }

  /** A four-record mount table whose third record is dropped. */
  lemma {:induction false} VolumesOfFour(a: string, b: string, c: string, d: string)
    requires Kept(a) && Kept(b) && !Kept(c) && Kept(d)
    ensures Volumes([a, b, c, d])
         == [Shortcut(VolumeLabel(a), a), Shortcut(VolumeLabel(b), b), Shortcut(VolumeLabel(d), d)]
  {
    assert Volumes([a]) == [Shortcut(VolumeLabel(a), a)] by { assert [a][..0] == []; }
    assert Volumes([a, b]) == Volumes([a]) + [Shortcut(VolumeLabel(b), b)] by { assert [a, b][..1] == [a]; }
    assert Volumes([a, b, c]) == Volumes([a, b]) by { assert [a, b, c][..2] == [a, b]; }
    assert Volumes([a, b, c, d]) == Volumes([a, b, c]) + [Shortcut(VolumeLabel(d), d)] by {
      assert [a, b, c, d][..3] == [a, b, c];
    }
  }

  /** A typical mount table: `/proc` is dropped, the others stay in order,
      and the root file system is labelled with the empty string. */
  lemma VolumesOfTypicalTable()
    ensures Volumes(["/", "/boot/efi", "/proc", "/media/usb"])
         == [Shortcut("", "/"), Shortcut("efi", "/boot/efi"), Shortcut("usb", "/media/usb")]
  {
    assert Kept("/") by { KeptWithoutMarkStart("/"); }
    assert Kept("/boot/efi") by { KeptWithoutMarkStart("/boot/efi"); }
    assert !Kept("/proc") by { DroppedByMark("/proc", 2, 0); }
    assert Kept("/media/usb") by { KeptWithoutMarkStart("/media/usb"); }
    VolumeLabelCases();
    VolumesOfFour("/", "/boot/efi", "/proc", "/media/usb");
  }
}
