# file_explorer navigation engine, in Dafny

A model of the logic inside the GTK file browser `main.c`: the current-path
state, the file-list refresh, the three navigation intents (activate a row, go
up, jump to a sidebar shortcut), the mount-table filter that discovers volumes,
and the sidebar seeding at start-up. Widgets are reduced to what they record:
a file-list row is a name and a kind, a sidebar row is a label and the path
stored on it, and the path label is its text.

The file system is an input. `Listing.FileSystem` holds two oracles:
`readDir(p)` is what `opendir`/`readdir` yield for `p` (`None` when `opendir`
fails) and `isDir(p)` is `S_ISDIR` of what `stat(p)` reports. The mount table
is an input too, reduced to the sequence of mount directories, the only field
the program reads. The home directory is a parameter of the constructor.

Modules:

- `CStrings` (`cstrings.dfy`): `strrchr` as `LastIndexOf` and `strstr` as `Contains`.
- `Paths` (`paths.dfy`): the `"%s/%s"` join, the go-up target, `g_build_filename`.
- `Sidebar` (`sidebar.dfy`): the mount filter `Kept`, the label `VolumeLabel`,
  the discovered `Volumes` and the six `HomeShortcuts`.
- `Listing` (`listing.dfy`): the rows one refresh produces (`ListingOf`, `RowsFor`).
- `Explorer` (`explorer.dfy`): the class `Browser`. Its fields are the
  current path, the label, the file-list rows, the sidebar rows and a log of
  `Event`s. An event is a refresh of a path or an open request for a path.
- `Scenarios` (`scenarios.dfy`): client methods that drive a `Browser` using
  only the methods' contracts.

Behaviour of the program a reader might not expect:

- Going up from `/home` does nothing. The last `/` is the first character, so
  the button never reaches `/` from a top-level directory.
- The volume label of the root mount `/` is the empty string, the text after
  the last `/`.
- A mount directory is dropped when a reserved mark occurs anywhere in it, not
  only as a prefix. `/media/my/dev` is dropped and `/media/usb-dev-backup` is kept.
- An unreadable directory shows an empty list. No failure is reported, and the
  label still shows the new path.

## Model

| member | source | states |
|---|---|---|
| `CStrings.LastIndexOf` | main.c:143 | `None` exactly when the character does not occur; otherwise an in-range index holding it, with no occurrence after it |
| `CStrings.Contains` | main.c:50-53 | true iff the needle occurs at some position of the haystack; the empty needle always occurs, a needle longer than the haystack never does |
| `Paths.Join` | main.c:129 | the candidate path is the directory, one `/`, then the name, with both parts recoverable by slicing |
| `Paths.UpTarget` | main.c:142-148 | a parent exists iff some `/` sits at an index above 0; the parent is then a non-empty proper prefix that ends just before a `/` and after which no `/` follows |
| `Paths.UpTargetCases` | main.c:143-147 | `/` and `/home` have no parent, `/home/alice` goes to `/home`, `//bin` goes to `/` |
| `Paths.UpUndoesJoin` | main.c:129-147 | going up after entering a separator-free name from a non-empty directory returns to that directory |
| `Paths.JoinKeepsAbsolute` | main.c:129 | joining a name to a path that starts with `/` gives a path that starts with `/` |
| `Paths.UpKeepsAbsolute` | main.c:142-147 | the parent of a path that starts with `/`, when it exists, starts with `/` |
| `Paths.BuildFilename` | main.c:194-198 | for a non-empty name without a leading `/`: an empty directory yields the name alone; otherwise the result is the directory, exactly one `/` at the join (the directory's own trailing `/` when it has one, else an added one), then the name; an absolute directory gives an absolute result |
| `Sidebar.Kept` | main.c:50-53 | a mount directory is kept iff none of `/dev`, `/sys`, `/proc`, `/run` occurs in it at any position |
| `Sidebar.KeptCases` | main.c:50-53 | `/media/usb-dev-backup` is kept; `/media/my/dev` and `/proc` are dropped |
| `Sidebar.VolumeLabel` | main.c:55-60 | the label holds no `/`; it equals the directory iff the directory has no `/`; otherwise it is the suffix after a `/` at the end of the directory |
| `Sidebar.VolumeLabelCases` | main.c:55-60 | `/` is labelled `""`, `/boot/efi` is labelled `efi`, a directory without `/` is labelled by itself |
| `Sidebar.Volumes` | main.c:49-64 | at most one shortcut per mount record, and every shortcut's path is a mount directory that is kept, labelled by its last component |
| `Sidebar.VolumesAppend` | main.c:49-64 | the volumes of two consecutive parts of the mount table are the first part's volumes followed by the second's, so survivors keep table order |
| `Sidebar.VolumesMembers` | main.c:49-62 | a shortcut is discovered iff its path is a mount directory that is kept and its label is that directory's label |
| `Sidebar.VolumesCount` | main.c:49-64 | at most one shortcut per record, and one for every record iff every record is kept |
| `Sidebar.VolumesOfFour` | main.c:49-64 | in a four-record table whose third record is dropped, the other three appear in order with their labels |
| `Sidebar.VolumesOfTypicalTable` | main.c:49-64 | the table `/`, `/boot/efi`, `/proc`, `/media/usb` yields `("", /)`, `(efi, /boot/efi)`, `(usb, /media/usb)` |
| `Sidebar.HomeShortcuts` | main.c:193-198 | six shortcuts: Home pointing at the home directory, then Documents, Downloads, Pictures, Music, Videos, each pointing at that folder under home; all six paths are absolute when home is |
| `Sidebar.SidebarLayout` | main.c:193-200 | the start-up sidebar is the six home shortcuts in order, then only kept mount directories, each labelled by its last component |
| `Sidebar.SidebarAbsolute` | main.c:193-200 | when home and every mount directory are absolute, every start-up sidebar row stores an absolute path |
| `Listing.KindOf` | main.c:103 | a row gets the folder kind iff `S_ISDIR` holds |
| `Listing.VisibleNames` | main.c:88 | no more names than enumerated; every shown name was enumerated and is not `.` |
| `Listing.ListingOf` | main.c:87-113 | at most one row per enumerated name; every row carries an enumerated name other than `.`, and is a directory row iff `stat` of the directory joined with that name reports a directory |
| `Listing.RowsFor` | main.c:84-85 | no rows when the directory cannot be opened; otherwise every row carries an enumerated name other than `.`, classified by `stat` of its joined path |
| `Listing.VisibleNamesMembers` | main.c:87-88 | a name gets a row iff it was enumerated and is not exactly `.`, so `..` and dot-files are shown |
| `Listing.VisibleNamesCount` | main.c:87-88 | the shown names are the enumerated names as a multiset, with every `.` removed and nothing else |
| `Listing.VisibleNamesAppend` | main.c:87-114 | filtering keeps the enumeration order |
| `Listing.ListingRows` | main.c:87-113 | one row per shown name, in order, carrying that name; a row is a directory row iff `stat` of the directory joined with the name reports a directory |
| `Listing.ListingOfScenario` | main.c:84-114 | enumerating `.`, `..`, `a.txt`, `sub` in `/home/alice` shows `..` and `sub` as directories and `a.txt` as a file |
| `Explorer.Browser.constructor` | main.c:193-224 | the sidebar is the home shortcuts then the discovered volumes; the home directory becomes the current path, is listed once and labelled; the invariant `Valid` (absolute current path, absolute sidebar paths) holds |
| `Explorer.Browser.AddHomeShortcuts` | main.c:193-198 | the sidebar grows by exactly the six home shortcuts, in order; nothing else changes |
| `Explorer.Browser.AddSidebarItem` | main.c:24-43 | one row with its label and its own target path is appended to the sidebar; nothing else changes |
| `Explorer.Browser.AddMountedVolumes` | main.c:45-67 | the sidebar grows by exactly the discovered volumes of the mount table; nothing else changes |
| `Explorer.Browser.Refresh` | main.c:77-120 | the old rows are all gone, the rows are the listing of the current directory (empty when it cannot be opened), the label shows the current path, one refresh is logged, and the path and sidebar stay; `Valid` is kept |
| `Explorer.Browser.GoUp` | main.c:142-148 | with a parent, the path becomes the parent and is refreshed once; without one, path, rows, label and log all stay; `Valid` is kept |
| `Explorer.Browser.Activate` | main.c:122-140 | the candidate is the current path joined with the row's name; a directory candidate becomes the path and is refreshed once; otherwise the state stays and exactly one open request for the candidate is logged; `Valid` is kept |
| `Explorer.Browser.Jump` | main.c:69-75 | the path becomes the sidebar row's stored path with no check, and is refreshed once; `Valid` is kept, since every sidebar path is absolute |

## Left out

- GTK widget construction, icons, margins, CSS, the header bar, signal wiring and the main loop. They hold no logic. A row is modelled by its name and kind, a sidebar item by its label and path.
- `open_file`: converting to a URI and launching the default application are foreign GIO calls. They are modelled only as an `OpenRequested` event, and their failure is not modelled.
- The real `opendir`/`readdir`/`stat` and `setmntent`/`getmntent` calls. The directory contents, the `stat` results and the mount table are inputs, and a change of the file system between calls is a different `FileSystem` argument.
- A failed `stat`: the source ignores its result and then reads an uninitialised `st`, so it promises nothing. The `isDir` oracle is total, and nothing is said about which answer a failed `stat` gives.
- Buffer limits: `current_path` is 1024 bytes and the joined paths are 2048 bytes. `strncpy` may leave the path unterminated and `snprintf` truncates. Strings here are unbounded, and none of that undefined behaviour is modelled.
- NUL characters: C strings end at their first NUL, and the model's strings are assumed to hold none.
- `Paths.BuildFilename`: it requires a non-empty name that does not start with `/`, the only kind `main` passes; GLib also drops empty elements and collapses a leading separator of the name, which is not modelled.
- `Paths.BuildFilename`: GLib's `g_build_filename` also collapses repeated trailing separators of the directory. The model collapses only a single trailing `/`.
- The `if (path)` test in `sidebar_row_activated`: every sidebar row stores a non-NULL path, so the branch where it is NULL cannot be taken, and `Jump` takes a sidebar row index instead.
- `Explorer.Browser.constructor`: it requires the home directory and every mount directory to be absolute. `g_get_home_dir` can return a relative `HOME` and the mount table is not checked, so the invariant `Valid` rests on that assumption.
- `gtk_widget_show_all`, memory management (`g_free`, `g_strdup`, the leaked child list) and the `endmntent` call. They have no effect on the modelled state.
