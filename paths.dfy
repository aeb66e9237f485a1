/** Path arithmetic of the navigation engine (main.c): joining a directory
    and an entry name with `"%s/%s"`, the parent computed by the go-up button,
    and GLib's `g_build_filename` for the home shortcuts. */
module Paths {
  import opened CStrings

  /** An absolute path: non-empty and starting with the separator. */
  predicate IsAbsolute(p: string)
  {
    |p| > 0 && p[0] == '/'
  }

  /** `snprintf(buf, n, "%s/%s", dir, name)` without the buffer limit. */
  function Join(dir: string, name: string): (r: string)
    ensures |r| == |dir| + 1 + |name|
    ensures r[..|dir|] == dir && r[|dir|] == '/' && r[|dir| + 1..] == name
  {
    dir + "/" + name
  }

  /** Where the go-up button leads: the prefix before the last `/`, provided
      that `/` exists and is not the first character; otherwise `None`, and
      the button does nothing. */
  function UpTarget(path: string): (r: Option<string>)
    ensures r.Some? <==> exists i :: 0 < i < |path| && path[i] == '/'
    ensures r.Some? ==>
      0 < |r.value| < |path| && r.value == path[..|r.value|] &&
      path[|r.value|] == '/' && '/' !in path[|r.value| + 1..]
  {
    match LastIndexOf(path, '/')
    case Some(i) =>
      if i > 0 then Some(path[..i])
      else
        assert forall j :: 0 < j < |path| ==> path[j] != '/' by {
          forall j | 0 < j < |path| ensures path[j] != '/' {
            assert path[j] == path[1..][j - 1];
          }
        }
        None
    case None => None
  }

  /** `g_build_filename(dir, name, NULL)` for one directory and one
      non-empty name that does not start with a separator: the two are joined
      with exactly one separator at the join. */
  function BuildFilename(dir: string, name: string): (r: string)
    requires name != [] && name[0] != '/'
    ensures dir == [] ==> r == name
    ensures dir != [] ==> |r| > |name| && r[|r| - |name| - 1] == '/' && r[|r| - |name|..] == name
    ensures dir != [] ==> r[..|r| - |name|] == (if dir[|dir| - 1] == '/' then dir else dir + "/")
    ensures IsAbsolute(dir) ==> IsAbsolute(r)
  {
    if dir == [] then name
    else if dir[|dir| - 1] == '/' then dir + name
    else Join(dir, name)
  }

  /** Going up after entering `name` from `dir` comes back to `dir`: a name
      read from a directory holds no separator, and a non-empty `dir` puts
      the last separator of the joined path after position 0. */
  lemma UpUndoesJoin(dir: string, name: string)
    requires |dir| > 0 && '/' !in name
    ensures UpTarget(Join(dir, name)) == Some(dir)
  {
    var p := Join(dir, name);
    assert 0 < |dir| < |p| && p[|dir|] == '/';
  }

  /** Entering a name keeps an absolute path absolute. */
  lemma JoinKeepsAbsolute(p: string, name: string)
    requires IsAbsolute(p)
    ensures IsAbsolute(Join(p, name))
  {
  }

  /** Going up keeps an absolute path absolute. */
  lemma UpKeepsAbsolute(p: string)
    requires IsAbsolute(p) && UpTarget(p).Some?
    ensures IsAbsolute(UpTarget(p).value)
  {
  }

  /** The go-up cases: `/` and `/home` stay put, `/home/alice` goes to
      `/home` and `//bin` goes to `/`. */
  lemma UpTargetCases()
    ensures UpTarget("/") == None
    ensures UpTarget("/home") == None
    ensures UpTarget("/home/alice") == Some("/home")
    ensures UpTarget("//bin") == Some("/")
  {
    var a := "/home/alice";
    assert a[5] == '/';
    assert a[..5] == "/home";
    var b := "//bin";
    assert b[1] == '/';
    assert b[..1] == "/";
  }
}
