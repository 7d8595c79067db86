/**
 * Enumerating the photo library. On Android the library is a directory: its
 * listing is joined onto the directory path and only regular files are kept.
 * On iOS it is the list of photo assets, each of which must yield an image.
 */
module Library {
  import opened Wrappers

  /** Whether a name returned by a directory listing is relative, as `os.listdir` names always are. */
  predicate Relative(name: string)
  {
    name == [] || name[0] != '/'
  }

  /**
   * `os.path.join(dir, name)` for POSIX paths: an absolute name discards the
   * directory; a relative one is appended under it, with at most one added separator.
   */
  function JoinPath(dir: string, name: string): (r: string)
    ensures !Relative(name) ==> r == name
    ensures Relative(name) ==>
              dir <= r && |dir| + |name| <= |r| <= |dir| + 1 + |name| && r[|r| - |name|..] == name
    ensures Relative(name) ==> (|r| == |dir| + |name| <==> dir == [] || dir[|dir| - 1] == '/')
    ensures Relative(name) && |r| > |dir| + |name| ==> r[|dir|] == '/'
  {
    if name != [] && name[0] == '/' then name
    else if dir == [] || dir[|dir| - 1] == '/' then
      assert (dir + name)[..|dir|] == dir && (dir + name)[|dir|..] == name;
      dir + name
    else
      assert (dir + "/" + name)[..|dir|] == dir && (dir + "/" + name)[|dir| + 1..] == name;
      dir + "/" + name
  }

  /**
   * `[os.path.join(dir, f) for f in names if os.path.isfile(os.path.join(dir, f))]`,
   * where `files` is the set of paths that are regular files.
   */
  function LibraryPaths(dir: string, names: seq<string>, files: set<string>): (photos: seq<string>)
    ensures |photos| <= |names|
    ensures forall k | 0 <= k < |photos| :: photos[k] in files
  {
    if names == [] then []
    else
      var p := JoinPath(dir, names[0]);
      (if p in files then [p] else []) + LibraryPaths(dir, names[1..], files)
  }

  /** A path is listed exactly when it is a regular file named by some listed entry. */
  lemma {:induction false} LibraryPathsMembers(dir: string, names: seq<string>, files: set<string>, p: string)
    ensures p in LibraryPaths(dir, names, files)
            <==> p in files && exists k :: 0 <= k < |names| && p == JoinPath(dir, names[k])
    decreases |names|
  {
    if names != [] {
      LibraryPathsMembers(dir, names[1..], files, p);
      if exists k :: 0 <= k < |names| && p == JoinPath(dir, names[k]) {
        var k :| 0 <= k < |names| && p == JoinPath(dir, names[k]);
        if k > 0 {
          assert names[1..][k - 1] == names[k];
        }
      }
      forall k | 0 <= k < |names[1..]| && p == JoinPath(dir, names[1..][k])
        ensures 0 <= k + 1 < |names| && p == JoinPath(dir, names[k + 1])
      {
      }
    }
  }

  /** With relative names and a non-empty directory, every library path starts with the directory. */
  lemma LibraryPathsUnderDir(dir: string, names: seq<string>, files: set<string>)
    requires dir != []
    requires forall k | 0 <= k < |names| :: Relative(names[k])
    ensures forall i | 0 <= i < |LibraryPaths(dir, names, files)| :: dir <= LibraryPaths(dir, names, files)[i]
  {
    var photos := LibraryPaths(dir, names, files);
    forall i | 0 <= i < |photos| ensures dir <= photos[i] {
      var p := photos[i];
      LibraryPathsMembers(dir, names, files, p);
      var k :| 0 <= k < |names| && p == JoinPath(dir, names[k]);
    }
  }

  /**
   * Reading every item in order, as a loop that appends one result per item;
   * the first item whose read raises aborts the whole read.
   */
  function ReadAll<A, B>(items: seq<A>, read: A -> Option<B>): (r: Option<seq<B>>)
    ensures r.Some? ==> |r.value| == |items|
  {
    if items == [] then Some([])
    else match read(items[0])
      case None => None
      case Some(y) =>
        match ReadAll(items[1..], read)
        case None => None
        case Some(ys) => Some([y] + ys)
  }

  /** The read succeeds exactly when every item can be read, and then yields one result per item, in item order. */
  lemma {:induction false} ReadAllSpec<A, B>(items: seq<A>, read: A -> Option<B>)
    ensures ReadAll(items, read).Some? <==> forall i | 0 <= i < |items| :: read(items[i]).Some?
    ensures ReadAll(items, read).Some? ==>
              forall i | 0 <= i < |items| :: read(items[i]) == Some(ReadAll(items, read).value[i])
    decreases |items|
  {
    if items != [] {
      ReadAllSpec(items[1..], read);
      assert forall i | 1 <= i < |items| :: items[1..][i - 1] == items[i];
    }
  }
}
