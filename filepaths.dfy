/**
 * The parts of Go's `path/filepath` package that `Convert` uses to name its
 * output files, for '/'-separated paths: `Clean`, `Join`, `Dir`, `Base` and
 * `Ext`, each following its documented lexical rules.
 */
module FilePaths {
  import opened GoStrings

  // -----------------------------------------------------------------------
  // filepath.Clean

  /** What one path element does to the elements kept before it. */
  function Visit(stack: seq<string>, element: string, rooted: bool): seq<string> {
    if element == "" || element == "." then stack
    else if element == ".." then
      if stack != [] && stack[|stack| - 1] != ".." then stack[..|stack| - 1]
      else if rooted then stack
      else stack + [".."]
    else stack + [element]
  }

  /**
   * The elements left of a path once empty and `.` elements are dropped and
   * each `..` has removed the element before it (a rooted path drops a `..`
   * that has nothing to remove; another path keeps it).
   */
  function Resolve(elements: seq<string>, rooted: bool): (r: seq<string>)
    ensures forall i :: 0 <= i < |r| ==> |r[i]| > 0
    ensures (forall i :: 0 <= i < |elements| ==> '/' !in elements[i]) ==> forall i :: 0 <= i < |r| ==> '/' !in r[i]
  {
    if elements == [] then []
    else Visit(Resolve(elements[..|elements| - 1], rooted), elements[|elements| - 1], rooted)
  }

  /** An element that `Clean` keeps as it is: not empty, not `.` or `..`, no separator. */
  predicate IsNameElement(e: string) {
    e != "" && e != "." && e != ".." && '/' !in e
  }

  predicate IsRooted(path: string) {
    path != [] && path[0] == '/'
  }

  /** `filepath.Clean`: the shortest path naming the same file, by purely lexical rules. */
  function Clean(path: string): (r: string)
    ensures r != []
    ensures IsRooted(r) <==> IsRooted(path)
    ensures IsNameElement(path) ==> r == path
  {
    var rooted := IsRooted(path);
    var elements := Resolve(Split(path, '/'), rooted);
    assert IsNameElement(path) ==> elements == [path] by {
      if IsNameElement(path) {
        assert Split(path, '/') == [path];
        assert [path][..0] == [];
        assert Resolve([path], rooted) == Visit(Resolve([], rooted), path, rooted);
      }
    }
    if rooted then "/" + Join(elements, '/')
    else if elements == [] then "."
    else Join(elements, '/')
  }

  /**
   * What `Clean` puts before a last element that it keeps: the cleaned
   * elements before it, each followed by '/', after a leading '/' for a
   * rooted path.
   */
  function CleanParent(path: string): string {
    var rooted := IsRooted(path);
    var elements := Resolve(Split(path, '/'), rooted);
    (if rooted then "/" else "") + (if elements == [] then "" else Join(elements, '/') + "/")
  }

  /** A name element after a path survives cleaning as the last element. */
  lemma CleanKeepsName(parent: string, name: string)
    requires parent != [] && IsNameElement(name)
    ensures Clean(parent + "/" + name) == CleanParent(parent) + name
  {
    var path := parent + "/" + name;
    var rooted := IsRooted(parent);
    var kept := Resolve(Split(parent, '/'), rooted);
    ResolveWithName(parent, name);
    CleanOfElements(path, rooted, kept + [name]);
    CleanParentOfElements(parent, rooted, kept);
    JoinAfter(kept, name, if rooted then "/" else "");
  }

  /** The elements `Clean` keeps of `parent/name`: those of `parent`, then `name`. */
  lemma ResolveWithName(parent: string, name: string)
    requires parent != [] && IsNameElement(name)
    ensures IsRooted(parent + "/" + name) == IsRooted(parent)
    ensures var rooted := IsRooted(parent);
      Resolve(Split(parent + "/" + name, '/'), rooted) == Resolve(Split(parent, '/'), rooted) + [name]
  {
    assert (parent + "/" + name)[0] == parent[0];
    SplitSnoc(parent, name);
    ResolveSnoc(Split(parent, '/'), name, IsRooted(parent));
  }

  lemma JoinAfter(kept: seq<string>, name: string, lead: string)
    ensures lead + Join(kept + [name], '/') == lead + (if kept == [] then "" else Join(kept, '/') + "/") + name
  {
    if kept != [] {
      JoinSnoc(kept, name, '/');
    } else {
      assert kept + [name] == [name];
    }
  }

  lemma CleanParentOfElements(path: string, rooted: bool, elements: seq<string>)
    requires IsRooted(path) == rooted && Resolve(Split(path, '/'), rooted) == elements
    ensures CleanParent(path) == (if rooted then "/" else "") + (if elements == [] then "" else Join(elements, '/') + "/")
  {
  }

  /** How `Clean` assembles a path whose resolved elements are known and non-empty. */
  lemma CleanOfElements(path: string, rooted: bool, elements: seq<string>)
    requires IsRooted(path) == rooted && Resolve(Split(path, '/'), rooted) == elements && elements != []
    ensures Clean(path) == (if rooted then "/" else "") + Join(elements, '/')
  {
  }

  lemma SplitSnoc(parent: string, name: string)
    requires '/' !in name
    ensures Split(parent + "/" + name, '/') == Split(parent, '/') + [name]
  {
    assert parent + "/" + name == parent + ['/'] + name;
    SplitConcat(parent, name, '/');
  }

  lemma ResolveSnoc(elements: seq<string>, name: string, rooted: bool)
    requires IsNameElement(name)
    ensures Resolve(elements + [name], rooted) == Resolve(elements, rooted) + [name]
  {
    assert (elements + [name])[..|elements|] == elements;
  }

  // -----------------------------------------------------------------------
  // filepath.Join, Dir, Base, Ext

  /**
   * `filepath.Join(dir, name)`: the non-empty arguments joined by '/' and
   * cleaned; "" when both are empty.
   */
  function JoinPath(dir: string, name: string): (r: string)
    ensures dir != "" && IsNameElement(name) ==> r == CleanParent(dir) + name
    ensures dir == "" ==> r == (if name == "" then "" else Clean(name))
  {
    if dir != "" then
      if IsNameElement(name) then CleanKeepsName(dir, name); Clean(dir + "/" + name)
      else Clean(dir + "/" + name)
    else if name != "" then Clean(name)
    else ""
  }

  /** Everything up to and including the last '/' ("" when there is none). */
  function UpToLastSlash(path: string): (r: string)
    ensures r == [] || r[|r| - 1] == '/'
    ensures |r| <= |path|
  {
    if path == [] then []
    else if path[|path| - 1] == '/' then path
    else UpToLastSlash(path[..|path| - 1])
  }

  /** Everything after the last '/' (all of it when there is none). */
  function AfterLastSlash(path: string): (r: string)
    ensures '/' !in r
  {
    if path == [] || path[|path| - 1] == '/' then []
    else AfterLastSlash(path[..|path| - 1]) + [path[|path| - 1]]
  }

  /** A path is the part up to its last '/' followed by the part after it. */
  lemma {:induction false} LastSlashSplits(path: string)
    ensures UpToLastSlash(path) + AfterLastSlash(path) == path
  {
    if path != [] && path[|path| - 1] != '/' {
      var init := path[..|path| - 1];
      LastSlashSplits(init);
      assert path == init + [path[|path| - 1]];
    }
  }

  /** `filepath.Dir`: all but the last element, cleaned; "." when there is no '/'. */
  function Dir(path: string): (r: string)
    ensures r != []
    ensures '/' !in path ==> r == "."
  {
    if '/' !in path then NoSlashNoDir(path); Clean([])
    else Clean(UpToLastSlash(path))
  }

  lemma {:induction false} NoSlashNoDir(path: string)
    requires '/' !in path
    ensures UpToLastSlash(path) == []
  {
    if path != [] {
      NoSlashNoDir(path[..|path| - 1]);
    }
  }

  /** The directory of `parent/name` is the cleaned `parent`. */
  lemma DirOfJoin(parent: string, name: string)
    requires parent != [] && '/' !in name
    ensures Dir(parent + "/" + name) == Clean(parent)
  {
    assert '/' in parent + "/" + name by {
      assert (parent + "/" + name)[|parent|] == '/';
    }
    UpToLastSlashAppend(parent + "/", name);
    CleanTrailingSlash(parent);
  }

  /** A trailing '/' does not change what a path cleans to. */
  lemma CleanTrailingSlash(path: string)
    requires path != []
    ensures Clean(path + "/") == Clean(path)
  {
    assert path + "/" == path + ['/'] + [];
    SplitConcat(path, [], '/');
    assert Split([], '/') == [""];
    assert IsRooted(path + "/") == IsRooted(path);
    var elements := Split(path, '/');
    assert (elements + [""])[..|elements|] == elements;
  }

  /** Appending text without '/' after a path ending in '/' leaves its part up to the last '/'. */
  lemma {:induction false} UpToLastSlashAppend(front: string, name: string)
    requires front != [] && front[|front| - 1] == '/' && '/' !in name
    ensures UpToLastSlash(front + name) == front
  {
    if name != [] {
      var init := name[..|name| - 1];
      assert (front + name)[..|front + name| - 1] == front + init;
      UpToLastSlashAppend(front, init);
    } else {
      assert front + name == front;
    }
  }

  function TrimTrailingSlashes(path: string): (r: string)
    ensures r == [] || r[|r| - 1] != '/'
    ensures r <= path && forall i :: |r| <= i < |path| ==> path[i] == '/'
  {
    if path != [] && path[|path| - 1] == '/' then TrimTrailingSlashes(path[..|path| - 1]) else path
  }

  /**
   * `filepath.Base`: the last element after trailing slashes are removed;
   * "." for the empty path and "/" for a path of slashes only.
   */
  function Base(path: string): (r: string)
    ensures r != []
    ensures r == "/" || '/' !in r
    ensures TrimTrailingSlashes(path) != [] ==> UpToLastSlash(TrimTrailingSlashes(path)) + r == TrimTrailingSlashes(path)
    ensures path != [] && TrimTrailingSlashes(path) == [] ==> r == "/"
  {
    if path == [] then "."
    else
      var trimmed := TrimTrailingSlashes(path);
      if trimmed == [] then "/"
      else
        assert trimmed == trimmed[..|trimmed| - 1] + [trimmed[|trimmed| - 1]];
        LastSlashSplits(trimmed);
        AfterLastSlash(trimmed)
  }

  /**
   * `filepath.Ext`: the suffix of the last element that starts at its last
   * '.'; "" when that element has no '.'.
   */
  function Ext(path: string): (r: string)
    ensures r == [] || (r[0] == '.' && '/' !in r && '.' !in r[1..])
    ensures HasSuffix(path, r)
    ensures r == [] ==> '.' !in AfterLastSlash(path)
  {
    if path == [] || path[|path| - 1] == '/' then []
    else if path[|path| - 1] == '.' then [path[|path| - 1]]
    else
      var e := Ext(path[..|path| - 1]);
      if e == [] then
        assert AfterLastSlash(path) == AfterLastSlash(path[..|path| - 1]) + [path[|path| - 1]];
        []
      else
        assert (e + [path[|path| - 1]])[1..] == e[1..] + [path[|path| - 1]];
        e + [path[|path| - 1]]
  }
}
