/** Paths and their resolution. The walk of `parse_path` sees a volume only through its root and the
    listing of each cluster, so it is defined over a catalog of listings. */
module Paths {
  import opened Bytes
  import opened Text
  import opened Directory

  // ----- components -----

  /** The components of a path. */
  function Parts(path: Text): seq<Text> { NonEmpty(Split(path, SLASH)) }

  lemma PartsJoin(a: Text, b: Text)
    ensures Parts(a + [SLASH] + b) == Parts(a) + Parts(b)
  {
    SplitJoin(a, b, SLASH);
    NonEmptyJoin(Split(a, SLASH), Split(b, SLASH));
  }

  lemma PartsOfName(name: Text)
    requires SLASH !in name && name != []
    ensures Parts(name) == [name]
  {
    SplitWithout(name, SLASH);
    assert NonEmpty([name]) == [name];
  }

  lemma PartsEmpty()
    ensures Parts([]) == []
  {
    assert Split<u16>([], SLASH) == [[]];
    assert NonEmpty<u16>([[]]) == Keep<u16>([]) + NonEmpty<u16>([]);
  }

  lemma PartsSlash()
    ensures Parts([SLASH]) == []
  {
    PartsJoin([], []);
    PartsEmpty();
    assert [] + [SLASH] + [] == [SLASH];
  }

  /** A nonempty path that does not start with a slash has a component. */
  lemma RelativeHasParts(b: Text)
    requires b != [] && b[0] != SLASH
    ensures Parts(b) != []
  {
    var pieces := Split(b, SLASH);
    assert pieces == SplitStep(b[0], Split(b[1..], SLASH), SLASH);
    assert pieces[0] != [];
  }

  /** Index of the last slash, or -1. */
  function LastSlash(path: Text): (r: int)
    ensures -1 <= r < |path|
    ensures r >= 0 ==> path[r] == SLASH
    ensures forall k :: r < k < |path| ==> path[k] != SLASH
  {
    if path == [] then -1
    else if path[|path| - 1] == SLASH then |path| - 1
    else LastSlash(path[..|path| - 1])
  }

  function ParentPath(path: Text): Text {
    if LastSlash(path) < 0 then [] else path[..LastSlash(path)]
  }

  function FileName(path: Text): Text {
    path[LastSlash(path) + 1..]
  }

  /** The components of a path with a nonempty file name. */
  lemma PartsSplitLast(path: Text)
    requires FileName(path) != []
    ensures Parts(path) == Parts(ParentPath(path)) + [FileName(path)]
  {
    PartsOfName(FileName(path));
    if LastSlash(path) < 0 {
      assert FileName(path) == path;
      PartsEmpty();
    } else {
      assert path == ParentPath(path) + [SLASH] + FileName(path);
      PartsJoin(ParentPath(path), FileName(path));
    }
  }

  // ----- lookup -----

  function Find(files: seq<FileInfo>, name: Text): Option<FileInfo> {
    if files == [] then None
    else if files[0].name == name then Some(files[0])
    else Find(files[1..], name)
  }

  /** Index of the first entry of that name, or the number of entries. */
  function FindIndex(files: seq<FileInfo>, name: Text): (i: nat)
    ensures i <= |files|
    ensures i < |files| ==> files[i].name == name
    ensures forall j :: 0 <= j < i ==> files[j].name != name
  {
    if files == [] || files[0].name == name then 0 else 1 + FindIndex(files[1..], name)
  }

  lemma {:induction false} FindAtIndex(files: seq<FileInfo>, name: Text)
    ensures var i := FindIndex(files, name);
            Find(files, name) == if i < |files| then Some(files[i]) else None
  {
    if files != [] {
      FindAtIndex(files[1..], name);
    }
  }

  /** Changing one size changes what is found only if that entry is found. */
  lemma FindResized(files: seq<FileInfo>, name: Text, k: nat, size: u32)
    requires k < |files|
    ensures Find(files[k := files[k].(size := size)], name)
         == if FindIndex(files, name) == k then Some(files[k].(size := size)) else Find(files, name)
  {
    var now := files[k := files[k].(size := size)];
    FindAtIndex(files, name);
    FindAtIndex(now, name);
    var i := FindIndex(now, name);
    assert i < |now| ==> files[i].name == name;
    assert forall j :: 0 <= j < i ==> now[j].name != name && files[j].name != name;
  }

  lemma {:induction false} FindJoin(a: seq<FileInfo>, b: seq<FileInfo>, name: Text)
    ensures Find(a + b, name) == if Find(a, name).Some? then Find(a, name) else Find(b, name)
  {
    if a == [] {
      assert a + b == b;
    } else {
      assert (a + b)[1..] == a[1..] + b;
      FindJoin(a[1..], b, name);
    }
  }

  lemma FindSecond(files: seq<FileInfo>, name: Text)
    requires |files| >= 2 && files[0].name != name && files[1].name == name
    ensures Find(files, name) == Some(files[1])
  {
    assert files[1..][0] == files[1];
  }

  /** What path resolution sees of a volume. */
  datatype Catalog = Catalog(root: u32, list: nat -> seq<FileInfo>)

  /** `find_parent_cluster`. */
  function ParentCluster(k: Catalog, c: nat): Option<u32> {
    if c == k.root then None
    else match Find(k.list(c), DOT_DOT_NAME)
      case None => None
      case Some(f) => Some(if f.startCluster == 0 then k.root else f.startCluster)
  }

  /** The loop of `parse_path` over the remaining components. */
  function Resolve(k: Catalog, c: nat, parts: seq<Text>): Option<FileInfo>
    decreases |parts|
  {
    if parts == [] then None
    else if parts[0] == DOT_NAME then Resolve(k, c, parts[1..])
    else if parts[0] == DOT_DOT_NAME then
      match ParentCluster(k, c)
      case None => None
      case Some(p) =>
        if |parts| == 1 then Some(FileInfo(DOT_DOT_NAME, true, 0, p)) else Resolve(k, p, parts[1..])
    else
      match Find(k.list(c), parts[0])
      case None => None
      case Some(f) =>
        if |parts| == 1 then Some(f)
        else if !f.isDirectory then None
        else Resolve(k, f.startCluster, parts[1..])
  }

  /** Where `parse_path` starts. */
  function StartOf(k: Catalog, path: Text, current: Option<u32>): u32 {
    if path == [] || path[0] == SLASH then k.root
    else if current.Some? then current.value else k.root
  }

  /** `parse_path`. */
  function ParsePath(k: Catalog, path: Text, current: Option<u32>): Option<FileInfo> {
    Resolve(k, StartOf(k, path, current), Parts(path))
  }

  /** The directory `create_file` and `mkdir` put a new entry in. */
  function TargetDir(k: Catalog, parentPath: Text): Option<u32> {
    if parentPath == [] || parentPath == [SLASH] then Some(k.root)
    else match ParsePath(k, parentPath, None)
      case None => None
      case Some(f) => Some(f.startCluster)
  }

  /** The directory `update_file_size` looks in: the root if the parent path does not resolve. */
  function SizeDir(k: Catalog, path: Text): u32 {
    match TargetDir(k, ParentPath(path))
    case None => k.root
    case Some(dir) => dir
  }

  // ----- the walk, one component at a time -----

  /** The directory one component leads to, if it leads to one. */
  function Enter(k: Catalog, c: nat, part: Text): Option<nat> {
    if part == DOT_NAME then Some(c)
    else if part == DOT_DOT_NAME then ParentCluster(k, c)
    else match Find(k.list(c), part)
      case None => None
      case Some(f) => if f.isDirectory then Some(f.startCluster) else None
  }

  lemma ResolveStep(k: Catalog, c: nat, parts: seq<Text>)
    requires |parts| > 1
    ensures Resolve(k, c, parts) == match Enter(k, c, parts[0])
                                    case None => None
                                    case Some(d) => Resolve(k, d, parts[1..])
  {
  }

  /** Resolving `a` to a directory and `b` from there is resolving `a` followed by `b`. */
  lemma {:induction false} ResolveJoin(k: Catalog, c: nat, a: seq<Text>, b: seq<Text>)
    requires Resolve(k, c, a).Some? && Resolve(k, c, a).value.isDirectory && b != []
    ensures Resolve(k, c, a + b) == Resolve(k, Resolve(k, c, a).value.startCluster, b)
    decreases |a|
  {
    var rest := a[1..];
    assert (a + b)[0] == a[0] && (a + b)[1..] == rest + b;
    ResolveStep(k, c, a + b);
    if |a| > 1 {
      ResolveStep(k, c, a);
      ResolveJoin(k, Enter(k, c, a[0]).value, rest, b);
    } else {
      assert rest + b == b;
    }
  }

  /** Path resolution composes: resolving `a/b` is resolving `b` from where `a` leads. */
  lemma ParseJoin(k: Catalog, a: Text, b: Text, current: Option<u32>)
    requires b != [] && b[0] != SLASH
    requires ParsePath(k, a, current).Some? && ParsePath(k, a, current).value.isDirectory
    ensures ParsePath(k, a + [SLASH] + b, current) == ParsePath(k, b, Some(ParsePath(k, a, current).value.startCluster))
  {
    var path := a + [SLASH] + b;
    PartsEmpty();
    assert path[0] == a[0];
    PartsJoin(a, b);
    RelativeHasParts(b);
    ResolveJoin(k, StartOf(k, a, current), Parts(a), Parts(b));
  }

  /** Where an absolute path leads does not depend on the current directory. */
  lemma AbsolutePath(k: Catalog, path: Text, current: Option<u32>, other: Option<u32>)
    requires path != [] && path[0] == SLASH
    ensures ParsePath(k, path, current) == ParsePath(k, path, other)
  {
  }

  /** An absolute path is the path behind its slash, taken from the root; so is a path without a current
      directory. */
  lemma FromRoot(k: Catalog, b: Text, current: Option<u32>)
    requires b != [] && b[0] != SLASH
    ensures ParsePath(k, [SLASH] + b, current) == ParsePath(k, b, Some(k.root))
    ensures ParsePath(k, b, None) == ParsePath(k, b, Some(k.root))
  {
    PartsJoin([], b);
    PartsEmpty();
    var path := [SLASH] + b;
    assert [] + [SLASH] + b == path && path[0] == SLASH;
    assert Parts(path) == [] + Parts(b) == Parts(b);
  }

  /** Where the walk stands when it reaches the last component. */
  function LastDir(k: Catalog, c: nat, parts: seq<Text>): Option<nat>
    decreases |parts|
  {
    if parts == [] then None
    else if |parts| == 1 then Some(c)
    else match Enter(k, c, parts[0])
      case None => None
      case Some(d) => LastDir(k, d, parts[1..])
  }

  function Last<T>(s: seq<T>): T
    requires s != []
  {
    s[|s| - 1]
  }

  predicate IsName(part: Text) { part != DOT_NAME && part != DOT_DOT_NAME }

  /** Resolving is walking to the last directory and resolving the last component there. */
  lemma {:induction false} ResolveLast(k: Catalog, c: nat, parts: seq<Text>)
    requires parts != []
    ensures Resolve(k, c, parts) == match LastDir(k, c, parts)
                                    case None => None
                                    case Some(d) => Resolve(k, d, [Last(parts)])
    decreases |parts|
  {
    if |parts| > 1 {
      ResolveStep(k, c, parts);
      if Enter(k, c, parts[0]).Some? {
        ResolveLast(k, Enter(k, c, parts[0]).value, parts[1..]);
      }
    } else {
      assert parts == [Last(parts)];
    }
  }

  /** Resolving is walking to the last directory and looking up the last component there. */
  lemma ResolveIsLookup(k: Catalog, c: nat, parts: seq<Text>)
    requires parts != [] && IsName(Last(parts))
    ensures Resolve(k, c, parts) == match LastDir(k, c, parts)
                                    case None => None
                                    case Some(d) => Find(k.list(d), Last(parts))
  {
    ResolveLast(k, c, parts);
  }

  /** A path that leads to a file does not end in a dot component. */
  lemma {:induction false} FileHasName(k: Catalog, c: nat, parts: seq<Text>)
    requires Resolve(k, c, parts).Some? && !Resolve(k, c, parts).value.isDirectory
    ensures parts != [] && IsName(Last(parts))
    decreases |parts|
  {
    if |parts| > 1 {
      ResolveStep(k, c, parts);
      FileHasName(k, Enter(k, c, parts[0]).value, parts[1..]);
    }
  }

  // ----- the directory whose entry gets the new size -----

  /** The walk over `a` when one more component follows: it leads where resolving `a` leads, unless
      `a` ends in `.`, which resolves to nothing. */
  lemma {:induction false} PrefixResolves(k: Catalog, c: nat, a: seq<Text>, x: Text)
    requires a != [] && LastDir(k, c, a + [x]).Some?
    ensures Last(a) == DOT_NAME ==> Resolve(k, c, a).None?
    ensures Last(a) != DOT_NAME ==>
              && Resolve(k, c, a).Some? && Resolve(k, c, a).value.isDirectory
              && LastDir(k, c, a + [x]) == Some(Resolve(k, c, a).value.startCluster)
    decreases |a|
  {
    var rest := a[1..];
    var ax := a + [x];
    assert ax[0] == a[0] && ax[1..] == rest + [x];
    if |a| > 1 {
      ResolveStep(k, c, a);
      PrefixResolves(k, Enter(k, c, a[0]).value, rest, x);
    } else {
      assert rest + [x] == [x];
    }
  }

  /** `update_file_size` resolves the parent path from the root, and falls back to the root. */
  lemma SizeDirResolves(k: Catalog, path: Text)
    ensures var r := Resolve(k, k.root, Parts(ParentPath(path)));
            SizeDir(k, path) == if r.Some? then r.value.startCluster else k.root
  {
    PartsEmpty();
    PartsSlash();
  }

  /** Whether the directory in which the size is updated is the one in which the file was found:
      exactly when the parent path does not end in `.`, or the file is in the root. */
  lemma SizeDirIff(k: Catalog, path: Text)
    requires FileName(path) != [] && LastDir(k, k.root, Parts(path)).Some?
    ensures var a := Parts(ParentPath(path));
            SizeDir(k, path) == LastDir(k, k.root, Parts(path)).value
            <==> a == [] || Last(a) != DOT_NAME || LastDir(k, k.root, Parts(path)) == Some(k.root)
  {
    PartsSplitLast(path);
    SizeDirResolves(k, path);
    var a := Parts(ParentPath(path));
    if a == [] {
      assert a + [FileName(path)] == [FileName(path)];
    } else {
      PrefixResolves(k, k.root, a, FileName(path));
    }
  }

  lemma SizeDirIsLastDirOrRoot(k: Catalog, path: Text)
    requires FileName(path) != [] && LastDir(k, k.root, Parts(path)).Some?
    ensures SizeDir(k, path) == k.root || SizeDir(k, path) == LastDir(k, k.root, Parts(path)).value
  {
    PartsSplitLast(path);
    SizeDirResolves(k, path);
    var a := Parts(ParentPath(path));
    if a != [] {
      PrefixResolves(k, k.root, a, FileName(path));
    }
  }

  function DotPath(d: Text, f: Text): Text { (d + [SLASH] + DOT_NAME) + [SLASH] + f }

  lemma DotParts(d: Text, f: Text)
    requires SLASH !in d && SLASH !in f && d != [] && f != []
    ensures Parts(DotPath(d, f)) == [d, DOT_NAME, f] && Parts(ParentPath(DotPath(d, f))) == [d, DOT_NAME]
    ensures DotPath(d, f)[0] == d[0]
  {
    PartsOfName(d);
    PartsOfName(DOT_NAME);
    PartsOfName(f);
    PartsJoin(d, DOT_NAME);
    PartsJoin(d + [SLASH] + DOT_NAME, f);
    SplitAppended(d + [SLASH] + DOT_NAME, f);
  }

  lemma DotWalk(k: Catalog, c: nat, d: Text, f: Text)
    requires IsName(d) && IsName(f) && Find(k.list(c), d).Some? && Find(k.list(c), d).value.isDirectory
    ensures Resolve(k, c, [d, DOT_NAME]).None?
    ensures var e := Find(k.list(c), d).value.startCluster;
            Resolve(k, c, [d, DOT_NAME, f]) == Find(k.list(e), f) && LastDir(k, c, [d, DOT_NAME, f]) == Some(e)
  {
    var e := Find(k.list(c), d).value.startCluster;
    assert [d, DOT_NAME][1..] == [DOT_NAME] && [DOT_NAME][1..] == [];
    assert Resolve(k, e, [DOT_NAME]).None?;
    assert [d, DOT_NAME, f][1..] == [DOT_NAME, f] && [DOT_NAME, f][1..] == [f];
    assert Enter(k, e, DOT_NAME) == Some(e);
    assert LastDir(k, e, [DOT_NAME, f]) == Some(e);
    ResolveIsLookup(k, c, [d, DOT_NAME, f]);
  }

  /** For a path `d/./f` into a directory `d` below the root, the file is looked up in `d`, but its size
      is updated in the root. */
  lemma DotMisdirects(k: Catalog, d: Text, f: Text)
    requires SLASH !in d && SLASH !in f && d != [] && f != [] && IsName(d) && IsName(f)
    requires Find(k.list(k.root), d).Some? && Find(k.list(k.root), d).value.isDirectory
    ensures var path, c := DotPath(d, f), Find(k.list(k.root), d).value.startCluster;
            && ParsePath(k, path, None) == Find(k.list(c), f)
            && LastDir(k, k.root, Parts(path)) == Some(c) && SizeDir(k, path) == k.root
  {
    DotParts(d, f);
    DotWalk(k, k.root, d, f);
    SizeDirResolves(k, DotPath(d, f));
  }

  /** The path leads to a file, but the size of another directory's entry is updated. */
  ghost predicate Misdirected(k: Catalog, path: Text) {
    && ParsePath(k, path, None).Some? && !ParsePath(k, path, None).value.isDirectory
    && LastDir(k, k.root, Parts(path)).Some? && SizeDir(k, path) != LastDir(k, k.root, Parts(path)).value
  }

  // ----- walks inside a set of directories -----

  /** The walk never leaves the directories `dirs`. */
  ghost predicate Closed(k: Catalog, dirs: set<nat>) {
    forall c, part :: c in dirs && Enter(k, c, part).Some? ==> Enter(k, c, part).value in dirs
  }

  lemma {:induction false} LastDirInside(k: Catalog, dirs: set<nat>, c: nat, parts: seq<Text>)
    requires Closed(k, dirs) && c in dirs && LastDir(k, c, parts).Some?
    ensures LastDir(k, c, parts).value in dirs
    decreases |parts|
  {
    if |parts| > 1 {
      LastDirInside(k, dirs, Enter(k, c, parts[0]).value, parts[1..]);
    }
  }

  lemma {:induction false} ResolvedInside(k: Catalog, dirs: set<nat>, c: nat, parts: seq<Text>)
    requires Closed(k, dirs) && c in dirs
    requires Resolve(k, c, parts).Some? && Resolve(k, c, parts).value.isDirectory
    ensures Resolve(k, c, parts).value.startCluster in dirs
    decreases |parts|
  {
    if |parts| > 1 {
      ResolveStep(k, c, parts);
      ResolvedInside(k, dirs, Enter(k, c, parts[0]).value, parts[1..]);
    } else {
      assert Enter(k, c, parts[0]) == Some(Resolve(k, c, parts).value.startCluster);
    }
  }

  /** Entries that differ at most in their size. */
  predicate SameEntry(f: FileInfo, g: FileInfo) {
    g == f.(size := g.size)
  }

  predicate SameEntries(a: seq<FileInfo>, b: seq<FileInfo>) {
    |a| == |b| && forall i :: 0 <= i < |a| ==> SameEntry(a[i], b[i])
  }

  lemma {:induction false} FindSame(a: seq<FileInfo>, b: seq<FileInfo>, name: Text)
    requires SameEntries(a, b)
    ensures Find(a, name).Some? <==> Find(b, name).Some?
    ensures Find(a, name).Some? ==> SameEntry(Find(a, name).value, Find(b, name).value)
  {
    if a != [] {
      FindSame(a[1..], b[1..], name);
    }
  }

  /** Walks do not look at sizes. */
  lemma {:induction false} LastDirSame(k: Catalog, l: Catalog, dirs: set<nat>, c: nat, parts: seq<Text>)
    requires Closed(k, dirs) && c in dirs && l.root == k.root
    requires forall d :: d in dirs ==> SameEntries(k.list(d), l.list(d))
    ensures LastDir(l, c, parts) == LastDir(k, c, parts)
    decreases |parts|
  {
    if |parts| > 1 {
      FindSame(k.list(c), l.list(c), parts[0]);
      FindSame(k.list(c), l.list(c), DOT_DOT_NAME);
      if Enter(k, c, parts[0]).Some? {
        LastDirSame(k, l, dirs, Enter(k, c, parts[0]).value, parts[1..]);
      }
    }
  }

  /** Walks through equal listings resolve equally. */
  lemma {:induction false} ResolveEqual(k: Catalog, l: Catalog, dirs: set<nat>, c: nat, parts: seq<Text>)
    requires Closed(k, dirs) && c in dirs && l.root == k.root
    requires forall d :: d in dirs ==> l.list(d) == k.list(d)
    ensures Resolve(l, c, parts) == Resolve(k, c, parts)
    decreases |parts|
  {
    if |parts| > 1 {
      ResolveStep(k, c, parts);
      ResolveStep(l, c, parts);
      if Enter(k, c, parts[0]).Some? {
        ResolveEqual(k, l, dirs, Enter(k, c, parts[0]).value, parts[1..]);
      }
    }
  }

  /** Walks that only meet listings in which every name found before is found again resolve equally. */
  lemma {:induction false} ResolveGrown(k: Catalog, l: Catalog, dirs: set<nat>, c: nat, parts: seq<Text>)
    requires Closed(k, dirs) && c in dirs && l.root == k.root
    requires forall d, name :: d in dirs && Find(k.list(d), name).Some? ==>
               Find(l.list(d), name) == Find(k.list(d), name)
    requires Resolve(k, c, parts).Some?
    ensures Resolve(l, c, parts) == Resolve(k, c, parts)
    decreases |parts|
  {
    if |parts| > 1 {
      ResolveStep(k, c, parts);
      ResolveStep(l, c, parts);
      ResolveGrown(k, l, dirs, Enter(k, c, parts[0]).value, parts[1..]);
    }
  }

  /** Walks along names that are found alike resolve equally. */
  lemma {:induction false} ResolveNamed(k: Catalog, l: Catalog, dirs: set<nat>, c: nat, parts: seq<Text>)
    requires Closed(k, dirs) && c in dirs && l.root == k.root
    requires forall d, name :: d in dirs && name in parts ==> Find(l.list(d), name) == Find(k.list(d), name)
    ensures Resolve(l, c, parts) == Resolve(k, c, parts)
    decreases |parts|
  {
    if parts != [] {
      assert parts[0] in parts;
      assert Find(l.list(c), parts[0]) == Find(k.list(c), parts[0]);
      if |parts| > 1 {
        ResolveStep(k, c, parts);
        ResolveStep(l, c, parts);
        assert forall name :: name in parts[1..] ==> name in parts;
        if Enter(k, c, parts[0]).Some? {
          ResolveNamed(k, l, dirs, Enter(k, c, parts[0]).value, parts[1..]);
        }
      }
    }
  }

  /** Splitting off a name that was appended after a slash. */
  lemma SplitAppended(a: Text, name: Text)
    requires SLASH !in name
    ensures ParentPath(a + [SLASH] + name) == a && FileName(a + [SLASH] + name) == name
  {
    var path := a + [SLASH] + name;
    assert path[|a|] == SLASH;
    assert forall i :: |a| < i < |path| ==> path[i] == name[i - |a| - 1] != SLASH;
    assert LastSlash(path) == |a|;
  }
}
