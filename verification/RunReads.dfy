/** What `read_file` returns after a run. */
module RunReads {
  import opened Arithmetic
  import opened Bytes
  import opened Text
  import opened ShortName
  import opened Directory
  import opened Paths
  import opened FatVolume
  import opened Tree
  import opened Resolution
  import opened Creation
  import opened Writing
  import opened ReadBack
  import opened Runs
  import opened Session

  /** A new entry is not listed under a component of the path. */
  predicate OffPath(name: Text, path: Text) {
    FormatTo83(name).Some? ==> Print(FormatTo83(name).value) !in Parts(path)
  }

  /** A write goes to another file, and the size it sets is that file's own. */
  predicate WritesElsewhere(v: Volume, path: Text, s: nat) {
    match ParsePath(View(v), path, None)
    case None => true
    case Some(g) => g.isDirectory || (g.startCluster != s && (Matches(v, path) ==> OwnSlot(v, path, g)))
  }

  /** The operation leaves alone what reading the file at `s` under that path depends on. */
  predicate Harmless(v: Volume, op: Op, path: Text, s: nat) {
    match op
    case Create(_, name) => OffPath(name, path)
    case MakeDir(_, name) => OffPath(name, path)
    case Write(q, _) => WritesElsewhere(v, q, s)
  }

  // ----- where the path leads -----

  lemma SameListsParse(v: Volume, t: Tree, w: Volume, path: Text)
    requires Holds(v, t) && w.root == v.root && forall d :: d in t.depth ==> List(w, d) == List(v, d)
    ensures ParsePath(View(w), path, None) == ParsePath(View(v), path, None)
  {
    TreeClosed(v, t);
    ResolveEqual(View(v), View(w), t.depth.Keys, v.root, Parts(path));
  }

  lemma FindOther(was: seq<FileInfo>, now: seq<FileInfo>, k: nat, f: FileInfo, name: Text)
    requires Inserted(was, now, k, f) && f.name != name
    ensures Find(now, name) == Find(was, name)
  {
    FindInserted(was, now, k, f, name);
    assert was == was[..k] + was[k..];
    FindJoin(was[..k], was[k..], name);
  }

  lemma AddedParsesSame(v: Volume, t: Tree, w: Volume, p: nat, k: nat, f: FileInfo, path: Text)
    requires Holds(v, t) && p in t.depth && w.root == v.root && Inserted(List(v, p), List(w, p), k, f)
    requires f.name !in Parts(path)
    requires forall d :: d in t.depth && d != p ==> List(w, d) == List(v, d)
    ensures ParsePath(View(w), path, None) == ParsePath(View(v), path, None)
  {
    TreeClosed(v, t);
    forall d, name | d in t.depth.Keys && name in Parts(path)
      ensures Find(View(w).list(d), name) == Find(View(v).list(d), name)
    {
      if d == p {
        FindOther(List(v, p), List(w, p), k, f, name);
      }
    }
    ResolveNamed(View(v), View(w), t.depth.Keys, v.root, Parts(path));
  }

  lemma EntryParses(v: Volume, t: Tree, w: Volume, name: Text, isDirectory: bool, path: Text)
    requires Holds(v, t) && Effect(v, t, w, name, isDirectory) && OffPath(name, path)
    ensures ParsePath(View(w), path, None) == ParsePath(View(v), path, None)
  {
    if Unharmed(v, t, w) || exists p :: p in t.depth && Unlisted(v, t, w, p) {
      SameListsParse(v, t, w, path);
    } else {
      var p, c: u32 :| p in t.depth && AddedIn(v, t, w, p, name, isDirectory, c);
      AddedParsesSame(v, t, w, p, InsertAt(v, p), FileInfo(Print(FormatTo83(name).value), isDirectory, 0, c), path);
    }
  }

  /** A write to another file, whose own size is set, leaves the path leading to the same entry. */
  lemma WrittenParses(v: Volume, t: Tree, w: Volume, path: Text, f: FileInfo, g: FileInfo, bytes: seq<byte>, dir: nat,
      j: nat)
    requires LeadsTo(v, path, f) && g.startCluster != f.startCluster
    requires Written(v, t, w, g.startCluster, bytes, dir, j) && SlotOf(Dir(v, dir), j, g)
    ensures ParsePath(View(w), path, None) == Some(f)
  {
    var n := Min(|bytes|, v.clusterSize);
    var d, i := WriteTarget(v, t, path, f);
    TreeClosed(v, t);
    WalkAfterResize(v, t.depth.Keys, w, dir, j, n, Parts(path));
    ResolveIsLookup(View(w), v.root, Parts(path));
    FindAfterWrite(v, t, w, dir, j, n, d, i, Last(Parts(path)));
  }

  lemma WriteParses(v: Volume, t: Tree, q: Text, bytes: seq<byte>, path: Text, f: FileInfo)
    requires Holds(v, t) && CanWrite(v, q) && LeadsTo(v, path, f) && WritesElsewhere(v, q, f.startCluster)
    ensures ParsePath(View(WriteFile(v, q, bytes).after), path, None) == Some(f)
  {
    var r := ParsePath(View(v), q, None);
    if r.Some? && !r.value.isDirectory {
      var g := r.value;
      WriteShape(v, t, q, g, bytes);
      if Matches(v, q) {
        WriteGives(v, t, q, g, bytes);
        WrittenParses(v, t, WriteTo(v, q, g, bytes).after, path, f, g, bytes, SizeDir(View(v), q), SizeSlot(v, q));
      } else {
        StoredParses(v, t, q, g, bytes, path);
      }
    }
  }

  lemma StoredParses(v: Volume, t: Tree, q: Text, g: FileInfo, bytes: seq<byte>, path: Text)
    requires Holds(v, t) && LeadsTo(v, q, g)
    ensures ParsePath(View(WriteBytes(v, g.startCluster, bytes)), path, None) == ParsePath(View(v), path, None)
  {
    var s, w := g.startCluster, WriteBytes(v, g.startCluster, bytes);
    WriteTargetInTree(v, t, q, g);
    WriteBytesStored(v, s, bytes);
    forall d | d in t.depth
      ensures List(w, d) == List(v, d)
    {
      StoredDirs(v, w, s, bytes, d);
    }
    SameListsParse(v, t, w, path);
  }

  // ----- what is read -----

  lemma StepParses(v: Volume, t: Tree, op: Op, path: Text, f: FileInfo)
    requires Holds(v, t) && Allowed(v, op) && LeadsTo(v, path, f) && Harmless(v, op, path, f.startCluster)
    ensures ParsePath(View(Apply(v, op)), path, None) == Some(f)
  {
    match op
    case Create(parentPath, name) =>
      CreateEffect(v, t, parentPath, name);
      EntryParses(v, t, CreateFile(v, parentPath, name).after, name, false, path);
    case MakeDir(parentPath, name) =>
      MkdirEffect(v, t, parentPath, name);
      EntryParses(v, t, Mkdir(v, parentPath, name).after, name, true, path);
    case Write(q, bytes) => WriteParses(v, t, q, bytes, path, f);
  }

  /** The file at the path is read as these bytes. */
  ghost predicate ReadsAs(v: Volume, path: Text, f: FileInfo, bytes: seq<byte>) {
    LeadsTo(v, path, f) && CanRead(v, path, None) && ReadBytes(v, path, None) == Ok(bytes)
  }

  lemma ReadsChain(v: Volume, t: Tree, path: Text, f: FileInfo)
    requires Holds(v, t) && LeadsTo(v, path, f)
    ensures f.startCluster in t.chain && f.startCluster !in t.depth
    ensures ReadsAs(v, path, f, Truncate(ChainBytes(v, t.chain[f.startCluster]), f.size))
  {
    var d, i := WriteTarget(v, t, path, f);
    assert ChainOk(v, t.chain, f.startCluster);
    ReadChain(v, path, None, f, t.chain[f.startCluster]);
  }

  lemma HarmlessSpares(v: Volume, op: Op, path: Text, s: nat)
    requires Harmless(v, op, path, s)
    ensures Spares(v, op, s)
  {
  }

  lemma StepReads(v: Volume, t: Tree, op: Op, path: Text, f: FileInfo, u: Tree)
    requires Holds(v, t) && Allowed(v, op) && LeadsTo(v, path, f) && Harmless(v, op, path, f.startCluster)
    requires Holds(Apply(v, op), u) && Extends(t, u) && SparedKept(v, t, Apply(v, op), op)
    ensures CanRead(v, path, None) && ReadBytes(v, path, None).Ok?
    ensures ReadsAs(Apply(v, op), path, f, ReadBytes(v, path, None).value)
  {
    var w, s := Apply(v, op), f.startCluster;
    StepParses(v, t, op, path, f);
    ReadsChain(v, t, path, f);
    HarmlessSpares(v, op, path, s);
    assert ChainOk(w, u.chain, s);
    ReadsChain(w, u, path, f);
  }

  /** None of the first `n` operations of the run touches what reading the file depends on. */
  ghost predicate RunHarmless(vs: seq<Volume>, ops: seq<Op>, n: nat, path: Text, s: nat)
    requires n <= |ops| <= |vs|
  {
    forall i {:trigger Harmless(vs[i], ops[i], path, s)} :: 0 <= i < n ==> Harmless(vs[i], ops[i], path, s)
  }

  lemma RunStepReads(vs: seq<Volume>, ops: seq<Op>, t: Tree, n: nat, path: Text, f: FileInfo) returns (u: Tree)
    requires IsRun(vs, ops) && n < |ops| && Holds(vs[n], t) && LeadsTo(vs[n], path, f)
    requires Harmless(vs[n], ops[n], path, f.startCluster)
    ensures Holds(vs[n + 1], u) && CanRead(vs[n], path, None) && ReadBytes(vs[n], path, None).Ok?
    ensures ReadsAs(vs[n + 1], path, f, ReadBytes(vs[n], path, None).value)
  {
    u := RunStep(vs, ops, t, n);
    assert StepAt(vs, ops, n);
    StepReads(vs[n], t, ops[n], path, f, u);
  }

  /** Reading a file gives the same after every run in which no new entry is listed under a component of its
      path, and every write goes to another file and sets that file's own size. */
  lemma {:induction false} RunReadsSame(vs: seq<Volume>, ops: seq<Op>, t: Tree, n: nat, path: Text, f: FileInfo)
      returns (u: Tree)
    requires IsRun(vs, ops) && Holds(vs[0], t) && n <= |ops| && LeadsTo(vs[0], path, f)
    requires RunHarmless(vs, ops, n, path, f.startCluster)
    ensures Holds(vs[n], u)
    ensures CanRead(vs[0], path, None) && ReadBytes(vs[0], path, None).Ok?
    ensures ReadsAs(vs[n], path, f, ReadBytes(vs[0], path, None).value)
  {
    u := t;
    ReadsChain(vs[0], t, path, f);
    if n > 0 {
      var x := RunReadsSame(vs, ops, t, n - 1, path, f);
      assert Harmless(vs[n - 1], ops[n - 1], path, f.startCluster);
      u := RunStepReads(vs, ops, x, n - 1, path, f);
    }
  }
}
