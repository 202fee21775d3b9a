/** Whole runs of `create_file`, `mkdir` and `write_file`. */
module Runs {
  import opened Bytes
  import opened Text
  import opened Directory
  import opened Paths
  import opened FatVolume
  import opened Tree
  import opened Growth
  import opened Creation
  import opened Writing
  import opened ReadBack

  datatype Op =
    | Create(parentPath: Text, name: Text)
    | MakeDir(parentPath: Text, name: Text)
    | Write(path: Text, bytes: seq<byte>)

  /** What the code expects of its callers. */
  predicate Allowed(v: Volume, op: Op) {
    match op
    case Create(parentPath, name) => ParentIsDirectory(v, parentPath) && NotEnding(name)
    case MakeDir(parentPath, name) => ParentIsDirectory(v, parentPath) && NotEnding(name)
    case Write(path, _) => CanWrite(v, path)
  }

  /** One operation, successful or not. */
  function Apply(v: Volume, op: Op): Volume
    requires VolumeOk(v) && Allowed(v, op)
  {
    match op
    case Create(parentPath, name) => CreateFile(v, parentPath, name).after
    case MakeDir(parentPath, name) => Mkdir(v, parentPath, name).after
    case Write(path, bytes) => WriteFile(v, path, bytes).after
  }

  /** Operation `i` is allowed, and on a proper volume it gives the next one. */
  predicate StepAt(vs: seq<Volume>, ops: seq<Op>, i: nat)
    requires |vs| == |ops| + 1 && i < |ops|
  {
    Allowed(vs[i], ops[i]) && (VolumeOk(vs[i]) ==> vs[i + 1] == Apply(vs[i], ops[i]))
  }

  /** `vs` are the volumes a run of `ops` goes through. */
  ghost predicate IsRun(vs: seq<Volume>, ops: seq<Op>) {
    |vs| == |ops| + 1 && forall i {:trigger StepAt(vs, ops, i)} :: 0 <= i < |ops| ==> StepAt(vs, ops, i)
  }

  /** `u` has all of `t`, unchanged: directories stay directories and files stay files. */
  ghost predicate Extends(t: Tree, u: Tree) {
    && (forall d :: d in t.depth ==> d in u.depth && u.depth[d] == t.depth[d])
    && (forall d :: d in t.parent && d in t.depth ==> d in u.parent && u.parent[d] == t.parent[d])
    && (forall s :: s in t.chain ==> s in u.chain && u.chain[s] == t.chain[s])
    && (forall s :: s in t.chain && s !in t.depth ==> s !in u.depth)
  }

  lemma ExtendsTransitive(t: Tree, u: Tree, x: Tree)
    requires Extends(t, u) && Extends(u, x)
    ensures Extends(t, x)
  {
  }

  lemma GrowExtends(v: Volume, t: Tree, p: nat, c: nat, isDirectory: bool)
    requires VolumeOk(v) && ChainsOk(v, t) && p in t.depth && c < |v.fat| && Link(v, c) == 0
    ensures Extends(t, GrowTree(t, p, c, isDirectory))
  {
    FreeIsUnowned(v, t, c);
  }

  /** The operation does not write to the file at `s`. */
  predicate Spares(v: Volume, op: Op, s: nat) {
    match op
    case Write(path, _) =>
      (match ParsePath(View(v), path, None)
       case None => true
       case Some(f) => f.isDirectory || f.startCluster != s)
    case _ => true
  }

  /** Every file that the operation does not write to keeps the bytes of its whole chain. */
  ghost predicate SparedKept(v: Volume, t: Tree, w: Volume, op: Op) {
    forall s :: s in t.chain && s !in t.depth && Spares(v, op, s) ==>
      ChainBytes(w, t.chain[s]) == ChainBytes(v, t.chain[s])
  }

  /** Adding an entry, or trying to, keeps the tree, up to growth, and the bytes of all files. */
  lemma EntryStep(v: Volume, t: Tree, w: Volume, name: Text, isDirectory: bool) returns (u: Tree)
    requires Holds(v, t) && Effect(v, t, w, name, isDirectory)
    ensures Holds(w, u) && Extends(t, u) && FilesKept(v, t, w)
  {
    u := t;
    if !Unharmed(v, t, w) && !(exists p :: p in t.depth && Unlisted(v, t, w, p)) {
      var p, c: u32 :| p in t.depth && AddedIn(v, t, w, p, name, isDirectory, c);
      u := GrowTree(t, p, c, isDirectory);
      GrowExtends(v, t, p, c, isDirectory);
    }
  }

  lemma WriteStep(v: Volume, t: Tree, path: Text, bytes: seq<byte>)
    requires Holds(v, t) && Allowed(v, Write(path, bytes))
    ensures Holds(Apply(v, Write(path, bytes)), t)
    ensures SparedKept(v, t, Apply(v, Write(path, bytes)), Write(path, bytes))
  {
    WriteKeeps(v, t, path, bytes);
    var r := ParsePath(View(v), path, None);
    if r.Some? && !r.value.isDirectory {
      WriteToSpares(v, t, path, r.value, bytes);
    }
  }

  /** One operation keeps the tree, up to growth, and the bytes of every file it does not write to. */
  lemma Step(v: Volume, t: Tree, op: Op) returns (u: Tree)
    requires Holds(v, t) && Allowed(v, op)
    ensures Holds(Apply(v, op), u) && Extends(t, u) && SparedKept(v, t, Apply(v, op), op)
  {
    match op
    case Create(parentPath, name) =>
      CreateEffect(v, t, parentPath, name);
      u := EntryStep(v, t, CreateFile(v, parentPath, name).after, name, false);
    case MakeDir(parentPath, name) =>
      MkdirEffect(v, t, parentPath, name);
      u := EntryStep(v, t, Mkdir(v, parentPath, name).after, name, true);
    case Write(path, bytes) =>
      WriteStep(v, t, path, bytes);
      u := t;
  }

  lemma RunStep(vs: seq<Volume>, ops: seq<Op>, t: Tree, n: nat) returns (u: Tree)
    requires IsRun(vs, ops) && n < |ops| && Holds(vs[n], t)
    ensures Holds(vs[n + 1], u) && Extends(t, u) && SparedKept(vs[n], t, vs[n + 1], ops[n])
  {
    assert StepAt(vs, ops, n);
    u := Step(vs[n], t, ops[n]);
  }

  /** None of the first `n` operations of the run writes to the file at `s`. */
  predicate RunSpares(vs: seq<Volume>, ops: seq<Op>, n: nat, s: nat)
    requires n <= |ops| <= |vs|
  {
    forall i :: 0 <= i < n ==> Spares(vs[i], ops[i], s)
  }

  /** After every run from a volume that holds a tree, the volume holds an extension of that tree:
      chains stay acyclic, ended and disjoint, directories stay a tree whose `..` entries name the true
      parents, and every file no operation wrote to has the bytes it had. */
  lemma {:induction false} RunKeepsTree(vs: seq<Volume>, ops: seq<Op>, t: Tree, n: nat) returns (u: Tree)
    requires IsRun(vs, ops) && Holds(vs[0], t) && n <= |ops|
    ensures Holds(vs[n], u) && Extends(t, u)
    ensures forall s :: s in t.chain && s !in t.depth && RunSpares(vs, ops, n, s) ==>
              ChainBytes(vs[n], t.chain[s]) == ChainBytes(vs[0], t.chain[s])
  {
    u := t;
    if n > 0 {
      var x := RunKeepsTree(vs, ops, t, n - 1);
      u := RunStep(vs, ops, x, n - 1);
      ExtendsTransitive(t, x, u);
      forall s | s in t.chain && s !in t.depth && RunSpares(vs, ops, n, s)
        ensures ChainBytes(vs[n], t.chain[s]) == ChainBytes(vs[0], t.chain[s])
      {
        assert RunSpares(vs, ops, n - 1, s) && Spares(vs[n - 1], ops[n - 1], s);
        assert s in x.chain && s !in x.depth;
      }
    }
  }

  /** A freshly formatted volume: the root ends its own chain and has no entries. */
  predicate Formatted(v: Volume) {
    && VolumeOk(v) && Link(v, v.root) >= END_OF_CHAIN
    && forall i :: 0 <= i < |Dir(v, v.root)| ==> IsEnd(Dir(v, v.root)[i])
  }

  lemma FormattedHoldsRoot(v: Volume)
    requires Formatted(v)
    ensures Holds(v, Tree(map[v.root as nat := 0], map[], map[v.root as nat := [v.root]]))
  {
    var root: nat := v.root;
    var t := Tree(map[root := 0], map[], map[root := [root]]);
    assert NodeOk(v, t, root);
    assert ChainOk(v, t.chain, root);
    forall d: nat, i: nat
      ensures !Child(v, t, d, i)
    {
    }
  }
}
