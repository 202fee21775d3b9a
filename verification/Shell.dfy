/** The shell session: a current directory over a mounted file system. */
module Shell {
  import opened Bytes
  import opened Text
  import opened Directory
  import opened Paths
  import opened FatVolume
  import opened Tree
  import opened Session
  import opened Disk

  /** The entries `ls` shows: all but `.` and `..`. */
  function Visible(files: seq<FileInfo>): (r: seq<FileInfo>)
    ensures forall f :: f in r <==> f in files && IsName(f.name)
  {
    if files == [] then []
    else
      var last := files[|files| - 1];
      Visible(files[..|files| - 1]) + (if IsName(last.name) then [last] else [])
  }

  /** `r` holds the named entries of `files`, in order: its entries are those at the positions `at`, which
      increase, and all other entries are dot entries. */
  predicate KeptAt(r: seq<FileInfo>, files: seq<FileInfo>, at: seq<nat>) {
    && |at| == |r|
    && (forall i :: 0 <= i < |at| ==> at[i] < |files| && r[i] == files[at[i]] && IsName(r[i].name))
    && (forall i, j :: 0 <= i < j < |at| ==> at[i] < at[j])
    && (forall j :: 0 <= j < |files| && j !in at ==> !IsName(files[j].name))
  }

  lemma {:induction false} VisibleInOrder(files: seq<FileInfo>) returns (at: seq<nat>)
    ensures KeptAt(Visible(files), files, at)
  {
    at := [];
    if files != [] {
      var n := |files| - 1;
      var init := VisibleInOrder(files[..n]);
      var r := Visible(files[..n]);
      KeptLast(r, files, init);
      if IsName(files[n].name) {
        at := init + [n];
        assert Visible(files) == r + [files[n]];
      } else {
        at := init;
        assert Visible(files) == r;
      }
    }
  }

  lemma KeptLast(r: seq<FileInfo>, files: seq<FileInfo>, at: seq<nat>)
    requires files != [] && KeptAt(r, files[..|files| - 1], at)
    ensures var n := |files| - 1;
            if IsName(files[n].name) then KeptAt(r + [files[n]], files, at + [n]) else KeptAt(r, files, at)
  {
    var n := |files| - 1;
    forall j | 0 <= j < n && j !in at
      ensures !IsName(files[j].name)
    {
      assert files[j] == files[..n][j];
    }
  }

  class ShellSession {
    const fs: Fat32FileSystem
    var currentCluster: u32

    /** A session starts in the root. */
    constructor (fs: Fat32FileSystem)
      ensures this.fs == fs && currentCluster == fs.g.rootCluster
    {
      this.fs := fs;
      currentCluster := fs.g.rootCluster;
    }

    /** `cd`: moves to the directory the path leads to; on an error the session stays where it is. */
    method ChangeDirectory(path: Text, ghost t: Tree) returns (error: Option<CdError>)
      requires fs.Valid() && Holds(fs.Vol(), t) && currentCluster in t.depth
      modifies this
      ensures currentCluster in t.depth
      ensures match Cd(fs.Vol(), old(currentCluster), path)
              case Ok(c) => error == None && currentCluster == c
              case Err(e) => error == Some(e) && currentCluster == old(currentCluster)
    {
      var file := fs.ParsePath(path, Some(currentCluster), t);
      if file.None? {
        return Some(NoEntry);
      }
      if !file.value.isDirectory {
        return Some(NotADirectory);
      }
      CdInTree(fs.Vol(), t, currentCluster, path);
      currentCluster := file.value.startCluster;
      return None;
    }

    /** `ls_entries`: what the current directory lists, without the dot entries. */
    method LsEntries(ghost t: Tree) returns (files: seq<FileInfo>)
      requires fs.Valid() && Holds(fs.Vol(), t) && currentCluster in t.depth
      ensures files == Visible(List(fs.Vol(), currentCluster))
      ensures exists at :: KeptAt(files, List(fs.Vol(), currentCluster), at)
    {
      assert NodeOk(fs.Vol(), t, currentCluster);
      var all := fs.ListDirectoryEntries(currentCluster);
      files := Visible(all);
      ghost var at := VisibleInOrder(all);
    }
  }
}
