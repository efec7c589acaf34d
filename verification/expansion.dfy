/** Expansion of one listed directory: sub-directories go to the back of the
    frontier, files become metadata records, and the worker halts right after
    recording the first file (the listing's `exit()`). */
module Expansion {
  import opened Common
  import opened Paths
  import opened Listing

  const FileKind: string := "file"
  const DirKind: string := "dir"
  const PathType: string := "globus"

  /** The physical metadata recorded for one file. */
  datatype FileMetadata = FileMetadata(size: nat, extension: Option<string>, pathType: string)

  /** The result of expanding one directory: the frontier afterwards, the
      file metadata recorded (keyed by joined path), and whether the worker
      halted while expanding. */
  datatype Expansion = Expansion(frontier: seq<Path>, metadata: map<Path, FileMetadata>, halted: bool)

  function Metadata(e: Entry): FileMetadata
  {
    FileMetadata(e.size, GetExtension(e.name), PathType)
  }

  /** Expands `entries` of `curDir` in listing order onto `frontier`. */
  function Expand(curDir: Path, entries: seq<Entry>, frontier: seq<Path>): (r: Expansion)
    ensures frontier <= r.frontier
    ensures |r.frontier| <= |frontier| + |entries|
    ensures r.halted <==> |r.metadata| == 1
    ensures !r.halted ==> r.metadata == map[]
    decreases |entries|
  {
    if |entries| == 0 then Expansion(frontier, map[], false)
    else
      var e := entries[0];
      var path := Join(curDir, e.name);
      if e.kind == FileKind then Expansion(frontier, map[path := Metadata(e)], true)
      else if e.kind == DirKind then Expand(curDir, entries[1..], frontier + [path])
      else Expand(curDir, entries[1..], frontier)
  }

  /** The position of the first file entry, if any. */
  function FirstFile(entries: seq<Entry>): (r: Option<nat>)
    ensures r.None? ==> forall i :: 0 <= i < |entries| ==> entries[i].kind != FileKind
    ensures r.Some? ==> r.value < |entries| && entries[r.value].kind == FileKind
                        && forall i :: 0 <= i < r.value ==> entries[i].kind != FileKind
  {
    if |entries| == 0 then None
    else if entries[0].kind == FileKind then Some(0)
    else match FirstFile(entries[1..])
      case None => None
      case Some(i) => Some(i + 1)
  }

  /** The joined paths of the directory entries, in listing order. */
  function DirPaths(curDir: Path, entries: seq<Entry>): (r: seq<Path>)
    ensures |r| <= |entries|
  {
    if |entries| == 0 then []
    else
      (if entries[0].kind == DirKind then [Join(curDir, entries[0].name)] else [])
      + DirPaths(curDir, entries[1..])
  }

  /** Without a file in the listing, every directory entry is appended to
      the frontier in listing order and nothing is recorded. */
  lemma {:induction false} ExpandWithoutFiles(curDir: Path, entries: seq<Entry>, frontier: seq<Path>)
    requires FirstFile(entries).None?
    ensures Expand(curDir, entries, frontier)
            == Expansion(frontier + DirPaths(curDir, entries), map[], false)
    decreases |entries|
  {
    if |entries| == 0 {
      assert frontier + [] == frontier;
    } else {
      var e := entries[0];
      var step := if e.kind == DirKind then [Join(curDir, e.name)] else [];
      var next := if e.kind == DirKind then frontier + step else frontier;
      ExpandWithoutFiles(curDir, entries[1..], next);
      assert DirPaths(curDir, entries) == step + DirPaths(curDir, entries[1..]);
      assert next + DirPaths(curDir, entries[1..]) == frontier + DirPaths(curDir, entries);
    }
  }

  /** The directory paths of a non-empty prefix: the first entry's, then those
      of the rest of the prefix. */
  lemma DirPathsOfPrefix(curDir: Path, entries: seq<Entry>, n: nat)
    requires 0 < n <= |entries|
    ensures DirPaths(curDir, entries[..n])
            == (if entries[0].kind == DirKind then [Join(curDir, entries[0].name)] else [])
               + DirPaths(curDir, entries[1..][..n - 1])
  {
    assert entries[..n][1..] == entries[1..][..n - 1];
  }

  /** With a file in the listing, only the directories before the first file
      are appended, the first file alone is recorded under its joined path,
      and the worker halts. */
  lemma ExpandUpToFirstFile(curDir: Path, entries: seq<Entry>, frontier: seq<Path>)
    requires FirstFile(entries).Some?
    ensures var i := FirstFile(entries).value;
            Expand(curDir, entries, frontier)
            == Expansion(frontier + DirPaths(curDir, entries[..i]),
                         map[Join(curDir, entries[i].name) := Metadata(entries[i])], true)
  {
    FrontierUpToFirstFile(curDir, entries, frontier);
    RecordsFirstFile(curDir, entries, frontier);
  }

  lemma {:induction false} FrontierUpToFirstFile(curDir: Path, entries: seq<Entry>, frontier: seq<Path>)
    requires FirstFile(entries).Some?
    ensures Expand(curDir, entries, frontier).frontier
            == frontier + DirPaths(curDir, entries[..FirstFile(entries).value])
    decreases |entries|
  {
    var e := entries[0];
    if e.kind == FileKind {
      assert entries[..0] == [];
      assert frontier + [] == frontier;
    } else {
      var tail := entries[1..];
      var j := FirstFile(tail).value;
      assert FirstFile(entries).value == j + 1;
      DirPathsOfPrefix(curDir, entries, j + 1);
      if e.kind == DirKind {
        var path := Join(curDir, e.name);
        FrontierUpToFirstFile(curDir, tail, frontier + [path]);
        assert Expand(curDir, entries, frontier) == Expand(curDir, tail, frontier + [path]);
        assert DirPaths(curDir, entries[..j + 1]) == [path] + DirPaths(curDir, tail[..j]);
        assert frontier + [path] + DirPaths(curDir, tail[..j])
               == frontier + ([path] + DirPaths(curDir, tail[..j]));
      } else {
        FrontierUpToFirstFile(curDir, tail, frontier);
        assert Expand(curDir, entries, frontier) == Expand(curDir, tail, frontier);
        assert DirPaths(curDir, entries[..j + 1]) == [] + DirPaths(curDir, tail[..j]);
        assert [] + DirPaths(curDir, tail[..j]) == DirPaths(curDir, tail[..j]);
      }
    }
  }

  lemma {:induction false} RecordsFirstFile(curDir: Path, entries: seq<Entry>, frontier: seq<Path>)
    requires FirstFile(entries).Some?
    ensures var i := FirstFile(entries).value;
            var r := Expand(curDir, entries, frontier);
            r.halted && r.metadata == map[Join(curDir, entries[i].name) := Metadata(entries[i])]
    decreases |entries|
  {
    var e := entries[0];
    if e.kind != FileKind {
      var tail := entries[1..];
      var j := FirstFile(tail).value;
      assert FirstFile(entries).value == j + 1 && entries[j + 1] == tail[j];
      var next := if e.kind == DirKind then frontier + [Join(curDir, e.name)] else frontier;
      RecordsFirstFile(curDir, tail, next);
    }
  }

  /** The worker halts exactly when the listing holds a file. */
  lemma HaltsIffFile(curDir: Path, entries: seq<Entry>, frontier: seq<Path>)
    ensures Expand(curDir, entries, frontier).halted
            <==> exists i :: 0 <= i < |entries| && entries[i].kind == FileKind
  {
    if FirstFile(entries).None? {
      ExpandWithoutFiles(curDir, entries, frontier);
    } else {
      ExpandUpToFirstFile(curDir, entries, frontier);
    }
  }

  /** Entries after the first file are never looked at. */
  lemma {:induction false} EntriesAfterFirstFileIgnored(curDir: Path, entries: seq<Entry>, more: seq<Entry>, frontier: seq<Path>)
    requires FirstFile(entries).Some?
    ensures Expand(curDir, entries + more, frontier) == Expand(curDir, entries, frontier)
    decreases |entries|
  {
    assert (entries + more)[0] == entries[0];
    if entries[0].kind != FileKind {
      assert (entries + more)[1..] == entries[1..] + more;
      var next := if entries[0].kind == DirKind then frontier + [Join(curDir, entries[0].name)] else frontier;
      EntriesAfterFirstFileIgnored(curDir, entries[1..], more, next);
    }
  }
}
