/** A tar of a backup: the tree that a repository shows meets what the tar writer
  asks of a tree, whatever its objects hold, also when folders contain themselves.
 */
module BackupTar {
  import opened Order
  import opened Common
  import opened Paging
  import opened Manifest
  import opened CosTree
  import ObjectFile
  import Paths
  import Tar

  ghost function StatOf(repo: Repo, root: Bytes, meta: Entry, path: Tar.Path): (r: Result<Entry, Tar.Trouble>) {
    if !Paths.ValidPath(path) then Err(Tar.Api(BadPath))
    else if path == [] then Ok(RootEntry(meta))
    else match PlainEntryAt(repo, root, path)
      case Err(c) => Err(Tar.Api(c))
      case Ok(e) => Ok(Statted(repo, e))
  }

  ghost function WalkOf(repo: Repo, root: Bytes, path: Tar.Path): (r: Tar.Walked) {
    if !Paths.ValidPath(path) then Tar.Walked([], Some(Tar.Api(BadPath)))
    else match PlainFolderAt(repo, root, path)
      case Err(c) => Tar.Walked([], Some(Tar.Api(c)))
      case Ok(m) => Tar.Walked(ListedAll(repo, m), None)
  }

  /** A copy of a file gives its recorded size, or fails if the object is missing or
      shorter. A file without bytes is not read at all. */
  function CopyOf(repo: Repo, obj: Bytes, size: nat): (r: Result<nat, Tar.Trouble>) {
    if size == 0 then Ok(0)
    else if obj !in repo.content then Err(TroubleOf(ObjectFile.Failed))
    else if |repo.content[obj]| < size then Err(TroubleOf(ObjectFile.UnexpectedEof))
    else Ok(size)
  }

  /** The error in which a failed read ends a copy. */
  function TroubleOf(end: ObjectFile.End): (t: Tar.Trouble)
    ensures t != Tar.Api(NotReadable)
  {
    if end == ObjectFile.Failed then Tar.Api(Internal) else Tar.Other
  }

  /** The copy that a tar makes of a file: reads of at most `chunk` bytes, one after the
      other, through the file that `Open` gives. */
  method Copy(repo: Repo, obj: Bytes, size: nat, chunk: nat) returns (r: Result<nat, Tar.Trouble>)
    requires chunk > 0
    ensures r == CopyOf(repo, obj, size)
  {
    var there := obj in repo.content;
    var content := if there then repo.content[obj] else [];
    var f := new ObjectFile.File(content, size);
    var n := 0;
    while n < size
      invariant f.Valid() && !f.closed && f.content == content && f.size == size
      invariant n <= size && n <= |content| && (!there ==> f.stream.None?)
      decreases size - n
    {
      var data, end := f.ReadAt(ObjectFile.Min(chunk, size - n), n, ObjectFile.Weather(there, None));
      if end != ObjectFile.Clean {
        return Err(TroubleOf(end));
      }
      n := n + |data|;
    }
    r := Ok(n);
  }

  ghost function OpenOf(repo: Repo, root: Bytes, path: Tar.Path): (r: Tar.Opened) {
    if !Paths.ValidPath(path) then Tar.Refused(Tar.Api(BadPath))
    else if path == [] then Tar.Refused(Tar.Api(NotFile))
    else match PlainEntryAt(repo, root, path)
      case Err(c) => Tar.Refused(Tar.Api(c))
      case Ok(e) =>
        match KindOf(e.typ)
        case Dir => Tar.Refused(Tar.Api(NotFile))
        case Symlink => Tar.Refused(Tar.Api(LinkRefused))
        case Special => Tar.Refused(Tar.Api(SpecialFile))
        case File =>
          if e.badOID then Tar.Refused(Tar.Api(NotReadable)) else Tar.Opened(e.size, CopyOf(repo, e.obj, e.size))
  }

  /** What List, Walk, Stat and Open of `CosTree.Tree` answer, as a tree. */
  ghost function BackupTree(repo: Repo, root: Bytes, meta: Entry): (t: Tar.Tree) {
    Tar.Tree(p => StatOf(repo, root, meta, p), p => WalkOf(repo, root, p), p => OpenOf(repo, root, p))
  }

  lemma {:induction false} BackupFolderOk(repo: Repo, root: Bytes, path: Tar.Path)
    requires PlainFolderAt(repo, root, path).Ok?
    ensures Tar.FolderOk(ListedAll(repo, PlainFolderAt(repo, root, path).value))
  {
    var m := PlainFolderAt(repo, root, path).value;
    PlainFolderAtSorted(repo, root, path);
    SortedFolderDistinct(m);
    var entries := ListedAll(repo, m);
    forall k | 0 <= k < |m| ensures entries[k].name == m[k].name && Paths.ValidName(entries[k].name) {
      FolderAtIsSound(repo, root, path, m[k]);
    }
    forall i, j | 0 <= i < j < |m| ensures entries[i].name != entries[j].name {
      assert NamesOf(m)[i] != NamesOf(m)[j];
    }
  }

  /** Every backup is a tree of distinct valid names whose reads are quiet. */
  lemma {:induction false} BackupTreeIsValid(repo: Repo, root: Bytes, meta: Entry)
    ensures BackupTree(repo, root, meta).Valid() && BackupTree(repo, root, meta).Quiet()
  {
    var t := BackupTree(repo, root, meta);
    forall p: Tar.Path ensures Tar.FolderOk(t.walk(p).entries) {
      if Paths.ValidPath(p) && PlainFolderAt(repo, root, p).Ok? {
        BackupFolderOk(repo, root, p);
      }
    }
  }

  /** For every repository, even one whose folders form a cycle: a tar run of a
      backup never writes a header name twice, and one that succeeds counts every
      entry that it reaches. */
  lemma {:induction false} BackupTarIsRight(repo: Repo, root: Bytes, meta: Entry, top: Tar.Path, e: Entry,
                                            headers: seq<Bytes>)
    requires Tar.Names(top)
    requires Tar.Texts(headers, Tar.RunEntry(BackupTree(repo, root, meta), top, e, true).members, Tar.Base(top))
    ensures Distinct(headers)
    ensures var t := BackupTree(repo, root, meta);
            var run := Tar.RunEntry(t, top, e, true);
            run.trouble.None? ==> Tar.Sum(run.rep) == Tar.Reached(t, top, e, true)
  {
    var t := BackupTree(repo, root, meta);
    BackupTreeIsValid(repo, root, meta);
    Tar.HeadersDistinct(t, top, e, headers);
    Tar.RunCounts(t, top, e, true);
  }
}
