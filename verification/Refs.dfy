/** Node references, their keys and their normalisation: src/graph/ordering.js:19-31 and
    src/graph/indexes.js:6-27. */
module Refs {
  import opened Wrappers

  datatype Ref = Chunk(chunkUid: string) | Symbol(symbolId: string) | File(path: string) | Other

  function NodeKey(r: Ref): string {
    match r
    case Chunk(id) => "chunk:" + id
    case Symbol(id) => "symbol:" + id
    case File(path) => "file:" + path
    case Other => ""
  }

  /** A key names one reference, so a node may be represented by its key. */
  lemma NodeKeyInjective(a: Ref, b: Ref)
    ensures NodeKey(a) == NodeKey(b) <==> a == b
  {
    if NodeKey(a) == NodeKey(b) {
      assert a.Chunk? ==> NodeKey(a)[0] == 'c' && a.chunkUid == NodeKey(a)[|"chunk:"|..];
      assert b.Chunk? ==> NodeKey(b)[0] == 'c' && b.chunkUid == NodeKey(b)[|"chunk:"|..];
      assert a.Symbol? ==> NodeKey(a)[0] == 's' && a.symbolId == NodeKey(a)[|"symbol:"|..];
      assert b.Symbol? ==> NodeKey(b)[0] == 's' && b.symbolId == NodeKey(b)[|"symbol:"|..];
      assert a.File? ==> NodeKey(a)[0] == 'f' && a.path == NodeKey(a)[|"file:"|..];
      assert b.File? ==> NodeKey(b)[0] == 'f' && b.path == NodeKey(b)[|"file:"|..];
    }
  }

  function ToPosix(p: string): (r: string)
    ensures |r| == |p|
    ensures forall i :: 0 <= i < |p| ==> r[i] == if p[i] == '\\' then '/' else p[i]
  {
    seq(|p|, i requires 0 <= i < |p| => if p[i] == '\\' then '/' else p[i])
  }

  /** For an absolute path inside the repository root the path relative to the root, for others none. */
  type Root = string -> Option<string>

  function NormalizeImportPath(root: Root, p: string): string {
    var posix := ToPosix(if root(p).Some? then root(p).value else p);
    if "./" <= posix then posix[2..] else posix
  }

  /** A file reference gets its normalised path, unless that is empty. */
  function NormalizeFileRef(root: Root, r: Ref): Ref {
    match r
    case File(path) =>
      var normalized := NormalizeImportPath(root, path);
      if normalized == "" || normalized == path then r else File(normalized)
    case _ => r
  }

  /** An absolute path inside the root is never its own path relative to the root. */
  ghost predicate Relativizes(root: Root) {
    forall p :: root(p).Some? ==> NormalizeImportPath(root, p) != p
  }

  /** Only absolute paths are inside the root. */
  ghost predicate OnlyAbsolute(root: Root) {
    forall p :: root(p).Some? ==> p != "" && (p[0] in {'/', '\\'} || (|p| > 1 && p[1] == ':'))
  }

  /** For instance, the root at a directory of a posix file system, as far as paths without dot segments go. */
  function Within(directory: string): Root {
    p => if directory + "/" <= p then Some(p[|directory| + 1..]) else None
  }

  lemma WithinIsRoot(directory: string)
    requires directory != "" && directory[0] == '/'
    ensures Relativizes(Within(directory)) && OnlyAbsolute(Within(directory))
  {
  }

  /** A path to which normalisation does something and leaves something: it is an absolute path inside the root, or
      posix it differs, or it begins with "./". */
  predicate Changes(root: Root, p: string) {
    NormalizeImportPath(root, p) != "" && (root(p).Some? || ToPosix(p) != p || "./" <= p)
  }

  lemma ChangesMeans(root: Root, p: string)
    requires Relativizes(root)
    ensures NormalizeImportPath(root, p) !in {"", p} <==> Changes(root, p)
  {
    var posix := ToPosix(p);
    assert "./" <= posix ==> |posix[2..]| < |p|;
  }

  /** Normalising twice is normalising once, except exactly when normalisation does something to the normal path:
      only one "./" is taken off at a time, and what is under it may be absolute. */
  lemma NormalizeTwice(root: Root, r: Ref)
    requires Relativizes(root)
    ensures NormalizeFileRef(root, NormalizeFileRef(root, r)) == NormalizeFileRef(root, r)
            <==> !(r.File? && NormalizeImportPath(root, r.path) != ""
                   && Changes(root, NormalizeImportPath(root, r.path)))
  {
    hide ToPosix, Changes;
    if r.File? {
      ChangesMeans(root, r.path);
      ChangesMeans(root, NormalizeImportPath(root, r.path));
    }
  }

  /** Without a root: exactly the paths that begin with "./" twice and go on. */
  lemma NormalizeTwiceRelative(root: Root, r: Ref)
    requires forall p :: root(p).None?
    ensures NormalizeFileRef(root, NormalizeFileRef(root, r)) == NormalizeFileRef(root, r)
            <==> !(r.File? && "././" <= ToPosix(r.path) && |r.path| > 4)
  {
    NormalizeTwice(root, r);
    if r.File? {
      var posix := ToPosix(r.path);
      var once := NormalizeImportPath(root, r.path);
      assert ToPosix(once) == once;
      if "./" <= posix {
        assert posix[0] == '.' && posix[1] == '/';
        assert "./" <= once <==> "././" <= posix;
      }
    }
  }

  /** What normalising a reference does to its key. */
  function NormalizeKey(root: Root, k: string): string {
    if "file:" <= k then NodeKey(NormalizeFileRef(root, File(k[|"file:"|..]))) else k
  }

  function Normalizer(root: Root): string -> string {
    k => NormalizeKey(root, k)
  }

  /** So the traversal may work on keys. */
  lemma KeyOfNormalized(root: Root, r: Ref)
    ensures NodeKey(NormalizeFileRef(root, r)) == NormalizeKey(root, NodeKey(r))
  {
    match r
    case Chunk(id) => assert NodeKey(r)[0] == 'c';
    case Symbol(id) => assert NodeKey(r)[0] == 's';
    case File(path) => assert NodeKey(r)[|"file:"|..] == path;
    case Other =>
  }

  lemma FileKey(path: string)
    ensures "file:" <= "file:" + path && ("file:" + path)[|"file:"|..] == path
  {
  }

  /** Keys of files stay keys of files, and others stay as they are. */
  lemma NormalizedKind(root: Root, k: string)
    ensures if "file:" <= k then "file:" <= NormalizeKey(root, k) else NormalizeKey(root, k) == k
    ensures k != "" <==> NormalizeKey(root, k) != ""
  {
    if "file:" <= k {
      var r := NormalizeFileRef(root, File(k[|"file:"|..]));
      assert r.File?;
      FileKey(r.path);
    }
  }

  /** The normal path of a file's key, the id under which its imports are looked up; none for other keys. */
  function SourceId(root: Root, k: string): string {
    if "file:" <= k then NormalizeImportPath(root, k[|"file:"|..]) else ""
  }

  lemma KeyOfSource(root: Root, k: string)
    ensures "file:" <= NormalizeKey(root, k) <==> "file:" <= k
    ensures SourceId(root, k) == "" ==> NormalizeKey(root, k) == k
    ensures SourceId(root, k) != "" ==> NormalizeKey(root, k) == "file:" + SourceId(root, k)
  {
    NormalizedKind(root, k);
    if "file:" <= k {
      assert k == "file:" + k[|"file:"|..];
    }
  }

  /** The keys that change again when normalised again. */
  lemma KeyNormalizedTwice(root: Root, k: string)
    requires Relativizes(root)
    ensures NormalizeKey(root, NormalizeKey(root, k)) == NormalizeKey(root, k)
            <==> !("file:" <= k && NormalizeImportPath(root, k[|"file:"|..]) != ""
                   && Changes(root, NormalizeImportPath(root, k[|"file:"|..])))
  {
    hide NormalizeImportPath, Changes, Relativizes;
    if "file:" <= k {
      var r := File(k[|"file:"|..]);
      FileKey(k[|"file:"|..]);
      NormalizeTwice(root, r);
      KeyOfNormalized(root, NormalizeFileRef(root, r));
      NodeKeyInjective(NormalizeFileRef(root, NormalizeFileRef(root, r)), NormalizeFileRef(root, r));
    }
  }

  /** Keys that are their own normal form. */
  lemma KeyNormal(root: Root, k: string)
    requires Relativizes(root)
    ensures NormalizeKey(root, k) == k <==> ("file:" <= k ==> !Changes(root, k[|"file:"|..]))
  {
    hide NormalizeImportPath, Changes, Relativizes;
    if "file:" <= k {
      var path := k[|"file:"|..];
      FileKey(path);
      assert k == NodeKey(File(path));
      NodeKeyInjective(NormalizeFileRef(root, File(path)), File(path));
      ChangesMeans(root, path);
    }
  }
}
