/**
 * `main.py`: the storage service's three endpoints. `download` and `upload` decide what to
 * answer from their inputs; `delete` removes a file from a directory tree and then prunes
 * the parent directories that became empty.
 *
 * `tools.is_allowed_type` and `tools.safe_path` are not defined in `tools.py`:
 * their verdicts are inputs. A path `safe_path` accepts is given as its normalised part
 * relative to the type's base directory.
 */
module StorageApi {
  import opened Wrappers
  import opened PyStr
  import Tools

  /** `os.path.join(dir, rel)` for a relative `rel`. */
  function JoinPath(dir: string, rel: string): string {
    dir + "/" + rel
  }

  // ---------------------------------------------------------------------------
  // GET /download/{type}/{path}

  /** What `download` answers: a file to stream under a suggested name, or a plain-text status. */
  datatype Response = FileSent(realPath: string, downloadName: Option<string>) | Status(code: int, text: string)

  /**
   * How the manager's `/list/mods/access/[id]` call ends: the request fails (`aiohttp`
   * raises), or a reply arrives with its HTTP status and, for the body that is read only on
   * a 200, the list of ids `resp.json()` decodes, `None` when it cannot decode the body.
   */
  datatype ManagerReply = Unreachable | Replied(status: int, json: Option<seq<int>>)

  /** What a request that raises inside the endpoint is answered with. */
  const InternalError: Response := Status(500, "Internal Server Error")

  /** The manager grants access to `id`: a 200 reply whose list holds it. */
  predicate Grants(reply: ManagerReply, id: int) {
    reply.Replied? && reply.status == 200 && reply.json.Some? && id in reply.json.value
  }

  /** The manager call raises: no reply, or a 200 reply whose body is not JSON. */
  predicate CallRaises(reply: ManagerReply) {
    reply.Unreachable? || (reply.status == 200 && reply.json.None?)
  }

  /** `path.split('/', 2)[1]`, or `None` where that split yields fewer than two parts. */
  function SecondSegment(path: string): (r: Option<string>)
    ensures r.None? <==> '/' !in path
    ensures r.Some? ==> '/' !in r.value
  {
    var i := Find(path, '/');
    if i == -1 then None
    else
      var rest := path[i + 1..];
      var j := Find(rest, '/');
      Some(if j == -1 then rest else rest[..j])
  }

  /** Splitting at most twice yields the same second field as splitting at every `/`. */
  lemma SecondSegmentIsSplitField(path: string)
    ensures SecondSegment(path) == if |Split(path, '/')| >= 2 then Some(Split(path, '/')[1]) else None
  {
    var i := Find(path, '/');
    if i == -1 {
      assert Split(path, '/') == [path];
    } else {
      var rest := path[i + 1..];
      var tail := Split(rest, '/');
      assert Split(path, '/') == [path[..i]] + tail;
      assert Split(path, '/')[1] == tail[0];
      var j := Find(rest, '/');
      if j == -1 {
        assert tail == [rest];
      } else {
        assert tail[0] == rest[..j];
      }
    }
  }

  /** The mod id of an `archive/mod/<id>/...` path: `int()` of the second `/`-segment. */
  function ModIdOf(path: string): Option<int> {
    match SecondSegment(path)
    case None => None
    case Some(segment) => PyInt(segment)
  }

  /** `download` sends a file only after the manager confirms access to an `archive/mod/` file. */
  predicate IsModArchive(kind: string, path: string) {
    kind == "archive" && "mod/" <= path
  }

  /**
   * `download`: 400 for a type that is not allowed, before anything else; 403 when
   * `safe_path` refuses; 404 when the path is not an existing file. A file under
   * `archive/mod/` is sent only when its id parses and the manager answers 200 with a list
   * that holds the id (403 when it does not, 503 for any other status, 404 for an id that
   * does not parse, 500 when the manager cannot be reached or its 200 body is not JSON);
   * every other file is sent as it is.
   */
  function Download(typeAllowed: bool, mainDir: string, safeRel: Option<string>, isFile: bool,
                    kind: string, path: string, filename: Option<string>, reply: ManagerReply): (r: Response)
    ensures !typeAllowed ==> r == Status(400, "Invalid type")
    ensures typeAllowed && safeRel.None? ==> r == Status(403, "Access denied")
    ensures typeAllowed && safeRel.Some? && !isFile ==> r == Status(404, "File not found")
    ensures r.FileSent? ==>
              && typeAllowed && safeRel.Some? && isFile
              && r.realPath == JoinPath(JoinPath(mainDir, kind), safeRel.value)
              && r.downloadName == Tools.BuildDownloadFilename(filename, r.realPath)
    ensures r.FileSent? && IsModArchive(kind, path) ==> ModIdOf(path).Some? && Grants(reply, ModIdOf(path).value)
    ensures typeAllowed && safeRel.Some? && isFile && !IsModArchive(kind, path) ==>
              r == FileSent(JoinPath(JoinPath(mainDir, kind), safeRel.value),
                            Tools.BuildDownloadFilename(filename, JoinPath(JoinPath(mainDir, kind), safeRel.value)))
    ensures typeAllowed && safeRel.Some? && isFile && IsModArchive(kind, path) && ModIdOf(path).None? ==>
              r == Status(404, "File not found")
    ensures typeAllowed && safeRel.Some? && isFile && IsModArchive(kind, path) && ModIdOf(path).Some? ==>
              && (r.FileSent? <==> Grants(reply, ModIdOf(path).value))
              && (CallRaises(reply) ==> r == InternalError)
              && (reply.Replied? && reply.status == 200 && reply.json.Some? && ModIdOf(path).value !in reply.json.value ==>
                    r == Status(403, "Access denied"))
              && (reply.Replied? && reply.status != 200 ==> r == Status(503, "Manager unavailable"))
  {
    if !typeAllowed then Status(400, "Invalid type")
    else match safeRel
      case None => Status(403, "Access denied")
      case Some(rel) =>
        var realPath := JoinPath(JoinPath(mainDir, kind), rel);
        if !isFile then Status(404, "File not found")
        else
          var downloadName := Tools.BuildDownloadFilename(filename, realPath);
          if IsModArchive(kind, path) then
            match ModIdOf(path)
            case None => Status(404, "File not found")
            case Some(modId) =>
              match reply
              case Unreachable => InternalError
              case Replied(status, json) =>
                if status == 200 then
                  match json
                  case None => InternalError
                  case Some(ids) => if modId in ids then FileSent(realPath, downloadName) else Status(403, "Access denied")
                else Status(503, "Manager unavailable")
          else FileSent(realPath, downloadName)
  }

  /** The second segment of `mod/<segment>/...` (or `mod/<segment>`) is `segment`. */
  lemma SecondSegmentOfModPath(segment: string, tail: string)
    requires '/' !in segment
    requires tail == [] || tail[0] == '/'
    ensures SecondSegment("mod/" + segment + tail) == Some(segment)
  {
    var path := "mod/" + segment + tail;
    assert path[3] == '/' && forall k :: 0 <= k < 3 ==> path[k] != '/';
    var rest := path[4..];
    assert rest == segment + tail;
    assert forall k :: 0 <= k < |segment| ==> rest[k] == segment[k];
    if tail == [] {
      assert rest == segment;
    } else {
      assert rest[|segment|] == '/';
      assert rest[..|segment|] == segment;
    }
  }

  /** The mod id of `mod/<n>/...` (or `mod/<n>`) is `n`. */
  lemma ModIdOfModPath(n: nat, tail: string)
    requires tail == [] || tail[0] == '/'
    ensures ModIdOf("mod/" + NatToString(n) + tail) == Some(n)
  {
    var digits := NatToString(n);
    assert forall k :: 0 <= k < |digits| ==> digits[k] != '/';
    SecondSegmentOfModPath(digits, tail);
    PyIntOfNatString(n);
  }

  /**
   * For a file `archive/mod/<n>/...`: sent iff the manager answers 200 listing `n`; 403 for a
   * 200 list without `n`, 503 for another status, 500 when the call or the JSON decoding raises.
   */
  lemma DownloadModArchiveAccess(mainDir: string, rel: string, n: nat, tail: string,
                                 filename: Option<string>, reply: ManagerReply)
    requires tail == [] || tail[0] == '/'
    ensures var r := Download(true, mainDir, Some(rel), true, "archive", "mod/" + NatToString(n) + tail, filename, reply);
            && (r.FileSent? <==> Grants(reply, n))
            && (reply.Unreachable? ==> r == InternalError)
            && (reply.Replied? && reply.status == 200 && reply.json.None? ==> r == InternalError)
            && (reply.Replied? && reply.status == 200 && reply.json.Some? && n !in reply.json.value ==>
                  r == Status(403, "Access denied"))
            && (reply.Replied? && reply.status != 200 ==> r == Status(503, "Manager unavailable"))
  {
    var path := "mod/" + NatToString(n) + tail;
    ModIdOfModPath(n, tail);
    ModPathIsModArchive(NatToString(n), tail);
    assert ModIdOf(path) == Some(n) && IsModArchive("archive", path);
  }

  /** A second segment without any digit is not an id: the file is reported missing. */
  lemma DownloadModArchiveBadId(mainDir: string, rel: string, segment: string, tail: string,
                                filename: Option<string>, reply: ManagerReply)
    requires '/' !in segment && forall k :: 0 <= k < |segment| ==> !IsDigit(segment[k])
    requires tail == [] || tail[0] == '/'
    ensures Download(true, mainDir, Some(rel), true, "archive", "mod/" + segment + tail, filename, reply)
            == Status(404, "File not found")
  {
    var path := "mod/" + segment + tail;
    ModIdOfBadSegment(segment, tail);
    ModPathIsModArchive(segment, tail);
    assert ModIdOf(path).None? && IsModArchive("archive", path);
  }

  /** A second segment without any digit gives no mod id. */
  lemma ModIdOfBadSegment(segment: string, tail: string)
    requires '/' !in segment && forall k :: 0 <= k < |segment| ==> !IsDigit(segment[k])
    requires tail == [] || tail[0] == '/'
    ensures ModIdOf("mod/" + segment + tail) == None
  {
    SecondSegmentOfModPath(segment, tail);
    PyIntNeedsADigit(segment);
  }

  lemma ModPathIsModArchive(segment: string, tail: string)
    ensures IsModArchive("archive", "mod/" + segment + tail)
  {
    var path := "mod/" + segment + tail;
    assert path[..4] == "mod/";
  }

  // ---------------------------------------------------------------------------
  // POST /upload

  /** What `upload` does: where the file is stored, the archive member name, and the answer. */
  datatype UploadResult =
    | Stored(storedAt: string, member: Option<string>, returned: string)
    | Refused(code: int, text: string)

  /** The last `.`-separated part of a file name, `filename.split('.')[-1]`. */
  function LastExtension(filename: string): string {
    var parts := Split(filename, '.');
    parts[|parts| - 1]
  }

  /** `path` after `upload` borrows the uploaded file's extension for an extension-less path. */
  function PathWithBorrowedExtension(path: string, filename: Option<string>): string {
    if BorrowsExtension(path, filename)
    then path + "." + LastExtension(filename.value)
    else path
  }

  /** `os.path.relpath(p, base)`, for a `p` that lies under `base`; any other `p` as it is. */
  function RelativeTo(p: string, base: string): (r: string)
    ensures base + "/" <= p ==> JoinPath(base, r) == p
  {
    if base + "/" <= p then p[|base| + 1..] else p
  }

  /**
   * `upload`: 400 for a type that is not allowed, 403 when `safe_path` refuses. An archive
   * whose path does not end in `.zip` is stored as the zip of its one file next to the
   * path's root with `.zip` appended, and `upload` answers that stored path relative to the
   * base directory; anything else is stored where it was asked to be and `upload` answers
   * the path as given. The token plays no part: `tools.check_token` is called without
   * `await`, and the coroutine object it returns is truthy, so the 403 branch is never taken.
   */
  function Upload(typeAllowed: bool, mainDir: string, safeRel: Option<string>,
                  kind: string, path: string, filename: Option<string>): (r: UploadResult)
    ensures !typeAllowed ==> r == Refused(400, "Invalid type")
    ensures typeAllowed && safeRel.None? ==> r == Refused(403, "Access denied")
    ensures r.Stored? ==> r.member.Some? == (kind == "archive" && !EndsWith(path, ".zip"))
    ensures r.Stored? && r.member.Some? ==> r.member.value == ArchiveMember(path, filename)
    ensures typeAllowed && safeRel.Some? ==> r.Stored?
    ensures typeAllowed && safeRel.Some? && !(kind == "archive" && !EndsWith(path, ".zip")) ==>
              r == Stored(JoinPath(JoinPath(mainDir, kind), safeRel.value), None, path)
  {
    if !typeAllowed then Refused(400, "Invalid type")
    else match safeRel
      case None => Refused(403, "Access denied")
      case Some(rel) =>
        var baseDir := JoinPath(mainDir, kind);
        var realPath := JoinPath(baseDir, rel);
        if kind == "archive" && !EndsWith(path, ".zip") then
          var zipPath := Root(realPath) + ".zip";
          Stored(zipPath, Some(ArchiveMember(path, filename)), RelativeTo(zipPath, baseDir))
        else Stored(realPath, None, path)
  }

  /**
   * An archive upload whose path does not end in `.zip` is stored at the root of the
   * path with `.zip` appended, and the answer is that stored path relative to the base.
   */
  lemma UploadArchiveStoredAsZip(mainDir: string, rel: string, path: string, filename: Option<string>)
    requires !EndsWith(path, ".zip")
    ensures var r := Upload(true, mainDir, Some(rel), "archive", path, filename);
            && r.Stored?
            && r.returned == Root(rel) + ".zip"
            && EndsWith(r.returned, ".zip")
            && r.storedAt == JoinPath(JoinPath(mainDir, "archive"), r.returned)
            && r.storedAt == Root(JoinPath(JoinPath(mainDir, "archive"), rel)) + ".zip"
  {
    var baseDir := JoinPath(mainDir, "archive");
    var returned := Root(rel) + ".zip";
    var zipPath := Root(JoinPath(baseDir, rel)) + ".zip";
    StoredZipPath(baseDir, rel);
    assert RelativeTo(zipPath, baseDir) == returned;
    ZipSuffix(Root(rel));
  }

  /** The zip path next to `rel`'s root, under a base directory, is the base with the relative zip path. */
  lemma StoredZipPath(baseDir: string, rel: string)
    ensures Root(JoinPath(baseDir, rel)) + ".zip" == JoinPath(baseDir, Root(rel) + ".zip")
    ensures baseDir + "/" <= JoinPath(baseDir, Root(rel) + ".zip")
  {
    SplitExtUnderDirectory(baseDir, rel);
    AppendUnderPrefix(baseDir + "/", Root(rel), ".zip");
  }

  lemma AppendUnderPrefix(a: string, r: string, suffix: string)
    ensures (a + r) + suffix == a + (r + suffix) && a <= a + (r + suffix)
  {
  }

  lemma ZipSuffix(p: string)
    ensures EndsWith(p + ".zip", ".zip")
  {
    var q := p + ".zip";
    assert q[|q| - 4..] == ".zip";
  }

  /** `basename` of a path with a `/`-free text appended is the old basename with that text. */
  lemma BasenameAppend(p: string, suffix: string)
    requires '/' !in suffix
    ensures Basename(p + suffix) == Basename(p) + suffix
  {
    RFindConcat(p, suffix, '/');
    var k := RFind(p, '/');
    assert (p + suffix)[k + 1..] == p[k + 1..] + suffix;
  }

  /** `upload` borrows the uploaded file name's extension: the path has no `.` and the name has one. */
  predicate BorrowsExtension(path: string, filename: Option<string>) {
    '.' !in path && filename.Some? && filename.value != [] && '.' in filename.value
  }

  /** The name of the one member of the zip an archive upload is packed into. */
  function ArchiveMember(path: string, filename: Option<string>): string {
    Basename(PathWithBorrowedExtension(path, filename))
  }

  /** Without borrowing, the archive member is the basename of the path. */
  lemma ArchiveMemberKeepsName(path: string, filename: Option<string>)
    requires !BorrowsExtension(path, filename)
    ensures ArchiveMember(path, filename) == Basename(path)
  {
  }

  /** With borrowing, the archive member is the path's basename, a `.` and the file name's last extension. */
  lemma ArchiveMemberBorrowsExtension(path: string, filename: Option<string>)
    requires BorrowsExtension(path, filename)
    requires '/' !in LastExtension(filename.value)
    ensures ArchiveMember(path, filename) == Basename(path) + "." + LastExtension(filename.value)
  {
    var suffix := "." + LastExtension(filename.value);
    assert '/' !in suffix;
    assert PathWithBorrowedExtension(path, filename) == path + suffix;
    BasenameAppend(path, suffix);
  }

  // ---------------------------------------------------------------------------
  // DELETE /delete

  /** An absolute path as its components; `[]` is `/`. */
  type Path = seq<string>

  function Parent(p: Path): Path
    requires |p| > 0
  {
    p[..|p| - 1]
  }

  /** `p` is an entry directly inside directory `d`. */
  predicate IsChild(p: Path, d: Path) {
    |p| > 0 && Parent(p) == d
  }

  /** `os.listdir(folder)` is empty in the tree `files`, `dirs`. */
  predicate EmptyIn(files: set<Path>, dirs: set<Path>, folder: Path) {
    && (forall f :: f in files ==> !IsChild(f, folder))
    && (forall d :: d in dirs ==> !IsChild(d, folder))
  }

  /**
   * The directories the pruning loop removes, starting at `folder`: while `folder` lies
   * strictly inside `root` (`commonpath([folder, root]) == root` and `folder != root`) and
   * is empty, it is removed and the loop moves to its parent.
   */
  ghost function Pruned(files: set<Path>, dirs: set<Path>, folder: Path, root: Path): set<Path>
    decreases |folder|
  {
    if root < folder && EmptyIn(files, dirs, folder)
    then {folder} + Pruned(files, dirs - {folder}, Parent(folder), root)
    else {}
  }

  /** The folder at which the pruning loop stops. */
  ghost function PruneStop(files: set<Path>, dirs: set<Path>, folder: Path, root: Path): Path
    decreases |folder|
  {
    if root < folder && EmptyIn(files, dirs, folder)
    then PruneStop(files, dirs - {folder}, Parent(folder), root)
    else folder
  }

  /** An ancestor of a parent is an ancestor of the child. */
  lemma AncestorOfParent(d: Path, folder: Path)
    requires |folder| > 0 && d <= Parent(folder)
    ensures d <= folder && |d| < |folder|
  {
    assert folder[..|d|] == Parent(folder)[..|d|];
  }

  /** Pruning never removes `root` or a directory outside it: only `folder` and its ancestors strictly inside `root`. */
  lemma {:induction false} PrunedStaysInsideRoot(files: set<Path>, dirs: set<Path>, folder: Path, root: Path)
    ensures forall d :: d in Pruned(files, dirs, folder, root) ==> root < d && d <= folder
    decreases |folder|
  {
    if root < folder && EmptyIn(files, dirs, folder) {
      PrunedStaysInsideRoot(files, dirs - {folder}, Parent(folder), root);
      assert Pruned(files, dirs, folder, root) == {folder} + Pruned(files, dirs - {folder}, Parent(folder), root);
      forall d | d in Pruned(files, dirs - {folder}, Parent(folder), root)
        ensures d <= folder
      {
        AncestorOfParent(d, folder);
      }
    }
  }

  /** Every directory pruning removes is empty once pruning is over, so it was empty when removed. */
  lemma {:induction false} PrunedWereEmpty(files: set<Path>, dirs: set<Path>, folder: Path, root: Path)
    ensures forall d :: d in Pruned(files, dirs, folder, root) ==>
              EmptyIn(files, dirs - Pruned(files, dirs, folder, root), d)
    decreases |folder|
  {
    if root < folder && EmptyIn(files, dirs, folder) {
      var rest := Pruned(files, dirs - {folder}, Parent(folder), root);
      var p := Pruned(files, dirs, folder, root);
      assert p == {folder} + rest;
      PrunedWereEmpty(files, dirs - {folder}, Parent(folder), root);
      assert dirs - {folder} - rest == dirs - p;
      forall d | d in p
        ensures EmptyIn(files, dirs - p, d)
      {
        if d != folder {
          assert d in rest;
          assert EmptyIn(files, dirs - {folder} - rest, d);
        } else {
          assert EmptyIn(files, dirs, folder);
          assert forall e :: e in dirs - p ==> e in dirs;
        }
      }
    }
  }

  /**
   * Pruning removes exactly the ancestors of `folder` (itself included) below its stopping
   * point, and it stops at `root`, outside `root`, or at the first ancestor that is not empty.
   */
  lemma {:induction false} PruneStopsAtFirstNonEmpty(files: set<Path>, dirs: set<Path>, folder: Path, root: Path)
    ensures PruneStop(files, dirs, folder, root) <= folder
    ensures forall d :: d in Pruned(files, dirs, folder, root) <==>
              d <= folder && |PruneStop(files, dirs, folder, root)| < |d|
    ensures root < PruneStop(files, dirs, folder, root) ==>
              !EmptyIn(files, dirs - Pruned(files, dirs, folder, root), PruneStop(files, dirs, folder, root))
    decreases |folder|
  {
    if root < folder && EmptyIn(files, dirs, folder) {
      var parent := Parent(folder);
      PruneStopsAtFirstNonEmpty(files, dirs - {folder}, parent, root);
      var rest := Pruned(files, dirs - {folder}, parent, root);
      assert Pruned(files, dirs, folder, root) == {folder} + rest;
      assert PruneStop(files, dirs, folder, root) == PruneStop(files, dirs - {folder}, parent, root);
      assert dirs - {folder} - rest == dirs - Pruned(files, dirs, folder, root);
      forall d | d <= folder && |d| < |folder|
        ensures d <= parent
      {
        assert d == folder[..|d|] == parent[..|d|];
      }
      forall d | d <= parent
        ensures d <= folder && |d| < |folder|
      {
        AncestorOfParent(d, folder);
      }
      var stop := PruneStop(files, dirs, folder, root);
      AncestorOfParent(stop, folder);
      forall d
        ensures d in Pruned(files, dirs, folder, root) <==> d <= folder && |stop| < |d|
      {
        if d != folder && d <= folder {
          assert |d| < |folder|;
        }
      }
    }
  }

  /** The file system under the storage's main directory: its files and its directories. */
  class FileTree {
    var files: set<Path>
    var dirs: set<Path>

    /** A tree: `/` exists, nothing is both a file and a directory, every entry's parent is a directory. */
    ghost predicate Valid()
      reads this
    {
      && [] in dirs
      && files !! dirs
      && (forall f :: f in files ==> |f| > 0 && Parent(f) in dirs)
      && (forall d :: d in dirs && |d| > 0 ==> Parent(d) in dirs)
    }

    constructor ()
      ensures Valid() && files == {} && dirs == {[]}
    {
      files, dirs := {}, {[]};
    }

    /** `os.listdir(folder)` is empty. */
    predicate IsEmptyDir(folder: Path)
      reads this
    {
      EmptyIn(files, dirs, folder)
    }

    /**
     * `delete_file_and_parent_folders`: 404 and no change when `filePath` is not a file;
     * otherwise the file is removed, then the parent directories that became empty, up to
     * but not including `rootDir`.
     */
    method DeleteFileAndParentFolders(filePath: Path, rootDir: Path) returns (status: int)
      requires Valid()
      modifies this
      ensures Valid()
      ensures filePath !in old(files) ==> status == 404 && files == old(files) && dirs == old(dirs)
      ensures filePath in old(files) ==>
                && status == 200
                && files == old(files) - {filePath}
                && dirs == old(dirs) - Pruned(old(files) - {filePath}, old(dirs), Parent(filePath), rootDir)
    {
      if filePath !in files {
        return 404;
      }
      files := files - {filePath};
      var folder := Parent(filePath);
      ghost var start := folder;
      while rootDir < folder
        invariant Valid()
        invariant files == old(files) - {filePath}
        invariant folder in dirs
        invariant dirs <= old(dirs)
        invariant old(dirs) - Pruned(files, old(dirs), start, rootDir) == dirs - Pruned(files, dirs, folder, rootDir)
        decreases |folder|
      {
        if IsEmptyDir(folder) {
          dirs := dirs - {folder};
          folder := Parent(folder);
        } else {
          break;
        }
      }
      return 200;
    }

    /**
     * `delete`: 400 for a type that is not allowed, 403 when `safe_path` refuses; otherwise
     * the file and its emptied parents are removed below the type's base directory. The
     * token plays no part, for the same reason as in `Upload`.
     */
    method Delete(typeAllowed: bool, mainDir: Path, kind: string, safeRel: Option<Path>)
      returns (status: int)
      requires Valid()
      modifies this
      ensures Valid()
      ensures !typeAllowed ==> status == 400 && files == old(files) && dirs == old(dirs)
      ensures typeAllowed && safeRel.None? ==> status == 403 && files == old(files) && dirs == old(dirs)
      ensures typeAllowed && safeRel.Some? ==>
                var filePath := mainDir + [kind] + safeRel.value;
                && (filePath !in old(files) ==> status == 404 && files == old(files) && dirs == old(dirs))
                && (filePath in old(files) ==>
                      && status == 200
                      && files == old(files) - {filePath}
                      && dirs == old(dirs) - Pruned(old(files) - {filePath}, old(dirs), Parent(filePath), mainDir + [kind]))
    {
      if !typeAllowed {
        return 400;
      }
      if safeRel.None? {
        return 403;
      }
      var baseDir := mainDir + [kind];
      status := DeleteFileAndParentFolders(baseDir + safeRel.value, baseDir);
    }
  }
}
