/**
 * `tools.py`: the download file name offered to a client, and the token check over an
 * abstract hash comparison.
 */
module Tools {
  import opened Wrappers
  import opened PyStr

  /** `ALLOWED_FILENAME_CHARS`: Latin letters, digits, `_` and `-`. */
  predicate AllowedFilenameChar(c: char) {
    ('a' <= c <= 'z') || ('A' <= c <= 'Z') || ('0' <= c <= '9') || c == '_' || c == '-'
  }

  /** Every character of `name` is in `ALLOWED_FILENAME_CHARS`. */
  predicate AllAllowed(name: string) {
    forall i :: 0 <= i < |name| ==> AllowedFilenameChar(name[i])
  }

  /**
   * `build_download_filename`: no name when none or an empty one is requested or when it
   * holds a character outside `ALLOWED_FILENAME_CHARS`; otherwise the requested name
   * followed by the extension of the file actually served.
   */
  function BuildDownloadFilename(requestedName: Option<string>, realPath: string): (r: Option<string>)
    ensures r.None? <==> requestedName.None? || requestedName.value == [] || !AllAllowed(requestedName.value)
    ensures r.Some? ==> r.value == requestedName.value + Ext(realPath)
  {
    match requestedName
    case None => None
    case Some(name) =>
      if name == [] then None
      else if !AllAllowed(name) then None
      else Some(name + Ext(realPath))
  }

  /**
   * An offered name never holds `/`, holds a `.` only where the served file's extension
   * starts, holds a space only if that extension does, and is the requested name itself
   * when the served file has no extension.
   */
  lemma DownloadFilenameIsSafe(requestedName: Option<string>, realPath: string)
    requires BuildDownloadFilename(requestedName, realPath).Some?
    ensures var r := BuildDownloadFilename(requestedName, realPath).value;
            && '/' !in r
            && (forall i :: 0 <= i < |r| && r[i] == '.' ==> i == |requestedName.value|)
            && (' ' !in Ext(realPath) ==> ' ' !in r)
            && (Ext(realPath) == [] ==> r == requestedName.value)
  {
    NameWithExtension(requestedName.value, Ext(realPath));
  }

  /** Splitting the offered name gives back the requested name and the served extension. */
  lemma DownloadFilenameSplitsBack(requestedName: Option<string>, realPath: string)
    requires BuildDownloadFilename(requestedName, realPath).Some?
    ensures SplitExt(BuildDownloadFilename(requestedName, realPath).value) == (requestedName.value, Ext(realPath))
  {
    NameWithExtensionSplits(requestedName.value, Ext(realPath));
  }

  /** An extension as `os.path.splitext` returns one: empty, or a `.` followed by neither `.` nor `/`. */
  predicate IsExtension(ext: string) {
    ext == [] || (ext[0] == '.' && '.' !in ext[1..] && '/' !in ext)
  }

  /** The characters of an allowed name followed by an extension. */
  lemma NameWithExtension(name: string, ext: string)
    requires AllAllowed(name) && IsExtension(ext)
    ensures var r := name + ext;
            && '/' !in r
            && (forall i :: 0 <= i < |r| && r[i] == '.' ==> i == |name|)
            && (' ' !in ext ==> ' ' !in r)
  {
    var r := name + ext;
    assert forall i :: 0 <= i < |name| ==> r[i] == name[i] && AllowedFilenameChar(name[i]);
    assert forall i :: |name| <= i < |r| ==> r[i] == ext[i - |name|];
    assert forall i :: 1 <= i < |ext| ==> ext[i] == ext[1..][i - 1];
  }

  /** `os.path.splitext` cuts a non-empty allowed name followed by an extension between the two. */
  lemma NameWithExtensionSplits(name: string, ext: string)
    requires name != [] && AllAllowed(name) && IsExtension(ext)
    ensures SplitExt(name + ext) == (name, ext)
  {
    var r := name + ext;
    NameWithExtension(name, ext);
    assert RFind(r, '/') == -1;
    if ext == [] {
      assert r == name;
      assert '.' !in r;
      assert ExtStart(r) == None;
    } else {
      assert r[|name|] == '.';
      assert RFind(r, '.') == |name|;
      assert HasNonDot(r, 0, |name|) by { assert r[0] == name[0] != '.'; }
      assert ExtStart(r) == Some(|name|);
      assert r[..|name|] == name && r[|name|..] == ext;
    }
  }

  /**
   * `check_token`: false when no hash is configured under `tokenName`; otherwise what the
   * hash comparison `checkpw(token, stored hash)` answers.
   */
  function CheckToken(config: map<string, string>, tokenName: string, token: string,
                      checkpw: (string, string) -> bool): (ok: bool)
    ensures tokenName !in config ==> !ok
    ensures ok ==> checkpw(token, config[tokenName])
    ensures tokenName in config ==> ok == checkpw(token, config[tokenName])
  {
    if tokenName !in config then false else checkpw(token, config[tokenName])
  }
}
