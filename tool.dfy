/**
 * `tool.py`: catalogue helpers — text truncation, sort keys, "parse or empty list", the
 * archive size check of `zipping` over an abstract workshop directory, and the download
 * and mod counters over the catalogue tables.
 */
module Tool {
  import opened Wrappers
  import opened PyStr
  import opened Schema

  // ---------------------------------------------------------------------------
  // truncate_text

  /** The default `length` of `truncate_text`. */
  const DefaultTruncateLength: int := 256

  /** `truncate_text`: a text longer than `length` becomes `text[:length-3] + "..."`. */
  function TruncateText(text: string, length: int): (r: string)
  {
    if |text| > length then Slice(text, 0, length - 3) + "..." else text
  }

  /** With the default `length`, a text is cut to at most 256 characters, and a text that fits is kept. */
  lemma TruncateDefault(text: string)
    ensures |TruncateText(text, DefaultTruncateLength)| <= DefaultTruncateLength
    ensures |text| <= DefaultTruncateLength ==> TruncateText(text, DefaultTruncateLength) == text
  {
    if |text| > DefaultTruncateLength {
      TruncateLongText(text, DefaultTruncateLength);
    }
  }

  /** A text of at most `length` characters is returned unchanged. */
  lemma TruncateKeepsShortText(text: string, length: int)
    requires |text| <= length
    ensures TruncateText(text, length) == text
  {
  }

  /** With `length >= 3`, a longer text becomes exactly `length` characters: its first `length - 3` and `...`. */
  lemma TruncateLongText(text: string, length: int)
    requires |text| > length >= 3
    ensures |TruncateText(text, length)| == length
    ensures TruncateText(text, length) == text[..length - 3] + "..."
  {
    assert SliceBound(length - 3, |text|) == length - 3;
  }

  /**
   * For any `length`, a truncated text is a prefix of the text followed by `...`; with
   * `length < 3` the slice bound counts from the end, so the result can be longer than `length`.
   */
  lemma TruncatedIsPrefixWithEllipsis(text: string, length: int)
    requires |text| > length
    ensures var r := TruncateText(text, length);
            && |r| >= 3 && r[|r| - 3..] == "..."
            && r[..|r| - 3] <= text
  {
    var r := TruncateText(text, length);
    var cut := Slice(text, 0, length - 3);
    assert r == cut + "...";
    assert r[..|r| - 3] == cut;
  }

  /** `truncate_text("abcd", 1)` is `"ab..."`: five characters for a limit of one. */
  lemma TruncateBelowThreeOverruns()
    ensures TruncateText("abcd", 1) == "ab..."
  {
    assert SliceBound(-2, 4) == 2;
    assert Slice("abcd", 0, -2) == "ab";
  }

  // ---------------------------------------------------------------------------
  // str_to_list

  /** A JSON value as `json.loads` returns it. */
  datatype Json =
    | JNull
    | JBool(b: bool)
    | JNumber(n: int)
    | JString(s: string)
    | JArray(items: seq<Json>)
    | JObject(members: seq<(string, Json)>)

  /**
   * `str_to_list`, given what `json.loads` made of the string (`None` when it raised):
   * the array's items when the text is a JSON array, otherwise the empty list.
   */
  function StrToList(parsed: Option<Json>): (r: seq<Json>)
    ensures parsed.None? ==> r == []
    ensures parsed.Some? && !parsed.value.JArray? ==> r == []
    ensures r != [] ==> parsed == Some(JArray(r))
  {
    match parsed
    case Some(JArray(items)) => items
    case _ => []
  }

  /** Every JSON array comes back as its items, so `str_to_list` loses nothing of a list. */
  lemma StrToListOfArray(items: seq<Json>)
    ensures StrToList(Some(JArray(items))) == items
  {
  }

  // ---------------------------------------------------------------------------
  // sort_mods / sort_games

  /** The `mods` columns `sort_mods` may order by. */
  datatype ModColumn = ModName | ModSize | ModCreationDate | ModUpdateDate | ModRequestDate | ModSource | ModDownloads

  /** The `games` columns `sort_games` may order by. */
  datatype GameColumn = GameName | GameType | GameCreationDate | GameSource | GameModsCount | GameModsDownloads

  /** An `ORDER BY` term: a column, ascending or wrapped in `desc`. */
  datatype Order<C> = Order(column: C, descending: bool)

  /** `sort_mods`: the order for a sort key; any other key orders by downloads, ascending. */
  function SortMods(sortBy: string): Order<ModColumn> {
    match sortBy
    case "NAME" => Order(ModName, false)
    case "iNAME" => Order(ModName, true)
    case "SIZE" => Order(ModSize, false)
    case "iSIZE" => Order(ModSize, true)
    case "CREATION_DATE" => Order(ModCreationDate, false)
    case "iCREATION_DATE" => Order(ModCreationDate, true)
    case "UPDATE_DATE" => Order(ModUpdateDate, false)
    case "iUPDATE_DATE" => Order(ModUpdateDate, true)
    case "REQUEST_DATE" => Order(ModRequestDate, false)
    case "iREQUEST_DATE" => Order(ModRequestDate, true)
    case "SOURCE" => Order(ModSource, false)
    case "iSOURCE" => Order(ModSource, true)
    case "iMOD_DOWNLOADS" => Order(ModDownloads, true)
    case _ => Order(ModDownloads, false)
  }

  /** The plain keys of `sort_mods`. */
  const ModSortKeys: set<string> := {"NAME", "SIZE", "CREATION_DATE", "UPDATE_DATE", "REQUEST_DATE", "SOURCE"}

  /** The keys of `sort_mods` that sort descending: each plain key and `MOD_DOWNLOADS` with `i` in front. */
  const InvertedModSortKeys: set<string> :=
    {"iNAME", "iSIZE", "iCREATION_DATE", "iUPDATE_DATE", "iREQUEST_DATE", "iSOURCE", "iMOD_DOWNLOADS"}

  /** Each plain key sorts ascending, and its `i` form sorts the same column descending. */
  lemma SortModsInvertedKey(key: string)
    requires key in ModSortKeys
    ensures !SortMods(key).descending
    ensures SortMods("i" + key) == Order(SortMods(key).column, true)
  {
    if key == "NAME" { assert "i" + key == "iNAME"; }
    else if key == "SIZE" { assert "i" + key == "iSIZE"; }
    else if key == "CREATION_DATE" { assert "i" + key == "iCREATION_DATE"; }
    else if key == "UPDATE_DATE" { assert "i" + key == "iUPDATE_DATE"; }
    else if key == "REQUEST_DATE" { assert "i" + key == "iREQUEST_DATE"; }
    else { assert "i" + key == "iSOURCE"; }
  }

  /**
   * Only an `i` key sorts descending, and `iMOD_DOWNLOADS` sorts by downloads descending;
   * every key `sort_mods` does not know, `MOD_DOWNLOADS` among them, sorts by downloads ascending.
   */
  lemma SortModsDefault(key: string)
    ensures SortMods(key).descending ==> |key| > 0 && key[0] == 'i'
    ensures key !in ModSortKeys && key !in InvertedModSortKeys ==> SortMods(key) == Order(ModDownloads, false)
    ensures SortMods("MOD_DOWNLOADS") == Order(ModDownloads, false)
    ensures SortMods("iMOD_DOWNLOADS") == Order(ModDownloads, true)
  {
  }

  /**
   * `sort_games` as written: the descending form of `MODS_COUNT` is matched as
   * `iMOD_COUNT`; any other key orders by mods downloads, descending.
   */
  function SortGames(sortBy: string): Order<GameColumn> {
    match sortBy
    case "NAME" => Order(GameName, false)
    case "iNAME" => Order(GameName, true)
    case "TYPE" => Order(GameType, false)
    case "iTYPE" => Order(GameType, true)
    case "CREATION_DATE" => Order(GameCreationDate, false)
    case "iCREATION_DATE" => Order(GameCreationDate, true)
    case "SOURCE" => Order(GameSource, false)
    case "iSOURCE" => Order(GameSource, true)
    case "MODS_COUNT" => Order(GameModsCount, false)
    case "iMOD_COUNT" => Order(GameModsCount, true)
    case "MOD_DOWNLOADS" => Order(GameModsDownloads, false)
    case _ => Order(GameModsDownloads, true)
  }

  /** The plain keys of `sort_games`. */
  const GameSortKeys: set<string> := {"NAME", "TYPE", "CREATION_DATE", "SOURCE", "MODS_COUNT", "MOD_DOWNLOADS"}

  /** Unknown keys sort by mods downloads descending, while `MOD_DOWNLOADS` sorts it ascending. */
  lemma SortGamesDefault(key: string)
    requires key !in GameSortKeys && key !in {"iNAME", "iTYPE", "iCREATION_DATE", "iSOURCE", "iMOD_COUNT"}
    ensures SortGames(key) == Order(GameModsDownloads, true)
    ensures SortGames("MOD_DOWNLOADS") == Order(GameModsDownloads, false)
  {
  }

  /**
   * The `i` form of `MODS_COUNT` does not sort by mods count: it falls through to the
   * default and sorts by mods downloads.
   */
  lemma SortGamesMissesInvertedModsCount()
    ensures SortGames("MODS_COUNT") == Order(GameModsCount, false)
    ensures SortGames("i" + "MODS_COUNT") == Order(GameModsDownloads, true)
    ensures SortGames("i" + "MODS_COUNT").column != SortGames("MODS_COUNT").column
  {
  }

  /** `sort_games` with the descending mods-count key also accepted as `iMODS_COUNT`. */
  function SortGamesCorrected(sortBy: string): Order<GameColumn> {
    match sortBy
    case "iMODS_COUNT" => Order(GameModsCount, true)
    case _ => SortGames(sortBy)
  }

  /** In the corrected map, every `i` form of a plain key other than `MOD_DOWNLOADS` sorts that key's column descending. */
  lemma SortGamesCorrectedInvertedKey(key: string)
    requires key in GameSortKeys - {"MOD_DOWNLOADS"}
    ensures !SortGamesCorrected(key).descending
    ensures SortGamesCorrected("i" + key) == Order(SortGamesCorrected(key).column, true)
  {
    if key == "NAME" { assert "i" + key == "iNAME"; }
    else if key == "TYPE" { assert "i" + key == "iTYPE"; }
    else if key == "CREATION_DATE" { assert "i" + key == "iCREATION_DATE"; }
    else if key == "SOURCE" { assert "i" + key == "iSOURCE"; }
    else { assert "i" + key == "iMODS_COUNT"; }
  }

  // ---------------------------------------------------------------------------
  // zipping

  /** What `os.walk` lists under a mod's download directory: a file (its size, whether it is a symlink) or a subdirectory. */
  datatype Entry = File(size: nat, isLink: bool) | Subdir

  /** The bytes `zipping` counts for one entry: a file's size unless it is a symlink. */
  function CountedSize(e: Entry): nat {
    if e.File? && !e.isLink then e.size else 0
  }

  /** The summed size of the non-symlink files among `entries`. */
  function TotalSize(entries: seq<Entry>): nat
  {
    if entries == [] then 0 else TotalSize(entries[..|entries| - 1]) + CountedSize(entries[|entries| - 1])
  }

  lemma {:induction false} TotalSizeConcat(a: seq<Entry>, b: seq<Entry>)
    ensures TotalSize(a + b) == TotalSize(a) + TotalSize(b)
    decreases |b|
  {
    if b != [] {
      assert (a + b)[..|a + b| - 1] == a + b[..|b| - 1];
      TotalSizeConcat(a, b[..|b| - 1]);
    } else {
      assert a + b == a;
    }
  }

  /** Taking the same element out of two equal multisets leaves equal multisets. */
  lemma MultisetCancel(front: seq<Entry>, x: Entry, b1: seq<Entry>, b2: seq<Entry>)
    requires multiset(front + [x]) == multiset(b1 + [x] + b2)
    ensures multiset(front) == multiset(b1 + b2)
  {
    calc {
      multiset(front);
      multiset(front + [x]) - multiset{x};
      multiset(b1 + [x] + b2) - multiset{x};
      multiset(b1) + multiset(b2);
      multiset(b1 + b2);
    }
  }

  /** The total does not depend on the order in which `os.walk` lists the entries. */
  lemma {:induction false} TotalSizeIgnoresOrder(a: seq<Entry>, b: seq<Entry>)
    requires multiset(a) == multiset(b)
    ensures TotalSize(a) == TotalSize(b)
    decreases |a|
  {
    if a != [] {
      var x := a[|a| - 1];
      var front := a[..|a| - 1];
      assert a == front + [x];
      assert x in multiset(b);
      var j :| 0 <= j < |b| && b[j] == x;
      var b1, b2 := b[..j], b[j + 1..];
      assert b == b1 + [x] + b2;
      MultisetCancel(front, x, b1, b2);
      TotalSizeIgnoresOrder(front, b1 + b2);
      TotalSizeConcat(b1 + [x], b2);
      TotalSizeConcat(b1, b2);
      assert (b1 + [x])[..|b1|] == b1;
    } else {
      assert b == [];
    }
  }

  /** `steamapps/workshop/content/{game}/{mod}` and the two places its archive can be. */
  class Workshop {
    /** Each mod's download directory, as the entries `os.walk` lists in it. */
    var content: map<(int, int), seq<Entry>>
    /** The archives `steamapps/workshop/content/{game}/{mod}.zip`. */
    var staged: set<(int, int)>
    /** The archives `mods/{game}/{mod}.zip`, with the entries packed into them. */
    var published: map<(int, int), seq<Entry>>

    constructor ()
      ensures content == map[] && staged == {} && published == map[]
    {
      content, staged, published := map[], {}, map[];
    }

    /**
     * `zipping`: false, with no archive made, when the download directory is missing or
     * empty (an empty one is removed). Otherwise its entries are packed into the staged
     * archive and the directory is removed; the archive is published when the non-symlink
     * files add up to a positive `targetSize`, and removed when they do not.
     */
    method Zipping(gameId: int, modId: int, targetSize: int) returns (ok: bool)
      modifies this
      ensures var key := (gameId, modId);
              ok <==> key in old(content) && old(content)[key] != [] && TotalSize(old(content)[key]) == targetSize && targetSize > 0
      ensures content == old(content) - {(gameId, modId)}
      ensures var key := (gameId, modId);
              staged == if key in old(content) && old(content)[key] != [] then old(staged) - {key} else old(staged)
      ensures published == if ok then old(published)[(gameId, modId) := old(content)[(gameId, modId)]] else old(published)
    {
      var key := (gameId, modId);
      if key !in content || content[key] == [] {
        content := content - {key};
        return false;
      }
      var entries := content[key];
      staged := staged + {key};
      var total := 0;
      var i := 0;
      while i < |entries|
        invariant 0 <= i <= |entries|
        invariant total == TotalSize(entries[..i])
      {
        assert entries[..i + 1][..i] == entries[..i];
        if entries[i].File? && !entries[i].isLink {
          total := total + entries[i].size;
        }
        i := i + 1;
      }
      assert entries[..i] == entries;
      content := content - {key};
      staged := staged - {key};
      if total != targetSize || targetSize <= 0 {
        ok := false;
      } else {
        published := published[key := entries];
        ok := true;
      }
    }
  }

  // ---------------------------------------------------------------------------
  // downloads_count_update / get_mods_count

  /**
   * The tables after one download of mod `modId`, seen by the caller with `seenDownloads`
   * downloads, at time `now`: the mod's count becomes `seenDownloads + 1` and its request
   * date `now`, and its game's downloads rise by one. `None` when the mod or its game is
   * missing (the lookup raises and nothing is committed).
   */
  function CountDownload(mods: map<int, ModRow>, games: map<int, GameRow>, modId: int, seenDownloads: int, now: int)
    : (r: Option<(map<int, ModRow>, map<int, GameRow>)>)
    ensures r.Some? <==> modId in mods && mods[modId].game in games
    ensures r.Some? ==> r.value.0.Keys == mods.Keys && r.value.1.Keys == games.Keys
  {
    if modId !in mods then None
    else
      var mod := mods[modId];
      if mod.game !in games then None
      else
        var game := games[mod.game];
        Some((mods[modId := mod.(downloads := seenDownloads + 1, dateRequest := now)],
              games[mod.game := game.(modsDownloads := game.modsDownloads + 1)]))
  }

  /**
   * With an up-to-date count, one download adds exactly one to the mod and one to its game,
   * and no other mod or game changes.
   */
  lemma CountDownloadAddsOne(mods: map<int, ModRow>, games: map<int, GameRow>, modId: int, now: int)
    requires modId in mods && mods[modId].game in games
    ensures var r := CountDownload(mods, games, modId, mods[modId].downloads, now).value;
            var g := mods[modId].game;
            && r.0[modId].downloads == mods[modId].downloads + 1
            && r.0[modId].dateRequest == now
            && r.1[g].modsDownloads == games[g].modsDownloads + 1
            && (forall m :: m in mods && m != modId ==> r.0[m] == mods[m])
            && (forall h :: h in games && h != g ==> r.1[h] == games[h])
            && r.0[modId] == mods[modId].(downloads := mods[modId].downloads + 1, dateRequest := now)
  {
  }

  /**
   * `downloads_count_update`: applies `CountDownload` to the catalogue, or changes nothing
   * when the mod or its game is missing.
   */
  method DownloadsCountUpdate(db: CatalogueDb, modId: int, seenDownloads: int, now: int) returns (ok: bool)
    modifies db`mods, db`games
    ensures var r := CountDownload(old(db.mods), old(db.games), modId, seenDownloads, now);
            && ok == r.Some?
            && (ok ==> db.mods == r.value.0 && db.games == r.value.1)
            && (!ok ==> db.mods == old(db.mods) && db.games == old(db.games))
  {
    if modId !in db.mods {
      return false;
    }
    var mod := db.mods[modId];
    var modsBefore := db.mods;
    db.mods := db.mods[modId := mod.(downloads := seenDownloads + 1, dateRequest := now)];
    if mod.game !in db.games {
      // the game lookup raises before the commit: the mod update is rolled back
      db.mods := modsBefore;
      return false;
    }
    var game := db.games[mod.game];
    db.games := db.games[mod.game := game.(modsDownloads := game.modsDownloads + 1)];
    ok := true;
  }

  /** The ids of the mods of game `gameId`. */
  function ModsOf(mods: map<int, ModRow>, gameId: int): set<int> {
    set id | id in mods && mods[id].game == gameId
  }

  /** `get_mods_count`: how many mods belong to game `gameId`. */
  function GetModsCount(mods: map<int, ModRow>, gameId: int): (n: nat)
    ensures n <= |mods|
    ensures n == 0 <==> forall id :: id in mods ==> mods[id].game != gameId
  {
    var ids := ModsOf(mods, gameId);
    SubsetCardinality(ids, mods.Keys);
    NoModsOf(mods, gameId);
    |ids|
  }

  lemma NoModsOf(mods: map<int, ModRow>, gameId: int)
    ensures ModsOf(mods, gameId) == {} <==> forall id :: id in mods ==> mods[id].game != gameId
  {
    if forall id :: id in mods ==> mods[id].game != gameId {
      assert forall x :: x !in ModsOf(mods, gameId);
    } else {
      var id :| id in mods && mods[id].game == gameId;
      assert id in ModsOf(mods, gameId);
    }
  }

  lemma SubsetCardinality(a: set<int>, b: set<int>)
    requires a <= b
    ensures |a| <= |b|
  {
    assert b == a + (b - a);
  }

  /** Adding a new mod raises its game's count by one and leaves every other game's count as it is. */
  lemma GetModsCountAfterInsert(mods: map<int, ModRow>, id: int, row: ModRow, gameId: int)
    requires id !in mods
    ensures GetModsCount(mods[id := row], gameId)
            == GetModsCount(mods, gameId) + (if row.game == gameId then 1 else 0)
  {
    var before := ModsOf(mods, gameId);
    var after := ModsOf(mods[id := row], gameId);
    if row.game == gameId {
      assert after == before + {id};
    } else {
      assert after == before;
    }
  }
}
