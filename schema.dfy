/**
 * The catalogue tables of `sql_data_client.py` as an object whose fields are the tables.
 * Keyed tables (`mods`, `games`, `genres`) are maps from their primary key; tables without
 * a key (the link tables, `tags`, `resources_mods`) are sequences of rows in table order,
 * so a row inserted twice shows up twice.
 */
module Schema {

  /** A row of `mods`; the id is the key of `CatalogueDb.mods`. */
  datatype ModRow = ModRow(
    name: string,
    shortDescription: string,
    description: string,
    size: int,
    condition: int,       // 0 downloaded, 1 queued, 2 downloading
    dateCreation: int,
    dateUpdate: int,
    dateRequest: int,
    source: string,
    downloads: int,
    game: int)

  /** A row of `games`; the id is the key of `CatalogueDb.games`. */
  datatype GameRow = GameRow(
    name: string,
    kind: string,         // the `type` column
    logo: string,
    shortDescription: string,
    description: string,
    modsDownloads: int,
    modsCount: int,
    creationDate: int,
    source: string)

  /** A row of `tags` (`ModTag`). */
  datatype TagRow = TagRow(id: int, name: string)

  /** A row of `resources_mods` (`ResourceMod`), without its surrogate id. */
  datatype ResourceRow = ResourceRow(kind: string, url: string, dateEvent: int, ownerId: int)

  /** The catalogue database the storage service reads and writes through a session. */
  class CatalogueDb {
    var mods: map<int, ModRow>
    var games: map<int, GameRow>
    var genres: map<int, string>
    var tags: seq<TagRow>
    /** `unity_allowed_mods_tags`: (tag_id, game_id). */
    var allowedModsTags: seq<(int, int)>
    /** `unity_mods_tags`: (mod_id, tag_id). */
    var modsTags: seq<(int, int)>
    /** `unity_games_genres`: (game_id, genre_id). */
    var gameGenres: seq<(int, int)>
    /** `unity_mods_dependencies`: (mod_id, dependence). */
    var modsDependencies: seq<(int, int)>
    var resources: seq<ResourceRow>
    /** `games_mods`: (mod_id, game_id), the binding `checker` reads and clears. */
    var gamesMods: seq<(int, int)>

    constructor ()
      ensures mods == map[] && games == map[] && genres == map[]
      ensures tags == [] && allowedModsTags == [] && modsTags == [] && gameGenres == []
      ensures modsDependencies == [] && resources == [] && gamesMods == []
    {
      mods, games, genres := map[], map[], map[];
      tags, allowedModsTags, modsTags, gameGenres := [], [], [], [];
      modsDependencies, resources, gamesMods := [], [], [];
    }
  }

  /** `after` extends `before` and every row it appends differs from every row before it. */
  ghost predicate AppendsOnlyNew<T>(before: seq<T>, after: seq<T>) {
    && before <= after
    && forall i, j :: |before| <= i < |after| && 0 <= j < i ==> after[i] != after[j]
  }

  /** No row of `rows` occurs twice. */
  ghost predicate NoDuplicates<T>(rows: seq<T>) {
    forall i, j :: 0 <= j < i < |rows| ==> rows[i] != rows[j]
  }

  /** Appending only new rows keeps a table free of duplicates. */
  lemma AppendsOnlyNewKeepsNoDuplicates<T>(before: seq<T>, after: seq<T>)
    requires NoDuplicates(before) && AppendsOnlyNew(before, after)
    ensures NoDuplicates(after)
  {
    forall i, j | 0 <= j < i < |after| ensures after[i] != after[j] {
      if i < |before| {
        assert after[i] == before[i] && after[j] == before[j];
      }
    }
  }

  /** What `delete().where(<first column> == key)` leaves of a link table. */
  function WithoutKey(rows: seq<(int, int)>, key: int): (r: seq<(int, int)>)
    ensures forall row :: row in r <==> row in rows && row.0 != key
  {
    if rows == [] then []
    else (if rows[0].0 != key then [rows[0]] else []) + WithoutKey(rows[1..], key)
  }

  /** What `delete(ResourceMod).where(owner_id == owner)` leaves of `resources_mods`. */
  function WithoutOwner(rows: seq<ResourceRow>, owner: int): (r: seq<ResourceRow>)
    ensures forall row :: row in r <==> row in rows && row.ownerId != owner
  {
    if rows == [] then []
    else (if rows[0].ownerId != owner then [rows[0]] else []) + WithoutOwner(rows[1..], owner)
  }

  /** Rows a delete kept and nothing appended since are present exactly when they were before the delete. */
  lemma KeptAcrossAppend<T>(before: seq<T>, kept: seq<T>, after: seq<T>, row: T)
    requires kept <= after && (row in kept <==> row in before)
    requires forall i :: |kept| <= i < |after| ==> after[i] != row
    ensures row in after <==> row in before
  {
    if row in after {
      var i :| 0 <= i < |after| && after[i] == row;
      assert kept[i] == row;
    }
    if row in kept {
      var j :| 0 <= j < |kept| && kept[j] == row;
      assert after[j] == row;
    }
  }
}
