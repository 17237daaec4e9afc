/**
 * `sql_statistics_client.py`: request counters bucketed by hour and by day, updated by
 * upsert, and the memoised map from statistics types to their labels in one language.
 * The clock reads (`datetime.now()`, `date.today()`) are parameters.
 */
module StatisticsClient {
  import opened Wrappers

  /** A `datetime` as its calendar fields. */
  datatype DateTime = DateTime(year: int, month: int, day: int, hour: int, minute: int, second: int, microsecond: int)

  /** A `date`. */
  datatype Date = Date(year: int, month: int, day: int)

  /** `now.replace(minute=0, second=0, microsecond=0)`: the start of the hour `now` falls in. */
  function HourBucket(now: DateTime): (h: DateTime)
    ensures h.minute == 0 && h.second == 0 && h.microsecond == 0
  {
    now.(minute := 0, second := 0, microsecond := 0)
  }

  /** Two times share a bucket exactly when they agree on year, month, day and hour; a bucket is its own bucket. */
  lemma HourBucketSameHour(t1: DateTime, t2: DateTime)
    ensures HourBucket(t1) == HourBucket(t2) <==>
              t1.year == t2.year && t1.month == t2.month && t1.day == t2.day && t1.hour == t2.hour
    ensures HourBucket(HourBucket(t1)) == HourBucket(t1)
  {
  }

  // ---------------------------------------------------------------------------
  // Upsert counters

  /**
   * One upsert of counter `key`: an existing row's count rises by one, a missing row is
   * inserted with count 1, and no other row changes.
   */
  function Bump<K>(counts: map<K, nat>, key: K): (r: map<K, nat>)
    ensures r.Keys == counts.Keys + {key}
    ensures r[key] == (if key in counts then counts[key] else 0) + 1
    ensures forall k :: k in counts && k != key ==> r[k] == counts[k]
  {
    if key in counts then counts[key := counts[key] + 1] else counts[key := 1]
  }

  /** How many of `events` are `key`. */
  function Occurrences<K(==)>(events: seq<K>, key: K): nat {
    if events == [] then 0
    else Occurrences(events[..|events| - 1], key) + (if events[|events| - 1] == key then 1 else 0)
  }

  /** The counters after one upsert per event, in order. */
  function BumpAll<K>(counts: map<K, nat>, events: seq<K>): map<K, nat> {
    if events == [] then counts else Bump(BumpAll(counts, events[..|events| - 1]), events[|events| - 1])
  }

  /**
   * Starting from no rows, the counters after a run of upserts hold a row exactly for each
   * key that occurred, and its count is how often it occurred.
   */
  lemma {:induction false} BumpAllCountsOccurrences<K>(events: seq<K>)
    ensures forall k :: k in BumpAll(map[], events) <==> Occurrences(events, k) > 0
    ensures forall k :: k in BumpAll(map[], events) ==> BumpAll(map[], events)[k] == Occurrences(events, k)
  {
    if events != [] {
      BumpAllCountsOccurrences(events[..|events| - 1]);
    }
  }

  /** One row of `statistics_hour`: an hour bucket and a type. */
  type HourKey = (DateTime, string)

  /** One row of `statistics_day`: a day and a type. */
  type DayKey = (Date, string)

  /** The `statistics_hour` and `statistics_day` tables, as counts by key. */
  class StatisticsStore {
    var hourly: map<HourKey, nat>
    var daily: map<DayKey, nat>

    constructor ()
      ensures hourly == map[] && daily == map[]
    {
      hourly, daily := map[], map[];
    }

    /** `update_hour`: upsert of the row for the current hour bucket and `kind`. */
    method UpdateHour(now: DateTime, kind: string)
      modifies this`hourly
      ensures hourly == Bump(old(hourly), (HourBucket(now), kind))
    {
      var key := (HourBucket(now), kind);
      if key in hourly {
        var count := hourly[key];
        hourly := hourly[key := count + 1];
      } else {
        hourly := hourly[key := 1];
      }
    }

    /** `update_day`: upsert of the row for `today` and `kind`. */
    method UpdateDay(today: Date, kind: string)
      modifies this`daily
      ensures daily == Bump(old(daily), (today, kind))
    {
      var key := (today, kind);
      if key in daily {
        var count := daily[key];
        daily := daily[key := count + 1];
      } else {
        daily := daily[key := 1];
      }
    }

    /**
     * `update`: counts one event of `kind` in its hour bucket and in its day. `now` and
     * `today` are two separate clock reads.
     */
    method Update(now: DateTime, today: Date, kind: string)
      modifies this
      ensures hourly == Bump(old(hourly), (HourBucket(now), kind))
      ensures daily == Bump(old(daily), (today, kind))
    {
      UpdateHour(now, kind);
      UpdateDay(today, kind);
    }
  }

  /** Counting a run of events into the same hour yields, for every type, how often it occurred. */
  lemma HourlyCountsAfterEvents(now: DateTime, kinds: seq<string>, kind: string)
    ensures var counts := BumpAll(map[], seq(|kinds|, i requires 0 <= i < |kinds| => (HourBucket(now), kinds[i])));
            (HourBucket(now), kind) in counts ==> counts[(HourBucket(now), kind)] == Occurrences(kinds, kind)
  {
    var keys := seq(|kinds|, i requires 0 <= i < |kinds| => (HourBucket(now), kinds[i]));
    BumpAllCountsOccurrences(keys);
    OccurrencesOfTagged(HourBucket(now), kinds, kind);
  }

  /** Tagging every event with the same bucket does not change how often a type occurs. */
  lemma {:induction false} OccurrencesOfTagged<B>(bucket: B, kinds: seq<string>, kind: string)
    ensures Occurrences(seq(|kinds|, i requires 0 <= i < |kinds| => (bucket, kinds[i])), (bucket, kind))
            == Occurrences(kinds, kind)
  {
    if kinds != [] {
      var front := kinds[..|kinds| - 1];
      var tagged := seq(|kinds|, i requires 0 <= i < |kinds| => (bucket, kinds[i]));
      assert tagged[..|tagged| - 1] == seq(|front|, i requires 0 <= i < |front| => (bucket, front[i]));
      OccurrencesOfTagged(bucket, front, kind);
    }
  }

  // ---------------------------------------------------------------------------
  // cache_types_data

  /** `allow_language_type_map`: the languages with a fallback label, and that label. */
  const AllowLanguageTypeMap: map<string, string> := map["ru" := "Нет перевода 0_о"]

  /** `type_map`, in its order: each statistics type and its labels per language. */
  const TypeMap: seq<(string, map<string, string>)> := [
    ("start", map["ru" := "Запусков сервера"]),
    ("/statistics/info/type_map/", map["ru" := "Запросов к карте переводов"]),
    ("/statistics/info/all/", map["ru" := "Запросов к общей статистической сводке"]),
    ("/statistics/day/", map["ru" := "Запросов к ежедневной статистике"]),
    ("/statistics/hour/", map["ru" := "Запросов к ежечасовой статистике"]),
    ("/statistics/delay/", map["ru" := "Запросов к информации о задержке"]),
    ("/condition/mod/", map["ru" := "Запросов к состоянию нескольких модов"]),
    ("/info/mod/", map["ru" := "Запросов к информации о модах"]),
    ("/info/game/", map["ru" := "Запросов к информации об играх"]),
    ("/list/resources_mods/", map["ru" := "Запросов к ресурсам модов"]),
    ("/list/genres/", map["ru" := "Запросов к списку жанров"]),
    ("/list/tags/", map["ru" := "Запросов к списку тегов для модов"]),
    ("/list/games/", map["ru" := "Запросов к списку игр"]),
    ("/list/mods/", map["ru" := "Запросов к списку модов"]),
    ("/download/", map["ru" := "Запросов к локальной загрузке"]),
    ("mod_not_found_local", map["ru" := "При запросе к локальному моду, его не было найдено"]),
    ("files_sent", map["ru" := "Файлов отправлено с сервера"]),
    ("damaged_mod", map["ru" := "Обнаружено поврежденных записей"]),
    ("/download/steam/", map["ru" := "Запросов к загрузке со Steam"]),
    ("download_from_steam_error", map["ru" := "Загрузок со Steam окончено провалом"]),
    ("download_from_steam_ok", map["ru" := "Загрузок со Steam прошло успешно"]),
    ("updating_mod", map["ru" := "Модов поставлено на обновление"]),
    ("/", map["ru" := "Перенаправлений на документацию"])
  ]

  /** The label of one type in language `code`, or the language's fallback label. */
  function Label(labels: map<string, string>, code: string): string
    requires code in AllowLanguageTypeMap
  {
    if code in labels then labels[code] else AllowLanguageTypeMap[code]
  }

  /** The types named in `entries`. */
  function TypeNames(entries: seq<(string, map<string, string>)>): set<string> {
    set i | 0 <= i < |entries| :: entries[i].0
  }

  /** The map built from `entries` in order, each type mapped to its label in language `code`. */
  function LabelsOf(entries: seq<(string, map<string, string>)>, code: string): map<string, string>
    requires code in AllowLanguageTypeMap
  {
    if entries == [] then map[]
    else
      var last := entries[|entries| - 1];
      LabelsOf(entries[..|entries| - 1], code)[last.0 := Label(last.1, code)]
  }

  /** The built map has exactly the types of `entries` as keys, each with the label one of its entries gives. */
  lemma {:induction false} LabelsOfKeysAndValues(entries: seq<(string, map<string, string>)>, code: string)
    requires code in AllowLanguageTypeMap
    ensures LabelsOf(entries, code).Keys == TypeNames(entries)
    ensures forall k :: k in LabelsOf(entries, code) ==>
              exists i :: 0 <= i < |entries| && entries[i].0 == k && LabelsOf(entries, code)[k] == Label(entries[i].1, code)
  {
    if entries != [] {
      var front := entries[..|entries| - 1];
      var last := entries[|entries| - 1];
      LabelsOfKeysAndValues(front, code);
      assert TypeNames(entries) == TypeNames(front) + {last.0} by {
        forall k | k in TypeNames(entries) ensures k in TypeNames(front) + {last.0} {
          var i :| 0 <= i < |entries| && entries[i].0 == k;
          if i < |front| {
            assert front[i] == entries[i];
          }
        }
        forall k | k in TypeNames(front) ensures k in TypeNames(entries) {
          var i :| 0 <= i < |front| && front[i].0 == k;
          assert entries[i] == front[i];
        }
      }
      forall k | k in LabelsOf(entries, code)
        ensures exists i :: 0 <= i < |entries| && entries[i].0 == k && LabelsOf(entries, code)[k] == Label(entries[i].1, code)
      {
        if k == last.0 {
          assert entries[|entries| - 1] == last;
        } else {
          var i :| 0 <= i < |front| && front[i].0 == k && LabelsOf(front, code)[k] == Label(front[i].1, code);
          assert entries[i] == front[i];
        }
      }
    }
  }

  /** The map `cache_types_data` builds for `code`: every type with its label in that language. */
  function Labels(code: string): (r: map<string, string>)
    requires code in AllowLanguageTypeMap
  {
    LabelsOf(TypeMap, code)
  }

  /**
   * The module-level `cache` of `cache_types_data`, together with the `type_map` it is
   * built from (`TypeMap`, as the constructor sets it).
   */
  class TypeLabelCache {
    const typeMap: seq<(string, map<string, string>)>
    var cache: map<string, map<string, string>>

    /** Every cached map is the one built from `typeMap` for its language; `typeMap` has entries. */
    ghost predicate Valid()
      reads this
    {
      && typeMap != []
      && forall code :: code in cache ==> code in AllowLanguageTypeMap && cache[code] == LabelsOf(typeMap, code)
    }

    constructor ()
      ensures Valid() && cache == map[] && typeMap == TypeMap
    {
      typeMap := TypeMap;
      cache := map[];
    }

    /**
     * `cache_types_data`: the cached map when there is a non-empty one for `code`;
     * otherwise the map is built type by type and cached. Building raises (`KeyError`) for
     * a language without a fallback label, since the fallback is looked up eagerly for
     * every type, whether or not the type has a label in that language.
     */
    method CacheTypesData(code: string) returns (r: Result<map<string, string>, string>)
      requires Valid()
      modifies this
      ensures Valid()
      ensures code in old(cache) && old(cache)[code] != map[] ==> r == Ok(old(cache)[code]) && cache == old(cache)
      ensures code !in AllowLanguageTypeMap ==> r.Err? && cache == old(cache)
      ensures code in AllowLanguageTypeMap ==>
                r == Ok(LabelsOf(typeMap, code)) && cache == old(cache)[code := LabelsOf(typeMap, code)]
    {
      if code in cache && cache[code] != map[] {
        assert cache == cache[code := cache[code]];
        return Ok(cache[code]);
      }
      r := BuildLabels(typeMap, code);
      if r.Ok? {
        cache := cache[code := r.value];
      }
    }
  }

  /**
   * The loop of `cache_types_data` over the entries of `type_map`: each type gets its label,
   * and the first entry raises (`KeyError`) for a language without a fallback label.
   */
  method BuildLabels(entries: seq<(string, map<string, string>)>, code: string) returns (r: Result<map<string, string>, string>)
    ensures code in AllowLanguageTypeMap ==> r == Ok(LabelsOf(entries, code))
    ensures code !in AllowLanguageTypeMap ==> (r.Err? <==> entries != [])
  {
    var output: map<string, string> := map[];
    for i := 0 to |entries|
      invariant code in AllowLanguageTypeMap ==> output == LabelsOf(entries[..i], code)
      invariant code !in AllowLanguageTypeMap ==> i == 0
    {
      if code !in AllowLanguageTypeMap {
        return Err("KeyError: " + code);
      }
      assert entries[..i + 1][..i] == entries[..i];
      output := output[entries[i].0 := Label(entries[i].1, code)];
    }
    assert entries[..|entries|] == entries;
    return Ok(output);
  }

  /**
   * A built map is never empty, so once a language is cached every later call answers the
   * cached map without rebuilding it.
   */
  lemma LabelsAreNeverEmpty(code: string)
    requires code in AllowLanguageTypeMap
    ensures Labels(code) != map[]
    ensures Labels(code).Keys == TypeNames(TypeMap)
  {
    LabelsOfKeysAndValues(TypeMap, code);
    assert TypeMap[0].0 in TypeNames(TypeMap);
  }
}
