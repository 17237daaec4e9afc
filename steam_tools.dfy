/**
 * `steam_tools.py`: the dependency ids and screenshot URLs taken from a workshop page, and
 * the upkeep of a mod's rows in the catalogue tables (tags, dependencies, resources, its
 * game and the game's genres, and the record check before a download).
 *
 * The Steam API answers (`get_mod`, `get_app`) and the fetched page are inputs: the page
 * as the `href` of every link in the required-items containers and the `onclick` of the
 * link in every screenshot holder, in document order, `None` where the attribute (or the
 * link) is missing.
 */
module SteamTools {
  import opened Wrappers
  import opened PyStr
  import opened Schema
  import Tool

  // ---------------------------------------------------------------------------
  // get_html_data

  /** The prefix `get_html_data` strips from a dependency link. */
  const WorkshopPrefix: string := "https://steamcommunity.com/workshop/filedetails/?id="

  /** The id of a dependency link: the link without the workshop prefix, when that is all digits. */
  function DependencyId(href: string): (r: Option<int>)
    ensures r.Some? <==> IsDigits(RemovePrefix(href, WorkshopPrefix))
    ensures r.Some? ==> r.value >= 0
  {
    var out := RemovePrefix(href, WorkshopPrefix);
    if IsDigits(out) then Some(DigitsValue(out)) else None
  }

  /** A link to workshop item `n` yields `n`. */
  lemma DependencyIdOfWorkshopLink(n: nat)
    ensures DependencyId(WorkshopPrefix + NatToString(n)) == Some(n)
  {
    NatToStringValue(n);
    assert RemovePrefix(WorkshopPrefix + NatToString(n), WorkshopPrefix) == NatToString(n);
  }

  /** A link whose remainder after the prefix is not all digits is dropped. */
  lemma DependencyIdNeedsDigits(href: string)
    requires WorkshopPrefix <= href
    requires href == WorkshopPrefix || exists i :: |WorkshopPrefix| <= i < |href| && !IsDigit(href[i])
    ensures DependencyId(href) == None
  {
    var out := RemovePrefix(href, WorkshopPrefix);
    assert href == WorkshopPrefix + out;
    if href != WorkshopPrefix {
      var i :| |WorkshopPrefix| <= i < |href| && !IsDigit(href[i]);
      assert out[i - |WorkshopPrefix|] == href[i];
    }
  }

  /** The screenshot URL in an `onclick` value: between its first and last `'`, when that starts with `https://`. */
  function ScreenshotUrl(onclick: string): (r: Option<string>)
    ensures r.Some? ==> "https://" <= r.value && |r.value| <= |onclick|
  {
    var url := Slice(onclick, Find(onclick, '\'') + 1, RFind(onclick, '\''));
    if "https://" <= url then Some(url) else None
  }

  /** A URL between the first and the last quote is taken whole, quotes inside it included. */
  lemma ScreenshotUrlBetweenQuotes(before: string, url: string, after: string)
    requires '\'' !in before && '\'' !in after
    requires "https://" <= url
    ensures ScreenshotUrl(before + "'" + url + "'" + after) == Some(url)
  {
    var s := before + "'" + url + "'" + after;
    var last := |before| + 1 + |url|;
    QuotePositions(before, url, after);
    assert |before| + 1 <= last <= |s|;
    assert SliceBound(|before| + 1, |s|) == |before| + 1 && SliceBound(last, |s|) == last;
    var sliced := Slice(s, Find(s, '\'') + 1, RFind(s, '\''));
    assert sliced == url;
  }

  /** Where the first and the last quote of `before + "'" + url + "'" + after` are, and what lies between. */
  lemma QuotePositions(before: string, url: string, after: string)
    requires '\'' !in before && '\'' !in after
    ensures var s := before + "'" + url + "'" + after;
            && Find(s, '\'') == |before|
            && RFind(s, '\'') == |before| + 1 + |url|
            && s[|before| + 1..|before| + 1 + |url|] == url
  {
    var s := before + "'" + url + "'" + after;
    var last := |before| + 1 + |url|;
    assert s[|before|] == '\'';
    assert forall j :: 0 <= j < |before| ==> s[j] == before[j];
    assert s[last] == '\'';
    assert forall j :: last < j < |s| ==> s[j] == after[j - last - 1];
    assert s[|before| + 1..last] == url;
  }

  /**
   * Without any quote, the slice runs from the start to one before the end, so the value
   * minus its last character is taken when it starts with `https://`.
   */
  lemma ScreenshotUrlWithoutQuotes(onclick: string)
    requires '\'' !in onclick && |onclick| > 8
    ensures ScreenshotUrl(onclick) == if "https://" <= onclick then Some(onclick[..|onclick| - 1]) else None
  {
    var url := onclick[..|onclick| - 1];
    assert Slice(onclick, 0, -1) == url;
    assert "https://" <= url <==> "https://" <= onclick by {
      assert forall k :: 0 <= k < 8 ==> url[k] == onclick[k];
    }
  }

  /** The index of the first missing attribute, or the length when none is missing. */
  function FirstMissing<T>(xs: seq<Option<T>>): (k: nat)
    ensures k <= |xs|
    ensures forall j :: 0 <= j < k ==> xs[j].Some?
    ensures k < |xs| ==> xs[k].None?
  {
    if xs == [] || xs[0].None? then 0 else 1 + FirstMissing(xs[1..])
  }

  /** `FirstMissing` is the one index below which everything is present and at which something is missing. */
  lemma {:induction false} FirstMissingAt<T>(xs: seq<Option<T>>, k: nat)
    requires k <= |xs|
    requires forall j :: 0 <= j < k ==> xs[j].Some?
    requires k < |xs| ==> xs[k].None?
    ensures FirstMissing(xs) == k
  {
    if k > 0 {
      FirstMissingAt(xs[1..], k - 1);
    }
  }

  /** What `extract` keeps of the attributes of `xs`, in order (all of `xs` are present). */
  function Collect<T>(xs: seq<Option<string>>, extract: string -> Option<T>): (r: seq<T>)
    requires forall j :: 0 <= j < |xs| ==> xs[j].Some?
    ensures |r| <= |xs|
  {
    if xs == [] then []
    else
      var last := extract(xs[|xs| - 1].value);
      Collect(xs[..|xs| - 1], extract) + (if last.Some? then [last.value] else [])
  }

  /**
   * What one extraction loop of `get_html_data` collects: the items `extract` keeps, up to
   * the first missing attribute, where the loop raises and its `except` keeps what it has.
   */
  function Extracted<T>(xs: seq<Option<string>>, extract: string -> Option<T>): seq<T> {
    Collect(xs[..FirstMissing(xs)], extract)
  }

  /** An item is collected exactly when `extract` keeps it from some present attribute. */
  lemma {:induction false} CollectMembers<T>(xs: seq<Option<string>>, extract: string -> Option<T>, item: T)
    requires forall j :: 0 <= j < |xs| ==> xs[j].Some?
    ensures item in Collect(xs, extract) <==> exists j :: 0 <= j < |xs| && extract(xs[j].value) == Some(item)
  {
    if xs != [] {
      var front := xs[..|xs| - 1];
      CollectMembers(front, extract, item);
      assert forall j :: 0 <= j < |front| ==> front[j] == xs[j];
    }
  }

  /** Collecting over two runs of attributes is collecting over each in turn. */
  lemma {:induction false} CollectConcat<T>(xs: seq<Option<string>>, ys: seq<Option<string>>, extract: string -> Option<T>)
    requires forall j :: 0 <= j < |xs| ==> xs[j].Some?
    requires forall j :: 0 <= j < |ys| ==> ys[j].Some?
    ensures Collect(xs + ys, extract) == Collect(xs, extract) + Collect(ys, extract)
    decreases |ys|
  {
    if ys == [] {
      assert xs + ys == xs;
    } else {
      assert (xs + ys)[..|xs + ys| - 1] == xs + ys[..|ys| - 1];
      CollectConcat(xs, ys[..|ys| - 1], extract);
    }
  }

  /**
   * A missing attribute ends the loop: the page yields what the attributes before it yield,
   * whatever follows, and a page extended after a missing attribute yields the same.
   */
  lemma ExtractedStopsAtMissing<T>(good: seq<Option<string>>, rest: seq<Option<string>>, extract: string -> Option<T>)
    requires forall j :: 0 <= j < |good| ==> good[j].Some?
    ensures Extracted(good + [None] + rest, extract) == Collect(good, extract)
  {
    var xs := good + [None] + rest;
    assert xs[|good|].None?;
    assert forall j :: 0 <= j < |good| ==> xs[j] == good[j];
    FirstMissingAt(xs, |good|);
    assert xs[..|good|] == good;
  }

  /** A fetched page as `get_html_data` reads it. */
  datatype HtmlPage = HtmlPage(hrefs: seq<Option<string>>, onclicks: seq<Option<string>>)

  /** The result of `get_html_data`: the `dependencies` and `screenshots` lists. */
  datatype HtmlData = HtmlData(dependencies: seq<int>, screenshots: seq<string>)

  /** One extraction loop: `extract` applied to the attributes in order, stopping at the first missing one. */
  method CollectUntilMissing<T>(xs: seq<Option<string>>, extract: string -> Option<T>) returns (items: seq<T>)
    ensures items == Extracted(xs, extract)
  {
    items := [];
    var i := 0;
    while i < |xs|
      invariant 0 <= i <= |xs|
      invariant forall j :: 0 <= j < i ==> xs[j].Some?
      invariant items == Collect(xs[..i], extract)
    {
      if xs[i].None? {
        break;
      }
      var item := extract(xs[i].value);
      assert xs[..i + 1][..i] == xs[..i];
      if item.Some? {
        items := items + [item.value];
      }
      i := i + 1;
    }
    FirstMissingAt(xs, i);
  }

  /**
   * `get_html_data`: both lists empty when the page could not be fetched; otherwise the
   * dependency ids and the screenshot URLs, each loop stopping at its first missing attribute.
   */
  method GetHtmlData(page: Option<HtmlPage>) returns (r: HtmlData)
    ensures page.None? ==> r == HtmlData([], [])
    ensures page.Some? ==> r.dependencies == Extracted(page.value.hrefs, DependencyId)
    ensures page.Some? ==> r.screenshots == Extracted(page.value.onclicks, ScreenshotUrl)
  {
    if page.None? {
      return HtmlData([], []);
    }
    var dependencies := CollectUntilMissing(page.value.hrefs, DependencyId);
    var screenshots := CollectUntilMissing(page.value.onclicks, ScreenshotUrl);
    r := HtmlData(dependencies, screenshots);
  }

  /** Every collected dependency id is non-negative, and every screenshot URL starts with `https://`. */
  lemma ExtractedItemsAreWellFormed(page: HtmlPage)
    ensures forall d :: d in Extracted(page.hrefs, DependencyId) ==> d >= 0
    ensures forall u :: u in Extracted(page.onclicks, ScreenshotUrl) ==> "https://" <= u
  {
    var hrefs := page.hrefs[..FirstMissing(page.hrefs)];
    var onclicks := page.onclicks[..FirstMissing(page.onclicks)];
    forall d | d in Extracted(page.hrefs, DependencyId) ensures d >= 0 {
      CollectMembers(hrefs, DependencyId, d);
    }
    forall u | u in Extracted(page.onclicks, ScreenshotUrl) ensures "https://" <= u {
      CollectMembers(onclicks, ScreenshotUrl, u);
    }
  }

  // ---------------------------------------------------------------------------
  // set_tags

  /** The id of the first `tags` row named `name` (`filter_by(name=...).first()`). */
  function TagIdOf(tags: seq<TagRow>, name: string): (r: Option<int>)
    ensures r.None? <==> forall i :: 0 <= i < |tags| ==> tags[i].name != name
    ensures r.Some? ==> TagRow(r.value, name) in tags
  {
    if tags == [] then None
    else if tags[0].name == name then Some(tags[0].id)
    else
      var r := TagIdOf(tags[1..], name);
      assert forall i :: 1 <= i < |tags| ==> tags[i] == tags[1..][i - 1];
      r
  }

  /** Appending a row keeps every name's id, and gives a name that had none the new row's id. */
  lemma {:induction false} TagIdOfAppend(tags: seq<TagRow>, row: TagRow, name: string)
    ensures TagIdOf(tags + [row], name) ==
              if TagIdOf(tags, name).Some? then TagIdOf(tags, name)
              else if row.name == name then Some(row.id) else None
  {
    if tags == [] {
      assert tags + [row] == [row];
    } else {
      assert (tags + [row])[1..] == tags[1..] + [row];
      TagIdOfAppend(tags[1..], row, name);
    }
  }

  /** The id SQLite gives a new `tags` row: one more than the largest id, 1 for an empty table. */
  function NextTagId(tags: seq<TagRow>): (r: int)
    ensures forall i :: 0 <= i < |tags| ==> tags[i].id < r
  {
    if tags == [] then 1
    else
      var r := NextTagId(tags[..|tags| - 1]);
      var last := tags[|tags| - 1].id + 1;
      var m := if r > last then r else last;
      assert forall i :: 0 <= i < |tags| - 1 ==> tags[i] == tags[..|tags| - 1][i];
      m
  }

  /** Tag `name` exists, is allowed for game `gameId` and is linked to mod `modId`. */
  predicate TagLinked(tags: seq<TagRow>, allowed: seq<(int, int)>, modTags: seq<(int, int)>,
                      modId: int, gameId: int, name: string)
  {
    && TagIdOf(tags, name).Some?
    && (TagIdOf(tags, name).value, gameId) in allowed
    && (modId, TagIdOf(tags, name).value) in modTags
  }

  /** `id` is the id of one of the tags named in `names`. */
  ghost predicate NamedTag(tags: seq<TagRow>, id: int, names: seq<string>) {
    exists k :: 0 <= k < |names| && TagIdOf(tags, names[k]) == Some(id)
  }

  /** `after` extends `before` by rows for names in `names` that no earlier row has, with ids above every earlier id. */
  ghost predicate NewTagsOnly(before: seq<TagRow>, after: seq<TagRow>, names: seq<string>) {
    && before <= after
    && (forall i :: |before| <= i < |after| ==> after[i].name in names)
    && (forall i, j :: |before| <= i < |after| && 0 <= j < i ==>
          after[j].name != after[i].name && after[j].id < after[i].id)
  }

  /** Every name that had a tag id in `tags` has the same one in `tags'`. */
  ghost predicate KeepsIds(tags: seq<TagRow>, tags': seq<TagRow>) {
    forall name :: TagIdOf(tags, name).Some? ==> TagIdOf(tags', name) == TagIdOf(tags, name)
  }

  /** Adding a row under a new name keeps every id and gives the name the row's id. */
  lemma NewTagKeepsIds(tags: seq<TagRow>, row: TagRow)
    requires TagIdOf(tags, row.name).None?
    ensures KeepsIds(tags, tags + [row])
    ensures TagIdOf(tags + [row], row.name) == Some(row.id)
  {
    TagIdOfAppend(tags, row, row.name);
    forall name | TagIdOf(tags, name).Some?
      ensures TagIdOf(tags + [row], name) == TagIdOf(tags, name)
    {
      TagIdOfAppend(tags, row, name);
    }
  }

  /** A row under a new name, with an id above every id so far, keeps `NewTagsOnly`. */
  lemma NewTagsOnlyAppend(start: seq<TagRow>, tags: seq<TagRow>, row: TagRow, names: seq<string>)
    requires NewTagsOnly(start, tags, names) && row.name in names
    requires TagIdOf(tags, row.name).None?
    requires forall i :: 0 <= i < |tags| ==> tags[i].id < row.id
    ensures NewTagsOnly(start, tags + [row], names)
  {
    var after := tags + [row];
    forall i, j | |start| <= i < |after| && 0 <= j < i
      ensures after[j].name != after[i].name && after[j].id < after[i].id
    {
      if i == |tags| {
        assert after[j] == tags[j];
      } else {
        assert after[i] == tags[i] && after[j] == tags[j];
      }
    }
  }

  /** Links made so far survive when ids are kept and link tables only grow. */
  lemma LinksSurvive(tags: seq<TagRow>, tags': seq<TagRow>, allowed: seq<(int, int)>, allowed': seq<(int, int)>,
                     modTags: seq<(int, int)>, modTags': seq<(int, int)>,
                     modId: int, gameId: int, names: seq<string>, n: nat)
    requires KeepsIds(tags, tags') && allowed <= allowed' && modTags <= modTags' && n <= |names|
    requires forall k :: 0 <= k < n ==> TagLinked(tags, allowed, modTags, modId, gameId, names[k])
    ensures forall k :: 0 <= k < n ==> TagLinked(tags', allowed', modTags', modId, gameId, names[k])
  {
    forall k | 0 <= k < n
      ensures TagLinked(tags', allowed', modTags', modId, gameId, names[k])
    {
      var id := TagIdOf(tags, names[k]).value;
      assert (id, gameId) in allowed && (modId, id) in modTags;
    }
  }

  /** A tag named in `names` stays named when ids are kept. */
  lemma NamedTagSurvives(tags: seq<TagRow>, tags': seq<TagRow>, id: int, names: seq<string>)
    requires KeepsIds(tags, tags') && NamedTag(tags, id, names)
    ensures NamedTag(tags', id, names)
  {
    var k :| 0 <= k < |names| && TagIdOf(tags, names[k]) == Some(id);
    assert TagIdOf(tags', names[k]) == Some(id);
  }

  /**
   * One step of `set_tags`: the tag `name` is found or added, then allowed for the game and
   * linked to the mod unless those rows exist.
   */
  method LinkTag(db: CatalogueDb, modId: int, gameId: int, name: string,
                 ghost names: seq<string>, ghost start: seq<TagRow>) returns (id: int)
    requires name in names && NewTagsOnly(start, db.tags, names)
    modifies db`tags, db`allowedModsTags, db`modsTags
    ensures TagIdOf(db.tags, name) == Some(id)
    ensures KeepsIds(old(db.tags), db.tags)
    ensures NewTagsOnly(start, db.tags, names)
    ensures db.allowedModsTags == old(db.allowedModsTags) + (if (id, gameId) in old(db.allowedModsTags) then [] else [(id, gameId)])
    ensures db.modsTags == old(db.modsTags) + (if (modId, id) in old(db.modsTags) then [] else [(modId, id)])
  {
    var found := TagIdOf(db.tags, name);
    if found.None? {
      id := NextTagId(db.tags);
      NewTagKeepsIds(db.tags, TagRow(id, name));
      NewTagsOnlyAppend(start, db.tags, TagRow(id, name), names);
      db.tags := db.tags + [TagRow(id, name)];
    } else {
      id := found.value;
    }
    if (id, gameId) !in db.allowedModsTags {
      db.allowedModsTags := db.allowedModsTags + [(id, gameId)];
    } else {
      assert db.allowedModsTags + [] == db.allowedModsTags;
    }
    if (modId, id) !in db.modsTags {
      db.modsTags := db.modsTags + [(modId, id)];
    } else {
      assert db.modsTags + [] == db.modsTags;
    }
  }

  /**
   * Rows appended to a link table since `start` hold `other` in one column and, in the
   * other (the first when `tagFirst`), the id of a tag named in `names`.
   */
  ghost predicate AppendedNameTags(start: seq<(int, int)>, rows: seq<(int, int)>, tags: seq<TagRow>,
                                   names: seq<string>, tagFirst: bool, other: int)
  {
    forall i :: |start| <= i < |rows| ==>
      if tagFirst then rows[i].1 == other && NamedTag(tags, rows[i].0, names)
      else rows[i].0 == other && NamedTag(tags, rows[i].1, names)
  }

  /** Appending a row for a named tag keeps `AppendedNameTags` once ids are kept. */
  lemma AppendedNameTagsStep(start: seq<(int, int)>, rows: seq<(int, int)>, more: seq<(int, int)>,
                             tags: seq<TagRow>, tags': seq<TagRow>, names: seq<string>, tagFirst: bool, other: int)
    requires start <= rows && AppendedNameTags(start, rows, tags, names, tagFirst, other) && KeepsIds(tags, tags')
    requires forall i :: 0 <= i < |more| ==>
               if tagFirst then more[i].1 == other && NamedTag(tags', more[i].0, names)
               else more[i].0 == other && NamedTag(tags', more[i].1, names)
    ensures AppendedNameTags(start, rows + more, tags', names, tagFirst, other)
  {
    var after := rows + more;
    forall i | |start| <= i < |after|
      ensures if tagFirst then after[i].1 == other && NamedTag(tags', after[i].0, names)
              else after[i].0 == other && NamedTag(tags', after[i].1, names)
    {
      if i < |rows| {
        assert after[i] == rows[i];
        NamedTagSurvives(tags, tags', if tagFirst then rows[i].0 else rows[i].1, names);
      } else {
        assert after[i] == more[i - |rows|];
      }
    }
  }

  /** What `set_tags` has achieved once the first `n` names are handled. */
  ghost predicate SetTagsDone(tags0: seq<TagRow>, allowed0: seq<(int, int)>, modTags0: seq<(int, int)>,
                              tags: seq<TagRow>, allowed: seq<(int, int)>, modTags: seq<(int, int)>,
                              modId: int, gameId: int, names: seq<string>, n: nat)
  {
    && n <= |names|
    && (forall k :: 0 <= k < n ==> TagLinked(tags, allowed, modTags, modId, gameId, names[k]))
    && NewTagsOnly(tags0, tags, names)
    && AppendsOnlyNew(allowed0, allowed)
    && AppendsOnlyNew(modTags0, modTags)
    && AppendedNameTags(allowed0, allowed, tags, names, true, gameId)
    && AppendedNameTags(modTags0, modTags, tags, names, false, modId)
  }

  /** One `LinkTag` step extends `SetTagsDone` by one name. */
  lemma SetTagsStep(tags0: seq<TagRow>, allowed0: seq<(int, int)>, modTags0: seq<(int, int)>,
                    tags: seq<TagRow>, allowed: seq<(int, int)>, modTags: seq<(int, int)>,
                    tags': seq<TagRow>, allowed': seq<(int, int)>, modTags': seq<(int, int)>,
                    modId: int, gameId: int, names: seq<string>, n: nat, id: int)
    requires SetTagsDone(tags0, allowed0, modTags0, tags, allowed, modTags, modId, gameId, names, n)
    requires n < |names| && TagIdOf(tags', names[n]) == Some(id)
    requires KeepsIds(tags, tags') && NewTagsOnly(tags0, tags', names)
    requires allowed' == allowed + (if (id, gameId) in allowed then [] else [(id, gameId)])
    requires modTags' == modTags + (if (modId, id) in modTags then [] else [(modId, id)])
    ensures SetTagsDone(tags0, allowed0, modTags0, tags', allowed', modTags', modId, gameId, names, n + 1)
  {
    assert NamedTag(tags', id, names) by {
      assert TagIdOf(tags', names[n]) == Some(id);
    }
    LinksSurvive(tags, tags', allowed, allowed', modTags, modTags', modId, gameId, names, n);
    assert TagLinked(tags', allowed', modTags', modId, gameId, names[n]);
    TableStep(allowed0, allowed, allowed', tags, tags', names, true, gameId, id);
    TableStep(modTags0, modTags, modTags', tags, tags', names, false, modId, id);
  }

  /** Adding the link of one named tag to one table, unless it is there, keeps that table's part of `SetTagsDone`. */
  lemma TableStep(start: seq<(int, int)>, rows: seq<(int, int)>, rows': seq<(int, int)>,
                  tags: seq<TagRow>, tags': seq<TagRow>, names: seq<string>, tagFirst: bool, other: int, id: int)
    requires AppendsOnlyNew(start, rows) && AppendedNameTags(start, rows, tags, names, tagFirst, other)
    requires KeepsIds(tags, tags') && NamedTag(tags', id, names)
    requires var pair := if tagFirst then (id, other) else (other, id);
             rows' == rows + (if pair in rows then [] else [pair])
    ensures AppendsOnlyNew(start, rows') && AppendedNameTags(start, rows', tags', names, tagFirst, other)
  {
    var pair := if tagFirst then (id, other) else (other, id);
    var more := if pair in rows then [] else [pair];
    AppendedNameTagsStep(start, rows, more, tags, tags', names, tagFirst, other);
    if pair !in rows {
      AppendNewPair(start, rows, pair);
    } else {
      assert rows' == rows;
    }
  }

  /**
   * `set_tags`: every tag named in the mod's data is created when missing, allowed for the
   * mod's game and linked to the mod; a row is added to a table only when the table does
   * not have it yet.
   */
  method SetTags(db: CatalogueDb, modId: int, gameId: int, tagNames: seq<string>)
    modifies db`tags, db`allowedModsTags, db`modsTags
    ensures SetTagsDone(old(db.tags), old(db.allowedModsTags), old(db.modsTags),
                        db.tags, db.allowedModsTags, db.modsTags, modId, gameId, tagNames, |tagNames|)
  {
    var i := 0;
    while i < |tagNames|
      invariant SetTagsDone(old(db.tags), old(db.allowedModsTags), old(db.modsTags),
                            db.tags, db.allowedModsTags, db.modsTags, modId, gameId, tagNames, i)
    {
      ghost var tags, allowed, modTags := db.tags, db.allowedModsTags, db.modsTags;
      var id := LinkTag(db, modId, gameId, tagNames[i], tagNames, old(db.tags));
      SetTagsStep(old(db.tags), old(db.allowedModsTags), old(db.modsTags), tags, allowed, modTags,
                  db.tags, db.allowedModsTags, db.modsTags, modId, gameId, tagNames, i, id);
      i := i + 1;
    }
  }

  // ---------------------------------------------------------------------------
  // set_dependence_and_screenshots

  /** The URLs of the `resources_mods` rows. */
  function Urls(resources: seq<ResourceRow>): set<string> {
    set i | 0 <= i < |resources| :: resources[i].url
  }

  /** `after` extends `before` by rows whose URL no earlier row has. */
  ghost predicate NewUrlsOnly(before: seq<ResourceRow>, after: seq<ResourceRow>) {
    && before <= after
    && forall i, j :: |before| <= i < |after| && 0 <= j < i ==> after[j].url != after[i].url
  }

  /** Adding a row keeps every URL and adds the row's own. */
  lemma UrlsAppend(resources: seq<ResourceRow>, row: ResourceRow)
    ensures Urls(resources + [row]) == Urls(resources) + {row.url}
  {
    var after := resources + [row];
    assert after[|resources|].url == row.url;
    forall u | u in Urls(resources) ensures u in Urls(after) {
      var i :| 0 <= i < |resources| && resources[i].url == u;
      assert after[i].url == u;
    }
  }

  /** A row whose URL is not yet in the table is new to every earlier row. */
  lemma NewUrlAppend(before: seq<ResourceRow>, resources: seq<ResourceRow>, row: ResourceRow)
    requires NewUrlsOnly(before, resources) && row.url !in Urls(resources)
    ensures NewUrlsOnly(before, resources + [row])
  {
    var after := resources + [row];
    forall i, j | |before| <= i < |after| && 0 <= j < i
      ensures after[j].url != after[i].url
    {
      if i == |resources| {
        assert after[j] == resources[j];
      } else {
        assert after[i] == resources[i] && after[j] == resources[j];
      }
    }
  }

  /** A pair not yet in a link table keeps it free of repeated appends. */
  lemma AppendNewPair(before: seq<(int, int)>, rows: seq<(int, int)>, pair: (int, int))
    requires AppendsOnlyNew(before, rows) && pair !in rows
    ensures AppendsOnlyNew(before, rows + [pair])
  {
    var after := rows + [pair];
    forall i, j | |before| <= i < |after| && 0 <= j < i
      ensures after[i] != after[j]
    {
      if i == |rows| {
        assert after[j] == rows[j];
      } else {
        assert after[i] == rows[i] && after[j] == rows[j];
      }
    }
  }

  /** The dependency half of `set_dependence_and_screenshots`. */
  method AddDependencies(db: CatalogueDb, modId: int, dependencies: seq<int>)
    modifies db`modsDependencies
    ensures forall d :: d in dependencies ==> (modId, d) in db.modsDependencies
    ensures AppendsOnlyNew(old(db.modsDependencies), db.modsDependencies)
    ensures forall i :: |old(db.modsDependencies)| <= i < |db.modsDependencies| ==>
              db.modsDependencies[i].0 == modId && db.modsDependencies[i].1 in dependencies
  {
    var i := 0;
    while i < |dependencies|
      invariant 0 <= i <= |dependencies|
      invariant forall k :: 0 <= k < i ==> (modId, dependencies[k]) in db.modsDependencies
      invariant AppendsOnlyNew(old(db.modsDependencies), db.modsDependencies)
      invariant forall j :: |old(db.modsDependencies)| <= j < |db.modsDependencies| ==>
                  db.modsDependencies[j].0 == modId && db.modsDependencies[j].1 in dependencies
    {
      var pair := (modId, dependencies[i]);
      if pair !in db.modsDependencies {
        AppendNewPair(old(db.modsDependencies), db.modsDependencies, pair);
        db.modsDependencies := db.modsDependencies + [pair];
      }
      i := i + 1;
    }
  }

  /**
   * A row `set_dependence_and_screenshots` records for the mod at time `now`: a screenshot
   * of the page, or the preview image as the logo when no screenshot has its URL (the
   * screenshots are recorded first, so such a URL is already known by then).
   */
  predicate RecordedResource(row: ResourceRow, modId: int, previewUrl: string, screenshots: seq<string>, now: int) {
    && row.ownerId == modId && row.dateEvent == now
    && ((row.kind == "screenshot" && row.url in screenshots)
        || (row.kind == "logo" && row.url == previewUrl && previewUrl !in screenshots))
  }

  /** The resource half of `set_dependence_and_screenshots`: screenshots, then the logo. */
  method AddResources(db: CatalogueDb, modId: int, previewUrl: string, screenshots: seq<string>, now: int)
    modifies db`resources
    ensures forall u :: u in screenshots ==> u in Urls(db.resources)
    ensures previewUrl in Urls(db.resources)
    ensures NewUrlsOnly(old(db.resources), db.resources)
    ensures forall i :: |old(db.resources)| <= i < |db.resources| ==>
              RecordedResource(db.resources[i], modId, previewUrl, screenshots, now)
  {
    var i := 0;
    while i < |screenshots|
      invariant 0 <= i <= |screenshots|
      invariant forall k :: 0 <= k < i ==> screenshots[k] in Urls(db.resources)
      invariant NewUrlsOnly(old(db.resources), db.resources)
      invariant forall j :: |old(db.resources)| <= j < |db.resources| ==>
                  db.resources[j].ownerId == modId && db.resources[j].dateEvent == now
                  && db.resources[j].kind == "screenshot" && db.resources[j].url in screenshots
    {
      var row := ResourceRow("screenshot", screenshots[i], now, modId);
      UrlsAppend(db.resources, row);
      if screenshots[i] !in Urls(db.resources) {
        NewUrlAppend(old(db.resources), db.resources, row);
        db.resources := db.resources + [row];
      }
      i := i + 1;
    }
    var logo := ResourceRow("logo", previewUrl, now, modId);
    UrlsAppend(db.resources, logo);
    if previewUrl !in Urls(db.resources) {
      assert previewUrl !in screenshots;
      NewUrlAppend(old(db.resources), db.resources, logo);
      db.resources := db.resources + [logo];
    }
  }

  /**
   * `set_dependence_and_screenshots`, given what `get_html_data` found: each dependency is
   * recorded once for the mod; each screenshot, then the preview image as the logo, is
   * recorded for the mod unless some resource already has its URL, whichever mod owns it.
   */
  method SetDependenceAndScreenshots(db: CatalogueDb, modId: int, previewUrl: string, html: HtmlData, now: int)
    modifies db`modsDependencies, db`resources
    ensures forall d :: d in html.dependencies ==> (modId, d) in db.modsDependencies
    ensures AppendsOnlyNew(old(db.modsDependencies), db.modsDependencies)
    ensures forall i :: |old(db.modsDependencies)| <= i < |db.modsDependencies| ==>
              db.modsDependencies[i].0 == modId && db.modsDependencies[i].1 in html.dependencies
    ensures forall u :: u in html.screenshots ==> u in Urls(db.resources)
    ensures previewUrl in Urls(db.resources)
    ensures NewUrlsOnly(old(db.resources), db.resources)
    ensures forall i :: |old(db.resources)| <= i < |db.resources| ==>
              RecordedResource(db.resources[i], modId, previewUrl, html.screenshots, now)
  {
    AddDependencies(db, modId, html.dependencies);
    AddResources(db, modId, previewUrl, html.screenshots, now);
  }

  // ---------------------------------------------------------------------------
  // set_game

  /** A genre of `get_app`'s answer: its id and, when given, its description. */
  datatype Genre = Genre(id: int, description: Option<string>)

  /** The parts of `get_app`'s answer that `set_game` stores; `genres` is `None` when the answer has no `genres` key. */
  datatype AppData = AppData(name: string, kind: string, headerImage: string, shortDescription: string,
                             detailedDescription: string, genres: Option<seq<Genre>>)

  /**
   * `set_game` raises `KeyError` when it looks up `genres` in an answer without them: for a
   * game it did not know, after the game row is inserted and committed.
   */
  predicate SetGameRaises(games: map<int, GameRow>, gameId: int, app: Option<AppData>) {
    gameId !in games && app.Some? && app.value.genres.None?
  }

  /** A genre's name: its description, or `No data`. */
  function GenreName(g: Genre): string {
    match g.description
    case Some(d) => d
    case None => "No data"
  }

  /** The ids of the genres in `get_app`'s answer. */
  function GenreIds(list: seq<Genre>): set<int> {
    set g | g in list :: g.id
  }

  /** The row `set_game` inserts for a game it did not know. */
  function NewGameRow(app: AppData, modsCount: int, now: int): (r: GameRow)
    ensures r.modsDownloads == 0 && r.source == "steam" && r.modsCount == modsCount && r.creationDate == now
    ensures r.name == app.name && r.kind == app.kind && r.logo == app.headerImage
    ensures r.shortDescription == app.shortDescription && r.description == app.detailedDescription
  {
    GameRow(app.name, app.kind, app.headerImage, app.shortDescription, app.detailedDescription, 0, modsCount, now, "steam")
  }

  /**
   * What the genre loop of `set_game` has achieved once the first `n` genres are handled:
   * each is a known genre linked to the game, old genres keep their names, a new genre is
   * named after one of the handled genres, and only new links to the game were appended.
   */
  ghost predicate SetGenresDone(genres0: map<int, string>, links0: seq<(int, int)>,
                                genres: map<int, string>, links: seq<(int, int)>,
                                gameId: int, list: seq<Genre>, n: nat)
  {
    && n <= |list|
    && (forall j :: 0 <= j < n ==> list[j].id in genres && (gameId, list[j].id) in links)
    && (forall k :: k in genres0 ==> k in genres && genres[k] == genres0[k])
    && (forall k :: k in genres && k !in genres0 ==>
          exists j :: 0 <= j < n && list[j].id == k && genres[k] == GenreName(list[j]))
    && AppendsOnlyNew(links0, links)
    && (forall j :: |links0| <= j < |links| ==> links[j].0 == gameId && links[j].1 in GenreIds(list))
  }

  /** One step of the genre loop: the genre is created when missing, then linked to the game unless it is. */
  method LinkGenre(db: CatalogueDb, gameId: int, genre: Genre)
    modifies db`genres, db`gameGenres
    ensures db.genres == if genre.id in old(db.genres) then old(db.genres) else old(db.genres)[genre.id := GenreName(genre)]
    ensures db.gameGenres == old(db.gameGenres) + (if (gameId, genre.id) in old(db.gameGenres) then [] else [(gameId, genre.id)])
  {
    if genre.id !in db.genres {
      db.genres := db.genres[genre.id := GenreName(genre)];
    }
    var pair := (gameId, genre.id);
    if pair !in db.gameGenres {
      db.gameGenres := db.gameGenres + [pair];
    } else {
      assert db.gameGenres + [] == db.gameGenres;
    }
  }

  /** One `LinkGenre` step extends `SetGenresDone` by one genre. */
  lemma SetGenresStep(genres0: map<int, string>, links0: seq<(int, int)>,
                      genres: map<int, string>, links: seq<(int, int)>,
                      genres': map<int, string>, links': seq<(int, int)>,
                      gameId: int, list: seq<Genre>, n: nat)
    requires SetGenresDone(genres0, links0, genres, links, gameId, list, n) && n < |list|
    requires genres' == if list[n].id in genres then genres else genres[list[n].id := GenreName(list[n])]
    requires links' == links + (if (gameId, list[n].id) in links then [] else [(gameId, list[n].id)])
    ensures SetGenresDone(genres0, links0, genres', links', gameId, list, n + 1)
  {
    var g := list[n];
    assert links <= links';
    assert g in list && g.id in GenreIds(list);
    forall k | k in genres' && k !in genres0
      ensures exists j :: 0 <= j < n + 1 && list[j].id == k && genres'[k] == GenreName(list[j])
    {
      if k in genres {
        var j :| 0 <= j < n && list[j].id == k && genres[k] == GenreName(list[j]);
        assert genres'[k] == genres[k];
      } else {
        assert list[n].id == k && genres'[k] == GenreName(list[n]);
      }
    }
    if (gameId, g.id) !in links {
      AppendNewPair(links0, links, (gameId, g.id));
    } else {
      assert links' == links;
    }
  }

  /**
   * `set_game`: a known game gets its mods count refreshed; an unknown one is inserted from
   * `get_app`'s answer (nothing happens without one), with its genres created when missing
   * and linked to it once. `ok` is false where the lookup of `genres` raises after the insert.
   */
  method SetGame(db: CatalogueDb, gameId: int, app: Option<AppData>, now: int) returns (ok: bool)
    modifies db`games, db`genres, db`gameGenres
    ensures ok <==> !SetGameRaises(old(db.games), gameId, app)
    ensures gameId in old(db.games) ==>
              && db.games == old(db.games)[gameId := old(db.games)[gameId].(modsCount := Tool.GetModsCount(db.mods, gameId))]
              && db.genres == old(db.genres) && db.gameGenres == old(db.gameGenres)
    ensures gameId !in old(db.games) && app.None? ==>
              db.games == old(db.games) && db.genres == old(db.genres) && db.gameGenres == old(db.gameGenres)
    ensures gameId !in old(db.games) && app.Some? ==>
              db.games == old(db.games)[gameId := NewGameRow(app.value, Tool.GetModsCount(db.mods, gameId), now)]
    ensures SetGameRaises(old(db.games), gameId, app) ==> db.genres == old(db.genres) && db.gameGenres == old(db.gameGenres)
    ensures gameId !in old(db.games) && app.Some? && app.value.genres.Some? ==>
              SetGenresDone(old(db.genres), old(db.gameGenres), db.genres, db.gameGenres, gameId,
                            app.value.genres.value, |app.value.genres.value|)
  {
    if gameId in db.games {
      db.games := db.games[gameId := db.games[gameId].(modsCount := Tool.GetModsCount(db.mods, gameId))];
      return true;
    }
    if app.None? {
      return true;
    }
    var data := app.value;
    db.games := db.games[gameId := NewGameRow(data, Tool.GetModsCount(db.mods, gameId), now)];
    if data.genres.None? {
      return false;
    }
    var list := data.genres.value;
    ghost var games := db.games;
    var i := 0;
    while i < |list|
      invariant db.games == games
      invariant SetGenresDone(old(db.genres), old(db.gameGenres), db.genres, db.gameGenres, gameId, list, i)
    {
      ghost var genres, links := db.genres, db.gameGenres;
      LinkGenre(db, gameId, list[i]);
      SetGenresStep(old(db.genres), old(db.gameGenres), genres, links, db.genres, db.gameGenres, gameId, list, i);
      i := i + 1;
    }
    return true;
  }

  // ---------------------------------------------------------------------------
  // setters

  /**
   * What the tag half of `setters` leaves behind: every named tag exists, is allowed for the
   * game and linked to the mod; the links left by the delete are followed by the mod's new
   * links, each added once, which are exactly those to named tags; other mods' links are as
   * they were; tags and allowed links only gain rows, each added once.
   */
  ghost predicate TagsRelinked(tags0: seq<TagRow>, allowed0: seq<(int, int)>, modTags0: seq<(int, int)>,
                               tags: seq<TagRow>, allowed: seq<(int, int)>, modTags: seq<(int, int)>,
                               modId: int, gameId: int, names: seq<string>)
  {
    && (forall k :: 0 <= k < |names| ==> TagLinked(tags, allowed, modTags, modId, gameId, names[k]))
    && (forall t :: (modId, t) in modTags <==> NamedTag(tags, t, names))
    && AppendsOnlyNew(WithoutKey(modTags0, modId), modTags)
    && AppendedNameTags(WithoutKey(modTags0, modId), modTags, tags, names, false, modId)
    && (forall p: (int, int) :: p.0 != modId ==> (p in modTags <==> p in modTags0))
    && NewTagsOnly(tags0, tags, names)
    && AppendsOnlyNew(allowed0, allowed)
    && AppendedNameTags(allowed0, allowed, tags, names, true, gameId)
  }

  /** The tag half of `setters`: the mod's tag links are deleted, then `set_tags` runs. */
  method RelinkTags(db: CatalogueDb, modId: int, gameId: int, tagNames: seq<string>)
    modifies db`tags, db`allowedModsTags, db`modsTags
    ensures TagsRelinked(old(db.tags), old(db.allowedModsTags), old(db.modsTags),
                         db.tags, db.allowedModsTags, db.modsTags, modId, gameId, tagNames)
  {
    db.modsTags := WithoutKey(db.modsTags, modId);
    ghost var kept := db.modsTags;
    SetTags(db, modId, gameId, tagNames);
    forall p: (int, int) | p.0 != modId
      ensures p in db.modsTags <==> p in old(db.modsTags)
    {
      KeptAcrossAppend(old(db.modsTags), kept, db.modsTags, p);
    }
    forall t
      ensures (modId, t) in db.modsTags <==> NamedTag(db.tags, t, tagNames)
    {
      if (modId, t) in db.modsTags {
        var i :| 0 <= i < |db.modsTags| && db.modsTags[i] == (modId, t);
        assert i >= |kept|;
      }
      if NamedTag(db.tags, t, tagNames) {
        var k :| 0 <= k < |tagNames| && TagIdOf(db.tags, tagNames[k]) == Some(t);
        assert TagLinked(db.tags, db.allowedModsTags, db.modsTags, modId, gameId, tagNames[k]);
      }
    }
  }

  /**
   * What the dependency and resource half of `setters` leaves behind. The rows left by the
   * deletes are followed by the mod's new rows: dependency links, each added once, exactly
   * for the dependencies found; resources with URLs no earlier row has, each recorded at
   * `now` as a screenshot or as the logo. Every screenshot and the preview image have a
   * resource, and other mods' rows are as they were.
   */
  ghost predicate DependenceRelinked(deps0: seq<(int, int)>, resources0: seq<ResourceRow>,
                                     deps: seq<(int, int)>, resources: seq<ResourceRow>,
                                     modId: int, previewUrl: string, html: HtmlData, now: int)
  {
    && (forall d :: (modId, d) in deps <==> d in html.dependencies)
    && AppendsOnlyNew(WithoutKey(deps0, modId), deps)
    && (forall i :: |WithoutKey(deps0, modId)| <= i < |deps| ==> deps[i].0 == modId)
    && (forall p: (int, int) :: p.0 != modId ==> (p in deps <==> p in deps0))
    && (forall u :: u in html.screenshots ==> u in Urls(resources))
    && previewUrl in Urls(resources)
    && NewUrlsOnly(WithoutOwner(resources0, modId), resources)
    && (forall i :: 0 <= i < |resources| && resources[i].ownerId == modId ==>
          i >= |WithoutOwner(resources0, modId)| && RecordedResource(resources[i], modId, previewUrl, html.screenshots, now))
    && (forall row: ResourceRow :: row.ownerId != modId ==> (row in resources <==> row in resources0))
  }

  /** The dependency and resource half of `setters`: the mod's rows are deleted, then recorded anew. */
  method RelinkDependenceAndScreenshots(db: CatalogueDb, modId: int, previewUrl: string, html: HtmlData, now: int)
    modifies db`modsDependencies, db`resources
    ensures DependenceRelinked(old(db.modsDependencies), old(db.resources), db.modsDependencies, db.resources,
                               modId, previewUrl, html, now)
  {
    db.modsDependencies := WithoutKey(db.modsDependencies, modId);
    db.resources := WithoutOwner(db.resources, modId);
    ghost var depsKept, resourcesKept := db.modsDependencies, db.resources;
    SetDependenceAndScreenshots(db, modId, previewUrl, html, now);
    forall d | (modId, d) in db.modsDependencies
      ensures d in html.dependencies
    {
      var i :| 0 <= i < |db.modsDependencies| && db.modsDependencies[i] == (modId, d);
      assert i >= |depsKept|;
    }
    forall p: (int, int) | p.0 != modId
      ensures p in db.modsDependencies <==> p in old(db.modsDependencies)
    {
      KeptAcrossAppend(old(db.modsDependencies), depsKept, db.modsDependencies, p);
    }
    forall i | 0 <= i < |db.resources| && db.resources[i].ownerId == modId
      ensures i >= |resourcesKept| && RecordedResource(db.resources[i], modId, previewUrl, html.screenshots, now)
    {
      assert i >= |resourcesKept|;
    }
    forall row: ResourceRow | row.ownerId != modId
      ensures row in db.resources <==> row in old(db.resources)
    {
      KeptAcrossAppend(old(db.resources), resourcesKept, db.resources, row);
    }
  }

  /**
   * What the game half of `setters` leaves behind. Links of other games are as they were.
   * A known game gets `modsCount`, and the links are what the delete left. An unknown game
   * without an answer from `get_app` changes nothing else, and the links are what the delete
   * left. An unknown game with one is inserted. When the answer has no genres, that is all
   * before `set_game` raises: the links are what the delete left. Otherwise the links the
   * delete left are followed by its new links, each added once, which are exactly to the
   * genres of the answer; every such genre exists, old genres keeping their names and new
   * ones named after a genre of the answer.
   */
  ghost predicate GameRelinked(games0: map<int, GameRow>, genres0: map<int, string>, links0: seq<(int, int)>,
                               games: map<int, GameRow>, genres: map<int, string>, links: seq<(int, int)>,
                               gameId: int, app: Option<AppData>, modsCount: int, now: int)
  {
    && (forall p: (int, int) :: p.0 != gameId ==> (p in links <==> p in links0))
    && if gameId in games0 || app.None? then
         && games == (if gameId in games0 then games0[gameId := games0[gameId].(modsCount := modsCount)] else games0)
         && genres == genres0
         && links == WithoutKey(links0, gameId)
         && (forall g :: (gameId, g) !in links)
       else if app.value.genres.None? then
         && games == games0[gameId := NewGameRow(app.value, modsCount, now)]
         && genres == genres0
         && links == WithoutKey(links0, gameId)
         && (forall g :: (gameId, g) !in links)
       else
         var list := app.value.genres.value;
         && games == games0[gameId := NewGameRow(app.value, modsCount, now)]
         && AppendsOnlyNew(WithoutKey(links0, gameId), links)
         && (forall i :: |WithoutKey(links0, gameId)| <= i < |links| ==> links[i].0 == gameId)
         && (forall g :: (gameId, g) in links <==> g in GenreIds(list))
         && (forall k :: k in genres0 ==> k in genres && genres[k] == genres0[k])
         && (forall k :: k in GenreIds(list) ==> k in genres)
         && (forall k :: k in genres && k !in genres0 ==>
               exists j :: 0 <= j < |list| && list[j].id == k && genres[k] == GenreName(list[j]))
  }

  /** The game half of `setters`: the game's genre links are deleted, then `set_game` runs. */
  method RelinkGame(db: CatalogueDb, gameId: int, app: Option<AppData>, now: int) returns (ok: bool)
    modifies db`games, db`genres, db`gameGenres
    ensures ok <==> !SetGameRaises(old(db.games), gameId, app)
    ensures GameRelinked(old(db.games), old(db.genres), old(db.gameGenres), db.games, db.genres, db.gameGenres,
                         gameId, app, Tool.GetModsCount(db.mods, gameId), now)
  {
    db.gameGenres := WithoutKey(db.gameGenres, gameId);
    ghost var kept := db.gameGenres;
    ok := SetGame(db, gameId, app, now);
    assert kept <= db.gameGenres && forall i :: |kept| <= i < |db.gameGenres| ==> db.gameGenres[i].0 == gameId;
    forall p: (int, int) | p.0 != gameId
      ensures p in db.gameGenres <==> p in old(db.gameGenres)
    {
      KeptAcrossAppend(old(db.gameGenres), kept, db.gameGenres, p);
    }
    forall g | (gameId, g) in db.gameGenres
      ensures gameId !in old(db.games) && app.Some? && app.value.genres.Some? && g in GenreIds(app.value.genres.value)
    {
      var i :| 0 <= i < |db.gameGenres| && db.gameGenres[i] == (gameId, g);
      assert i >= |kept|;
    }
    if gameId !in old(db.games) && app.Some? && app.value.genres.Some? {
      var list := app.value.genres.value;
      forall g | g in GenreIds(list)
        ensures (gameId, g) in db.gameGenres && g in db.genres
      {
        var genre :| genre in list && genre.id == g;
        var j :| 0 <= j < |list| && list[j] == genre;
      }
    }
  }

  /**
   * As written, `setters` deletes a game's genre links before `set_game`, which re-creates
   * them only for a game it inserts: every genre link of a game already in the catalogue is lost.
   */
  lemma KnownGameLosesGenreLinks(games0: map<int, GameRow>, genres0: map<int, string>, links0: seq<(int, int)>,
                                 games: map<int, GameRow>, genres: map<int, string>, links: seq<(int, int)>,
                                 gameId: int, app: Option<AppData>, modsCount: int, now: int, genre: int)
    requires GameRelinked(games0, genres0, links0, games, genres, links, gameId, app, modsCount, now)
    requires gameId in games0 && (gameId, genre) in links0
    ensures (gameId, genre) !in links
  {
  }

  /**
   * The game half of `setters` with the genre links deleted only for a game `set_game` will
   * insert: a game already in the catalogue keeps its genre links and genres, and gets its
   * mods count; an unknown game is handled as `RelinkGame` does.
   */
  method RelinkGameKeepingGenres(db: CatalogueDb, gameId: int, app: Option<AppData>, now: int) returns (ok: bool)
    modifies db`games, db`genres, db`gameGenres
    ensures ok <==> !SetGameRaises(old(db.games), gameId, app)
    ensures gameId in old(db.games) ==>
              && db.games == old(db.games)[gameId := old(db.games)[gameId].(modsCount := Tool.GetModsCount(db.mods, gameId))]
              && db.genres == old(db.genres) && db.gameGenres == old(db.gameGenres)
    ensures gameId !in old(db.games) ==>
              GameRelinked(old(db.games), old(db.genres), old(db.gameGenres), db.games, db.genres, db.gameGenres,
                           gameId, app, Tool.GetModsCount(db.mods, gameId), now)
  {
    if gameId in db.games {
      ok := SetGame(db, gameId, app, now);
    } else {
      ok := RelinkGame(db, gameId, app, now);
    }
  }

  /** The first two steps of `setters`: the tag half, then the game half, which may raise. */
  method RelinkTagsAndGame(db: CatalogueDb, modId: int, gameId: int, tagNames: seq<string>, app: Option<AppData>, now: int)
    returns (ok: bool)
    modifies db`tags, db`allowedModsTags, db`modsTags, db`games, db`genres, db`gameGenres
    ensures ok <==> !SetGameRaises(old(db.games), gameId, app)
    ensures TagsRelinked(old(db.tags), old(db.allowedModsTags), old(db.modsTags),
                         db.tags, db.allowedModsTags, db.modsTags, modId, gameId, tagNames)
    ensures GameRelinked(old(db.games), old(db.genres), old(db.gameGenres), db.games, db.genres, db.gameGenres,
                         gameId, app, Tool.GetModsCount(db.mods, gameId), now)
  {
    RelinkTags(db, modId, gameId, tagNames);
    label Tagged:
    ok := RelinkGame(db, gameId, app, now);
    assert unchanged@Tagged(db`tags, db`allowedModsTags, db`modsTags);
  }

  /**
   * `setters`: the mod's tag links, its game's genre links, its dependency links and the
   * resources it owns are deleted and rebuilt by `set_tags`, `set_game` and
   * `set_dependence_and_screenshots`; then the mod's condition is set to 0 (downloaded).
   * The game's mods count is taken before that last step, and `games_mods` is not touched.
   * Where `set_game` raises, `setters` stops there (`ok` is false): the tag and game halves
   * are done, and the dependencies, resources and condition are as they were.
   */
  method Setters(db: CatalogueDb, modId: int, gameId: int, tagNames: seq<string>, app: Option<AppData>,
                 previewUrl: string, html: HtmlData, now: int) returns (ok: bool)
    modifies db
    ensures ok <==> !SetGameRaises(old(db.games), gameId, app)
    ensures TagsRelinked(old(db.tags), old(db.allowedModsTags), old(db.modsTags),
                         db.tags, db.allowedModsTags, db.modsTags, modId, gameId, tagNames)
    ensures GameRelinked(old(db.games), old(db.genres), old(db.gameGenres), db.games, db.genres, db.gameGenres,
                         gameId, app, Tool.GetModsCount(old(db.mods), gameId), now)
    ensures ok ==> DependenceRelinked(old(db.modsDependencies), old(db.resources), db.modsDependencies, db.resources,
                                      modId, previewUrl, html, now)
    ensures ok ==> db.mods == if modId in old(db.mods) then old(db.mods)[modId := old(db.mods)[modId].(condition := 0)] else old(db.mods)
    ensures !ok ==> unchanged(db`modsDependencies, db`resources, db`mods)
    ensures unchanged(db`gamesMods)
  {
    ok := RelinkTagsAndGame(db, modId, gameId, tagNames, app, now);
    assert unchanged(db`mods, db`modsDependencies, db`resources);
    if !ok {
      return;
    }
    label Relinked:
    RelinkDependenceAndMark(db, modId, previewUrl, html, now);
    assert unchanged@Relinked(db`tags, db`allowedModsTags, db`modsTags, db`games, db`genres, db`gameGenres);
  }

  /** The last two steps of `setters`: the dependency and resource half, then the mod's condition. */
  method RelinkDependenceAndMark(db: CatalogueDb, modId: int, previewUrl: string, html: HtmlData, now: int)
    modifies db`modsDependencies, db`resources, db`mods
    ensures DependenceRelinked(old(db.modsDependencies), old(db.resources), db.modsDependencies, db.resources,
                               modId, previewUrl, html, now)
    ensures db.mods == if modId in old(db.mods) then old(db.mods)[modId := old(db.mods)[modId].(condition := 0)] else old(db.mods)
  {
    RelinkDependenceAndScreenshots(db, modId, previewUrl, html, now);
    label Recorded:
    MarkDownloaded(db, modId);
    assert unchanged@Recorded(db`modsDependencies, db`resources);
  }

  /** The last step of `setters`: the mod's condition becomes 0 (downloaded). */
  method MarkDownloaded(db: CatalogueDb, modId: int)
    modifies db`mods
    ensures db.mods == if modId in old(db.mods) then old(db.mods)[modId := old(db.mods)[modId].(condition := 0)] else old(db.mods)
  {
    if modId in db.mods {
      db.mods := db.mods[modId := db.mods[modId].(condition := 0)];
    }
  }

  // ---------------------------------------------------------------------------
  // checker

  /** The game of the mod's first `games_mods` binding. */
  function FirstBinding(gamesMods: seq<(int, int)>, modId: int): (r: Option<int>)
    ensures r.None? <==> forall i :: 0 <= i < |gamesMods| ==> gamesMods[i].0 != modId
    ensures r.Some? ==> (modId, r.value) in gamesMods
  {
    if gamesMods == [] then None
    else if gamesMods[0].0 == modId then Some(gamesMods[0].1)
    else
      var r := FirstBinding(gamesMods[1..], modId);
      assert forall i :: 1 <= i < |gamesMods| ==> gamesMods[i] == gamesMods[1..][i - 1];
      r
  }

  /** The directory part of the archive path: the bound game's id, or `null` without a binding. */
  function BindText(gamesMods: seq<(int, int)>, modId: int): string {
    match FirstBinding(gamesMods, modId)
    case Some(game) => IntToString(game)
    case None => "null"
  }

  /** Where `checker` looks for a mod's archive. */
  function ArchivePath(path: string, gamesMods: seq<(int, int)>, modId: int): string {
    path + BindText(gamesMods, modId) + "/" + IntToString(modId) + ".zip"
  }

  /**
   * What `checker` decides. `NoRecord` and `RecordRemoved` are both answered as `None`;
   * `Repair` is the branch that tries to rebuild the archive, whose effects are not modelled.
   */
  datatype CheckOutcome = NoRecord | Serve(path: string, filename: string) | Repair(path: string, filename: string) | RecordRemoved

  /**
   * `checker`, given the mod's rows and the file system's answers: without a record,
   * nothing; with an archive at the mod's path, that archive under the mod's name; with the
   * base path a directory, the repair branch; otherwise the record and its game bindings
   * are deleted.
   */
  method Checker(db: CatalogueDb, rows: seq<ModRow>, path: string, modId: int,
                 isFile: string -> bool, isDir: string -> bool) returns (outcome: CheckOutcome)
    modifies db`mods, db`gamesMods
    ensures rows == [] ==> outcome == NoRecord
    ensures rows != [] && isFile(ArchivePath(path, old(db.gamesMods), modId)) ==>
              outcome == Serve(ArchivePath(path, old(db.gamesMods), modId), rows[0].name + ".zip")
    ensures rows != [] && !isFile(ArchivePath(path, old(db.gamesMods), modId)) && isDir(path) ==>
              outcome == Repair(ArchivePath(path, old(db.gamesMods), modId), rows[0].name + ".zip")
    ensures outcome == RecordRemoved <==>
              rows != [] && !isFile(ArchivePath(path, old(db.gamesMods), modId)) && !isDir(path)
    ensures outcome == RecordRemoved ==>
              db.mods == old(db.mods) - {modId} && db.gamesMods == WithoutKey(old(db.gamesMods), modId)
    ensures outcome != RecordRemoved ==> db.mods == old(db.mods) && db.gamesMods == old(db.gamesMods)
  {
    if rows == [] {
      return NoRecord;
    }
    var zip := ArchivePath(path, db.gamesMods, modId);
    if isFile(zip) {
      return Serve(zip, rows[0].name + ".zip");
    } else if isDir(path) {
      return Repair(zip, rows[0].name + ".zip");
    }
    db.mods := db.mods - {modId};
    db.gamesMods := WithoutKey(db.gamesMods, modId);
    return RecordRemoved;
  }

  /** Once a record is removed, the mod has no binding left, and its archive path falls back to `null`. */
  lemma RemovedRecordHasNoBinding(gamesMods: seq<(int, int)>, path: string, modId: int)
    ensures FirstBinding(WithoutKey(gamesMods, modId), modId) == None
    ensures ArchivePath(path, WithoutKey(gamesMods, modId), modId)
            == path + "null/" + IntToString(modId) + ".zip"
  {
  }
}
