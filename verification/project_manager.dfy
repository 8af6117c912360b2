/**
 * Auto-save of the editor's project: the main, audio and text tracks, the
 * media library and the project settings are written as one record under a
 * fixed key of an IndexedDB object store, read back (re-creating the
 * transient object URLs of every stored file), or cleared.
 *
 * The object store is a map from keys to records. `URL.createObjectURL` is a
 * counter: each call returns a handle numbered by the counter and advances it.
 */
module ProjectManager {
  import opened Wrappers

  /** A `Blob` or `File` kept in the database. */
  datatype Payload = Payload(id: nat)

  /** A URL string kept from earlier, or an object URL created in this session (numbered by creation). */
  datatype Url = Link(text: string) | ObjectUrl(serial: nat)

  /** A property holding a URL is truthy when present and not the empty string. */
  predicate UrlTruthy(u: Option<Url>) {
    u.Some? && (u.value.ObjectUrl? || u.value.text != "")
  }

  /**
   * A clip or library entry. `attrs` holds every other property (id, type,
   * offsets, text, …), which the code copies without looking at. `file` is
   * present only when it is a `Blob` or `File`; `thumbnails` only when it is
   * an array.
   */
  datatype Item = Item(
    attrs: map<string, string>,
    file: Option<Payload>,
    fileUrl: Option<Url>,
    url: Option<Url>,
    thumbnails: Option<seq<Payload>>,
    thumbnailUrls: Option<seq<Url>>)

  datatype Settings = Settings(width: int, height: int, aspectRatio: string)

  const DefaultSettings := Settings(1280, 720, "16:9")

  const ProjectKey := "auto_save_v1"

  /** The saved project. Lists and settings may be missing from records written by other versions. */
  datatype Record = Record(
    main: Option<seq<Item>>,
    audio: Option<seq<Item>>,
    text: Option<seq<Item>>,
    files: Option<seq<Item>>,
    settings: Option<Settings>,
    lastModified: int)

  /** An item together with the URL counter after restoring it. */
  datatype RestoredItem = RestoredItem(item: Item, next: nat)

  /** Items together with the URL counter after restoring them. */
  datatype RestoredList = RestoredList(items: seq<Item>, next: nat)

  /** `n` fresh object URLs numbered from `next`, in order. */
  function Mint(next: nat, n: nat): (urls: seq<Url>)
    ensures |urls| == n
    ensures forall i :: 0 <= i < n ==> urls[i] == ObjectUrl(next + i)
  {
    if n == 0 then [] else Mint(next, n - 1) + [ObjectUrl(next + n - 1)]
  }

  /** How many stored thumbnails an item has: none when `thumbnails` is not an array. */
  function ThumbnailCount(item: Item): nat {
    if item.thumbnails.Some? then |item.thumbnails.value| else 0
  }

  /** How many object URLs restoring an item creates. */
  function Minted(item: Item): (n: nat)
    ensures item.file.None? ==> n == 0
    ensures item.file.Some? ==> ThumbnailCount(item) <= n <= ThumbnailCount(item) + 2
  {
    if item.file.None? then 0
    else
      ThumbnailCount(item)
      + (if UrlTruthy(item.fileUrl) then 1 else 0)
      + (if UrlTruthy(item.url) then 1 else 0)
  }

  /** Every object URL the item refers to was created before `bound`. */
  ghost predicate HandlesBelow(item: Item, bound: nat) {
    && (item.fileUrl.Some? && item.fileUrl.value.ObjectUrl? ==> item.fileUrl.value.serial < bound)
    && (item.url.Some? && item.url.value.ObjectUrl? ==> item.url.value.serial < bound)
    && (item.thumbnailUrls.Some? ==>
          forall i :: 0 <= i < |item.thumbnailUrls.value| && item.thumbnailUrls.value[i].ObjectUrl? ==>
            item.thumbnailUrls.value[i].serial < bound)
  }

  ghost predicate AllHandlesBelow(items: seq<Item>, bound: nat) {
    forall i :: 0 <= i < |items| ==> HandlesBelow(items[i], bound)
  }

  /**
   * The body of the `map` in `restoreAssets`. An item without a file is
   * returned as it is. An item with a file keeps every property, including
   * `file` and `thumbnails`; its thumbnails get one fresh URL each, then
   * `fileUrl` and `url` get a fresh URL of the file if they held one and
   * become undefined otherwise; `thumbnailUrls` is the fresh list when it is
   * non-empty and otherwise the old list, or `[]`.
   */
  function RestoreItem(item: Item, next: nat): (r: RestoredItem)
    ensures r.next == next + Minted(item)
    ensures item.file.None? ==> r.item == item
    ensures item.file.Some? ==>
      && r.item.attrs == item.attrs && r.item.file == item.file && r.item.thumbnails == item.thumbnails
      && (r.item.fileUrl.Some? <==> UrlTruthy(item.fileUrl))
      && (r.item.url.Some? <==> UrlTruthy(item.url))
      && r.item.thumbnailUrls.Some?
    ensures item.file.Some? && item.thumbnails.Some? && |item.thumbnails.value| > 0 ==>
      r.item.thumbnailUrls == Some(Mint(next, |item.thumbnails.value|))
    ensures item.file.Some? && !(item.thumbnails.Some? && |item.thumbnails.value| > 0) ==>
      r.item.thumbnailUrls == Some(item.thumbnailUrls.GetOr([]))
    ensures item.file.Some? && r.item.fileUrl.Some? ==>
      r.item.fileUrl.value.ObjectUrl? && next + ThumbnailCount(item) <= r.item.fileUrl.value.serial < r.next
    ensures item.file.Some? && r.item.url.Some? ==>
      r.item.url.value.ObjectUrl? && next + ThumbnailCount(item) <= r.item.url.value.serial < r.next
    ensures item.file.Some? && r.item.fileUrl.Some? && r.item.url.Some? ==>
      r.item.fileUrl.value.serial < r.item.url.value.serial
  {
    if item.file.None? then RestoredItem(item, next)
    else
      var restoredThumbnails := if item.thumbnails.Some? then Mint(next, |item.thumbnails.value|) else [];
      var afterThumbnails := next + |restoredThumbnails|;
      var fileUrl := if UrlTruthy(item.fileUrl) then Some(ObjectUrl(afterThumbnails)) else None;
      var afterFileUrl := if UrlTruthy(item.fileUrl) then afterThumbnails + 1 else afterThumbnails;
      var url := if UrlTruthy(item.url) then Some(ObjectUrl(afterFileUrl)) else None;
      var afterUrl := if UrlTruthy(item.url) then afterFileUrl + 1 else afterFileUrl;
      var thumbnailUrls := if |restoredThumbnails| > 0 then restoredThumbnails else item.thumbnailUrls.GetOr([]);
      RestoredItem(
        item.(fileUrl := fileUrl, url := url, thumbnailUrls := Some(thumbnailUrls)),
        afterUrl)
  }

  /** Restoring never refers to a URL that has not been created yet. */
  lemma RestoreItemHandles(item: Item, next: nat)
    requires HandlesBelow(item, next)
    ensures HandlesBelow(RestoreItem(item, next).item, RestoreItem(item, next).next)
  {
    var r := RestoreItem(item, next);
    if item.file.Some? && item.thumbnails.Some? && |item.thumbnails.value| > 0 {
      var urls := r.item.thumbnailUrls.value;
      assert forall i :: 0 <= i < |urls| ==> urls[i].serial < r.next;
    }
  }

  /**
   * What a restored item keeps of the saved one: its other properties, its
   * file and its thumbnails, and everything when it has no file.
   */
  predicate Keeps(restored: Item, saved: Item) {
    && restored.attrs == saved.attrs && restored.file == saved.file
    && restored.thumbnails == saved.thumbnails
    && (saved.file.None? ==> restored == saved)
  }

  /** A restored list: same length and order, every item keeping what its saved item had. */
  predicate RestoredFrom(restored: seq<Item>, saved: seq<Item>) {
    |restored| == |saved| && forall i :: 0 <= i < |saved| ==> Keeps(restored[i], saved[i])
  }

  /** `restoreAssets(items)`: the items in order, with the URL counter threaded through. */
  function RestoreList(items: seq<Item>, next: nat): (r: RestoredList)
    ensures |r.items| == |items|
    ensures r.next >= next
  {
    if items == [] then RestoredList([], next)
    else
      var first := RestoreItem(items[0], next);
      var rest := RestoreList(items[1..], first.next);
      RestoredList([first.item] + rest.items, rest.next)
  }

  /** `restoreAssets(data.x || [])`: a missing list restores to `[]`. */
  function RestoreAssets(items: Option<seq<Item>>, next: nat): (r: RestoredList)
    ensures items.None? ==> r == RestoredList([], next)
  {
    RestoreList(items.GetOr([]), next)
  }

  /** The number of URLs the first `n` items create. */
  function MintedBefore(items: seq<Item>, n: nat): nat
    requires n <= |items|
  {
    if n == 0 then 0 else MintedBefore(items, n - 1) + Minted(items[n - 1])
  }

  /** The counter after a list has advanced past every URL the list creates. */
  lemma {:induction false} RestoreListNext(items: seq<Item>, next: nat)
    ensures RestoreList(items, next).next == next + MintedBefore(items, |items|)
  {
    if items != [] {
      RestoreListNext(items[1..], RestoreItem(items[0], next).next);
      MintedBeforeConsAt(items, |items|);
    }
  }

  /**
   * Length and order are kept: item `i` of the result is item `i` restored
   * with the counter advanced past the URLs of the items before it.
   */
  lemma {:induction false} RestoreListAt(items: seq<Item>, next: nat, i: nat)
    requires i < |items|
    ensures RestoreList(items, next).items[i] == RestoreItem(items[i], next + MintedBefore(items, i)).item
  {
    if i > 0 {
      var first := RestoreItem(items[0], next);
      RestoreListAt(items[1..], first.next, i - 1);
      MintedBeforeConsAt(items, i);
      assert items[i] == items[1..][i - 1];
    }
  }

  /** Every restored item keeps what its saved item had. */
  lemma RestoreListKeeps(items: seq<Item>, next: nat)
    ensures RestoredFrom(RestoreList(items, next).items, items)
  {
    forall i | 0 <= i < |items|
      ensures Keeps(RestoreList(items, next).items[i], items[i])
    {
      RestoreListAt(items, next, i);
    }
  }

  /** The count of URLs created by the first `n` items, split after the first item. */
  lemma {:induction false} MintedBeforeConsAt(items: seq<Item>, n: nat)
    requires 1 <= n <= |items|
    ensures MintedBefore(items, n) == Minted(items[0]) + MintedBefore(items[1..], n - 1)
  {
    if n > 1 {
      MintedBeforeConsAt(items, n - 1);
      assert items[n - 1] == items[1..][n - 2];
    }
  }

  lemma {:induction false} MintedBeforeMonotone(items: seq<Item>, i: nat, j: nat)
    requires i <= j <= |items|
    ensures MintedBefore(items, i) <= MintedBefore(items, j)
    decreases j - i
  {
    if i < j {
      MintedBeforeMonotone(items, i, j - 1);
    }
  }

  /** Two stored files never share an object URL: each file of a list gets URLs of its own. */
  lemma RestoredUrlsDistinct(items: seq<Item>, next: nat, i: nat, j: nat)
    requires i < j < |items| && items[i].file.Some? && items[j].file.Some?
    ensures var r := RestoreList(items, next).items;
      && (r[i].fileUrl.Some? && r[j].fileUrl.Some? ==> r[i].fileUrl.value != r[j].fileUrl.value)
      && (r[i].url.Some? && r[j].url.Some? ==> r[i].url.value != r[j].url.value)
      && (r[i].fileUrl.Some? && r[j].url.Some? ==> r[i].fileUrl.value != r[j].url.value)
      && (r[i].url.Some? && r[j].fileUrl.Some? ==> r[i].url.value != r[j].fileUrl.value)
  {
    RestoredFreshAt(items, next, i);
    RestoredFreshAt(items, next, j);
    MintedBeforeMonotone(items, i + 1, j);
  }

  /** The URLs restored for item `i` of a list are created after those of the items before it and before those after it. */
  lemma RestoredFreshAt(items: seq<Item>, next: nat, i: nat)
    requires i < |items| && items[i].file.Some?
    ensures FreshBetween(RestoreList(items, next).items[i], next + MintedBefore(items, i), next + MintedBefore(items, i + 1))
  {
    var lo := next + MintedBefore(items, i);
    RestoreListAt(items, next, i);
    RestoreItemFresh(items[i], lo);
    assert MintedBefore(items, i + 1) == MintedBefore(items, i) + Minted(items[i]);
  }

  /** The `fileUrl` and `url` restored for an item with a file are among the URLs it creates. */
  lemma RestoreItemFresh(item: Item, next: nat)
    requires item.file.Some?
    ensures FreshBetween(RestoreItem(item, next).item, next, next + Minted(item))
  {
  }

  /** The item's `fileUrl` and `url`, where present, are object URLs created in `[lo, hi)`. */
  ghost predicate FreshBetween(item: Item, lo: nat, hi: nat) {
    && (item.fileUrl.Some? ==> item.fileUrl.value.ObjectUrl? && lo <= item.fileUrl.value.serial < hi)
    && (item.url.Some? ==> item.url.value.ObjectUrl? && lo <= item.url.value.serial < hi)
  }

  /** Items without a file (text clips, for instance) come back exactly as they were saved. */
  lemma {:induction false} RestoreListWithoutFiles(items: seq<Item>, next: nat)
    requires forall i :: 0 <= i < |items| ==> items[i].file.None?
    ensures RestoreList(items, next) == RestoredList(items, next)
  {
    if items != [] {
      RestoreListWithoutFiles(items[1..], next);
      assert [items[0]] + items[1..] == items;
    }
  }

  /** Restoring a list never refers to a URL that has not been created yet. */
  lemma {:induction false} RestoreListHandles(items: seq<Item>, next: nat)
    requires AllHandlesBelow(items, next)
    ensures AllHandlesBelow(RestoreList(items, next).items, RestoreList(items, next).next)
  {
    if items != [] {
      var first := RestoreItem(items[0], next);
      RestoreItemHandles(items[0], next);
      var tail := items[1..];
      HandlesBelowMonotone(tail, next, first.next);
      RestoreListHandles(tail, first.next);
      var rest := RestoreList(tail, first.next);
      HandlesBelowMonotone([first.item], first.next, rest.next);
    }
  }

  /** A bound on the handles is also a bound once more handles exist. */
  lemma HandlesBelowMonotone(items: seq<Item>, bound: nat, later: nat)
    requires AllHandlesBelow(items, bound) && bound <= later
    ensures AllHandlesBelow(items, later)
  {
    forall i | 0 <= i < |items|
      ensures HandlesBelow(items[i], later)
    {
      assert HandlesBelow(items[i], bound);
    }
  }

  /** The four lists of a record after `restoreAssets`, with the counter after each. */
  datatype Reloaded = Reloaded(main: seq<Item>, audio: seq<Item>, text: seq<Item>, library: seq<Item>, next: nat)

  /** `loadProject` after finding the record: main, audio, text, library, in that order. */
  function Reload(record: Record, next: nat): (r: Reloaded)
    ensures r.next >= next
    ensures |r.main| == |record.main.GetOr([])| && |r.audio| == |record.audio.GetOr([])|
    ensures |r.text| == |record.text.GetOr([])| && |r.library| == |record.files.GetOr([])|
  {
    var main := RestoreAssets(record.main, next);
    var audio := RestoreAssets(record.audio, main.next);
    var text := RestoreAssets(record.text, audio.next);
    var library := RestoreAssets(record.files, text.next);
    Reloaded(main.items, audio.items, text.items, library.items, library.next)
  }

  /** Every reloaded item keeps what its saved item had, in all four lists. */
  lemma ReloadKeeps(record: Record, next: nat)
    ensures var r := Reload(record, next);
      && RestoredFrom(r.main, record.main.GetOr([])) && RestoredFrom(r.audio, record.audio.GetOr([]))
      && RestoredFrom(r.text, record.text.GetOr([])) && RestoredFrom(r.library, record.files.GetOr([]))
  {
    var main := RestoreAssets(record.main, next);
    var audio := RestoreAssets(record.audio, main.next);
    var text := RestoreAssets(record.text, audio.next);
    RestoreListKeeps(record.main.GetOr([]), next);
    RestoreListKeeps(record.audio.GetOr([]), main.next);
    RestoreListKeeps(record.text.GetOr([]), audio.next);
    RestoreListKeeps(record.files.GetOr([]), text.next);
  }

  /** Every object URL a saved record refers to was created before `bound`. */
  ghost predicate RecordHandlesBelow(record: Record, bound: nat) {
    && AllHandlesBelow(record.main.GetOr([]), bound) && AllHandlesBelow(record.audio.GetOr([]), bound)
    && AllHandlesBelow(record.text.GetOr([]), bound) && AllHandlesBelow(record.files.GetOr([]), bound)
  }

  lemma RecordHandlesMonotone(record: Record, bound: nat, later: nat)
    requires RecordHandlesBelow(record, bound) && bound <= later
    ensures RecordHandlesBelow(record, later)
  {
    HandlesBelowMonotone(record.main.GetOr([]), bound, later);
    HandlesBelowMonotone(record.audio.GetOr([]), bound, later);
    HandlesBelowMonotone(record.text.GetOr([]), bound, later);
    HandlesBelowMonotone(record.files.GetOr([]), bound, later);
  }

  /** A bound on the handles of every stored record is also a bound once more handles exist. */
  lemma StoreHandlesMonotone(db: map<string, Record>, bound: nat, later: nat)
    requires forall k :: k in db ==> RecordHandlesBelow(db[k], bound)
    requires bound <= later
    ensures forall k :: k in db ==> RecordHandlesBelow(db[k], later)
  {
    forall k | k in db
      ensures RecordHandlesBelow(db[k], later)
    {
      RecordHandlesMonotone(db[k], bound, later);
    }
  }

  /** Every object URL in the reloaded lists was created before the counter. */
  ghost predicate ReloadedHandlesBelow(r: Reloaded) {
    && AllHandlesBelow(r.main, r.next) && AllHandlesBelow(r.audio, r.next)
    && AllHandlesBelow(r.text, r.next) && AllHandlesBelow(r.library, r.next)
  }

  /** Reloading keeps every handle older than the counter. */
  lemma ReloadHandles(record: Record, next: nat)
    requires RecordHandlesBelow(record, next)
    ensures ReloadedHandlesBelow(Reload(record, next))
  {
    var main := RestoreAssets(record.main, next);
    RestoreListHandles(record.main.GetOr([]), next);
    HandlesBelowMonotone(record.audio.GetOr([]), next, main.next);
    var audio := RestoreAssets(record.audio, main.next);
    RestoreListHandles(record.audio.GetOr([]), main.next);
    HandlesBelowMonotone(record.text.GetOr([]), next, audio.next);
    var text := RestoreAssets(record.text, audio.next);
    RestoreListHandles(record.text.GetOr([]), audio.next);
    HandlesBelowMonotone(record.files.GetOr([]), next, text.next);
    var library := RestoreAssets(record.files, text.next);
    RestoreListHandles(record.files.GetOr([]), text.next);
    HandlesBelowMonotone(main.items, main.next, library.next);
    HandlesBelowMonotone(audio.items, audio.next, library.next);
    HandlesBelowMonotone(text.items, text.next, library.next);
  }

  /** The editor's five stores together with the object store and the URL counter. */
  class Project {
    var main: seq<Item>
    var audio: seq<Item>
    var text: seq<Item>
    var library: seq<Item>
    var settings: Settings
    var db: map<string, Record>
    var nextUrl: nat

    /** Every object URL anywhere in the stores or the database has been created already. */
    ghost predicate Valid()
      reads this
    {
      && AllHandlesBelow(main, nextUrl) && AllHandlesBelow(audio, nextUrl)
      && AllHandlesBelow(text, nextUrl) && AllHandlesBelow(library, nextUrl)
      && forall k :: k in db ==> RecordHandlesBelow(db[k], nextUrl)
    }

    /** A fresh editor: empty tracks and library, default settings, nothing saved. */
    constructor ()
      ensures Valid()
      ensures main == [] && audio == [] && text == [] && library == []
      ensures settings == DefaultSettings && db == map[] && nextUrl == 0
    {
      main, audio, text, library := [], [], [], [];
      settings := DefaultSettings;
      db := map[];
      nextUrl := 0;
    }

    /** `saveProject(now)`: one record of the current state replaces whatever was under the key. */
    method Save(now: int)
      requires Valid()
      modifies this
      ensures Valid()
      ensures db == old(db)[ProjectKey := Record(Some(main), Some(audio), Some(text), Some(library), Some(settings), now)]
      ensures main == old(main) && audio == old(audio) && text == old(text) && library == old(library)
      ensures settings == old(settings) && nextUrl == old(nextUrl)
    {
      db := db[ProjectKey := Record(Some(main), Some(audio), Some(text), Some(library), Some(settings), now)];
    }

    /**
     * `loadProject()`: false with nothing changed when no record is saved;
     * otherwise every store is set from the record, with fresh object URLs,
     * and the settings only if the record has them.
     */
    method Load() returns (found: bool)
      requires Valid()
      modifies this
      ensures Valid()
      ensures found <==> ProjectKey in old(db)
      ensures !found ==> main == old(main) && audio == old(audio) && text == old(text)
                         && library == old(library) && settings == old(settings) && nextUrl == old(nextUrl)
      ensures found ==>
        var r := Reload(old(db)[ProjectKey], old(nextUrl));
        && main == r.main && audio == r.audio && text == r.text && library == r.library
        && nextUrl == r.next
        && settings == old(db)[ProjectKey].settings.GetOr(old(settings))
      ensures db == old(db)
    {
      if ProjectKey !in db {
        return false;
      }
      var data := db[ProjectKey];
      ReloadHandles(data, nextUrl);
      var r := Reload(data, nextUrl);
      ghost var oldNext := nextUrl;
      main, audio, text, library := r.main, r.audio, r.text, r.library;
      nextUrl := r.next;
      if data.settings.Some? {
        settings := data.settings.value;
      }
      StoreHandlesMonotone(db, oldNext, nextUrl);
      return true;
    }

    /** `clearProject()`: delete the record, empty the four lists, reset the settings to 1280×720, 16:9. */
    method Clear()
      requires Valid()
      modifies this
      ensures Valid()
      ensures db == old(db) - {ProjectKey}
      ensures main == [] && audio == [] && text == [] && library == []
      ensures settings == DefaultSettings && nextUrl == old(nextUrl)
    {
      db := db - {ProjectKey};
      main, audio, text, library := [], [], [], [];
      settings := DefaultSettings;
    }
  }

  /**
   * Save, then load: each list comes back with the same length and order,
   * every item keeps its other properties, its file and its thumbnails, and
   * items without a file come back unchanged; the settings come back as saved.
   */
  method SaveThenLoad(p: Project, now: int) returns (found: bool)
    requires p.Valid()
    modifies p
    ensures p.Valid() && found
    ensures p.settings == old(p.settings)
    ensures RestoredFrom(p.main, old(p.main)) && RestoredFrom(p.audio, old(p.audio))
    ensures RestoredFrom(p.text, old(p.text)) && RestoredFrom(p.library, old(p.library))
  {
    ghost var record := Record(Some(p.main), Some(p.audio), Some(p.text), Some(p.library), Some(p.settings), now);
    ghost var next0 := p.nextUrl;
    p.Save(now);
    found := p.Load();
    ReloadKeeps(record, next0);
  }

  /** Clearing, then loading: nothing is found and the emptied state stays as it is. */
  method ClearThenLoad(p: Project) returns (found: bool)
    requires p.Valid()
    modifies p
    ensures !found
    ensures p.main == [] && p.audio == [] && p.text == [] && p.library == []
    ensures p.settings == DefaultSettings
  {
    p.Clear();
    found := p.Load();
  }
}
