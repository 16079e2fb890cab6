/** The gallery listing of getObjectsInContainer as values: which records of
    a listing become gallery items, and the preview sizes an image item gets.
    The size getimagesize reports for an object URL is an input (a map from
    URL to the reported size; a URL outside the map is one it fails on). */
module Gallery {
  import opened Strings
  import opened Paths
  import opened Menus
  import opened Backend

  /** The options the gallery reads. allowedFileTypes, imageExtensions and
      skipFiles are the comma-separated strings of the media source
      properties; the four sizes are the file manager's settings. */
  datatype GalleryConfig = GalleryConfig(
    baseUrl: string,
    allowedFileTypes: string,
    imageExtensions: string,
    skipFiles: string,
    imageWidth: int,
    imageHeight: int,
    thumbWidth: int,
    thumbHeight: int)

  /** A width and a height as getimagesize reports them. */
  datatype Dims = Dims(width: nat, height: nat)

  /** The preview of an item: an image gets a thumbnail and an image size,
      anything else the no-preview picture at the configured thumbnail size. */
  datatype Thumb =
    | Preview(thumbWidth: int, thumbHeight: int, imageWidth: int, imageHeight: int)
    | NoPreview(thumbWidth: int, thumbHeight: int)

  /** One gallery item. The url is also the relative, full relative and path
      name of the item; its menu offers removal only. */
  datatype GalleryItem = GalleryItem(
    id: string,
    name: string,
    url: string,
    size: nat,
    ext: string,
    thumb: Thumb,
    menu: seq<MenuItem>)

  /** The names skipped: the configured ones plus "." and "..". */
  function SkipList(cfg: GalleryConfig): (skip: seq<string>)
    ensures "." in skip && ".." in skip
  {
    Explode(cfg.skipFiles, ',') + [".", ".."]
  }

  /** The base URL with its trailing slashes replaced by exactly one '/'. */
  function ContainerUrl(cfg: GalleryConfig): (u: string)
    ensures u != [] && u[|u| - 1] == '/'
    ensures |u| < 2 || u[|u| - 2] != '/'
    ensures |u| - 1 <= |cfg.baseUrl| && u[..|u| - 1] == cfg.baseUrl[..|u| - 1]
    ensures forall i :: |u| - 1 <= i < |cfg.baseUrl| ==> cfg.baseUrl[i] == '/'
  {
    RTrim(cfg.baseUrl, Slash) + "/"
  }

  /** An extension the allowed-types option lets through: all of them when
      the option is empty in PHP's sense, otherwise exactly the listed ones. */
  predicate Admits(cfg: GalleryConfig, ext: string)
  {
    PhpEmpty(cfg.allowedFileTypes) || ext in Explode(cfg.allowedFileTypes, ',')
  }

  /** An extension that counts as an image: one listed in imageExtensions,
      compared exactly. */
  predicate IsImage(cfg: GalleryConfig, ext: string)
  {
    ext in Explode(cfg.imageExtensions, ',')
  }

  /** n, lowered to max when it exceeds it. */
  function Cap(n: int, max: int): (r: int)
    ensures r <= max && r <= n
    ensures r == n || r == max
  {
    if n > max then max else n
  }

  /** The preview sizes of an item with extension ext, given what
      getimagesize reported for its URL. */
  function Thumbnail(cfg: GalleryConfig, ext: string, probe: Option<Dims>): (t: Thumb)
    ensures t.Preview? <==> IsImage(cfg, ext)
    ensures t.NoPreview? ==> t.thumbWidth == cfg.thumbWidth && t.thumbHeight == cfg.thumbHeight
    ensures t.Preview? ==>
              && t.thumbWidth <= t.imageWidth && t.thumbHeight <= t.imageHeight
              && t.thumbWidth <= cfg.thumbWidth && t.thumbHeight <= cfg.thumbHeight
              && (t.thumbWidth == cfg.thumbWidth || t.thumbWidth == t.imageWidth)
              && (t.thumbHeight == cfg.thumbHeight || t.thumbHeight == t.imageHeight)
    ensures t.Preview? && probe.None? ==>
              t.imageWidth == cfg.imageWidth && t.imageHeight == cfg.imageHeight
    ensures t.Preview? && probe.Some? ==>
              && t.imageWidth <= 800 && t.imageHeight <= 600
              && t.imageWidth <= probe.value.width && t.imageHeight <= probe.value.height
              && (probe.value.width <= 800 ==> t.imageWidth == probe.value.width)
              && (probe.value.height <= 600 ==> t.imageHeight == probe.value.height)
              && (probe.value.width > 800 ==> t.imageWidth == 800)
              && (probe.value.height > 600 ==> t.imageHeight == 600)
  {
    if IsImage(cfg, ext) then
      var iw := if probe.Some? then Cap(probe.value.width, 800) else cfg.imageWidth;
      var ih := if probe.Some? then Cap(probe.value.height, 600) else cfg.imageHeight;
      Preview(Cap(cfg.thumbWidth, iw), Cap(cfg.thumbHeight, ih), iw, ih)
    else
      NoPreview(cfg.thumbWidth, cfg.thumbHeight)
  }

  /** The extension a record's item carries: that of the last segment of its
      path, lower-cased. */
  function ItemExtension(r: BackendRecord): string
  {
    Lower(Extension(Basename(RecordPath(r))))
  }

  /** A record that makes it into the gallery: not a skipped name, not a
      directory marker, and an extension the filter admits. */
  predicate Shown(cfg: GalleryConfig, r: BackendRecord)
  {
    && RecordPath(r) !in SkipList(cfg)
    && !IsDirectoryType(r.contentType)
    && Admits(cfg, ItemExtension(r))
  }

  /** The item a shown record becomes. */
  function ItemOf(cfg: GalleryConfig, probes: map<string, Dims>, r: BackendRecord): GalleryItem
  {
    var name := RecordPath(r);
    var url := ContainerUrl(cfg) + Trim(name, Slash);
    var ext := ItemExtension(r);
    var probe := if url in probes then Some(probes[url]) else None;
    GalleryItem(name, Basename(name), url, r.size, ext, Thumbnail(cfg, ext, probe), [Item(RemoveFile)])
  }

  /** The item one record becomes, or None when it is left out. */
  function GalleryEntry(cfg: GalleryConfig, probes: map<string, Dims>, r: BackendRecord): Option<GalleryItem>
  {
    if Shown(cfg, r) then Some(ItemOf(cfg, probes, r)) else None
  }

  /** The values held by the Some elements of os, in order. */
  function Somes<T>(os: seq<Option<T>>): seq<T>
  {
    if os == [] then []
    else
      var g := Somes(os[..|os| - 1]);
      match os[|os| - 1]
      case None => g
      case Some(x) => g + [x]
  }

  /** Somes of two sequences one after the other is Somes of the first followed by Somes of the second. */
  lemma {:induction false} SomesAppend<T>(a: seq<Option<T>>, b: seq<Option<T>>)
    ensures Somes(a + b) == Somes(a) + Somes(b)
    decreases |b|
  {
    if b != [] {
      var n := |b| - 1;
      assert (a + b)[..|a + b| - 1] == a + b[..n];
      assert (a + b)[|a + b| - 1] == b[n];
      SomesAppend(a, b[..n]);
    } else {
      assert a + b == a;
    }
  }

  /** x is in Somes(os) exactly when Some(x) is in os. */
  lemma {:induction false} SomesMembership<T>(os: seq<Option<T>>, x: T)
    ensures x in Somes(os) <==> Some(x) in os
  {
    if os != [] {
      var n := |os| - 1;
      SomesMembership(os[..n], x);
      assert os == os[..n] + [os[n]];
    }
  }

  /** Somes is never longer than os, and as long when every element is a Some. */
  lemma {:induction false} SomesLength<T>(os: seq<Option<T>>)
    ensures |Somes(os)| <= |os|
    ensures (forall i :: 0 <= i < |os| ==> os[i].Some?) ==> |Somes(os)| == |os|
  {
    if os != [] {
      var n := |os| - 1;
      SomesLength(os[..n]);
      assert forall i :: 0 <= i < n ==> os[..n][i] == os[i];
    }
  }

  /** f applied to every element of s, in order. */
  function MapSeq<A, B>(f: A -> B, s: seq<A>): (r: seq<B>)
    ensures |r| == |s|
  {
    if s == [] then [] else MapSeq(f, s[..|s| - 1]) + [f(s[|s| - 1])]
  }

  /** The element at position i of MapSeq(f, s) is f of the i-th element of s. */
  lemma {:induction false} MapSeqAt<A, B>(f: A -> B, s: seq<A>, i: nat)
    requires i < |s|
    ensures MapSeq(f, s)[i] == f(s[i])
  {
    var n := |s| - 1;
    if i < n {
      MapSeqAt(f, s[..n], i);
      assert s[..n][i] == s[i];
    }
  }

  /** The entry of every record of a listing, in listing order. */
  function Entries(cfg: GalleryConfig, probes: map<string, Dims>, list: seq<BackendRecord>): (es: seq<Option<GalleryItem>>)
    ensures |es| == |list|
  {
    MapSeq(r => GalleryEntry(cfg, probes, r), list)
  }

  /** The entry at position i is the entry of the i-th record. */
  lemma EntriesAt(cfg: GalleryConfig, probes: map<string, Dims>, list: seq<BackendRecord>, i: nat)
    requires i < |list|
    ensures Entries(cfg, probes, list)[i] == GalleryEntry(cfg, probes, list[i])
  {
    MapSeqAt(r => GalleryEntry(cfg, probes, r), list, i);
  }

  lemma {:induction false} EntriesAppend(cfg: GalleryConfig, probes: map<string, Dims>, a: seq<BackendRecord>, b: seq<BackendRecord>)
    ensures Entries(cfg, probes, a + b) == Entries(cfg, probes, a) + Entries(cfg, probes, b)
    decreases |b|
  {
    if b == [] {
      assert a + b == a;
    } else {
      var n := |b| - 1;
      assert (a + b)[..|a + b| - 1] == a + b[..n];
      assert (a + b)[|a + b| - 1] == b[n];
      EntriesAppend(cfg, probes, a, b[..n]);
    }
  }

  /** The items of a whole listing, in listing order. */
  function GalleryList(cfg: GalleryConfig, probes: map<string, Dims>, list: seq<BackendRecord>): seq<GalleryItem>
  {
    Somes(Entries(cfg, probes, list))
  }

  /** The item of a record carries the record's path as id, the last '/'
      segment of it as name, and the record's size; its menu offers removal. */
  lemma ItemFields(cfg: GalleryConfig, probes: map<string, Dims>, r: BackendRecord)
    ensures var item := ItemOf(cfg, probes, r);
            && item.id == RecordPath(r)
            && LastSegment(item.id, item.name)
            && item.size == r.size
            && item.menu == [Item(RemoveFile)]
  {
    var name := RecordPath(r);
    var t := Basename(name);
    BasenameSegment(name);
    var item := ItemOf(cfg, probes, r);
    assert item.id == name;
    assert item.name == t;
  }

  /** The url of an item is the container URL followed by its id without
      surrounding slashes. */
  lemma ItemUrl(cfg: GalleryConfig, probes: map<string, Dims>, r: BackendRecord)
    ensures var item := ItemOf(cfg, probes, r);
            item.url == ContainerUrl(cfg) + Trim(item.id, Slash)
  {
  }

  /** The extension of an item is the record's lower-cased extension and holds
      no '.'; the item has a preview exactly when that extension is an image
      extension. */
  lemma ItemPreview(cfg: GalleryConfig, probes: map<string, Dims>, r: BackendRecord)
    ensures var item := ItemOf(cfg, probes, r);
            && item.ext == ItemExtension(r) && '.' !in item.ext
            && (item.thumb.Preview? <==> IsImage(cfg, item.ext))
  {
    var item := ItemOf(cfg, probes, r);
    assert item.ext == ItemExtension(r);
    LowerChars(Extension(Basename(RecordPath(r))), '.');
  }

  /** A record becomes an item exactly when it is shown: its path is not
      skipped, it is no directory marker and the filter admits its extension. */
  lemma GalleryEntryShown(cfg: GalleryConfig, probes: map<string, Dims>, r: BackendRecord)
    ensures GalleryEntry(cfg, probes, r).Some? <==>
              RecordPath(r) !in SkipList(cfg) && !IsDirectoryType(r.contentType) && Admits(cfg, ItemExtension(r))
    ensures GalleryEntry(cfg, probes, r).Some? ==> GalleryEntry(cfg, probes, r).value == ItemOf(cfg, probes, r)
  {
  }

  /** One more record adds its item, if any, at the end. */
  lemma GallerySnoc(cfg: GalleryConfig, probes: map<string, Dims>, list: seq<BackendRecord>, r: BackendRecord)
    ensures var e := GalleryEntry(cfg, probes, r);
            GalleryList(cfg, probes, list + [r]) == GalleryList(cfg, probes, list) + if e.Some? then [e.value] else []
  {
    var es := Entries(cfg, probes, list + [r]);
    assert (list + [r])[..|list|] == list;
    assert es == Entries(cfg, probes, list) + [GalleryEntry(cfg, probes, r)];
    assert es[..|es| - 1] == Entries(cfg, probes, list);
  }

  /** Taking one more record of a listing adds that record's item, if any, at the end. */
  lemma GalleryStep(cfg: GalleryConfig, probes: map<string, Dims>, list: seq<BackendRecord>, i: nat)
    requires i < |list|
    ensures var e := GalleryEntry(cfg, probes, list[i]);
            GalleryList(cfg, probes, list[..i + 1]) == GalleryList(cfg, probes, list[..i]) + if e.Some? then [e.value] else []
  {
    assert list[..i + 1] == list[..i] + [list[i]];
    GallerySnoc(cfg, probes, list[..i], list[i]);
  }

  /** The gallery of two listings one after the other is the gallery of the
      first followed by that of the second. */
  lemma GalleryAppend(cfg: GalleryConfig, probes: map<string, Dims>, a: seq<BackendRecord>, b: seq<BackendRecord>)
    ensures GalleryList(cfg, probes, a + b) == GalleryList(cfg, probes, a) + GalleryList(cfg, probes, b)
  {
    EntriesAppend(cfg, probes, a, b);
    SomesAppend(Entries(cfg, probes, a), Entries(cfg, probes, b));
  }

  /** An item is in the gallery exactly when some record of the listing
      becomes that item. */
  lemma GalleryMembership(cfg: GalleryConfig, probes: map<string, Dims>, list: seq<BackendRecord>, item: GalleryItem)
    ensures item in GalleryList(cfg, probes, list) <==>
              exists i :: 0 <= i < |list| && GalleryEntry(cfg, probes, list[i]) == Some(item)
  {
    var es := Entries(cfg, probes, list);
    SomesMembership(es, item);
    if Some(item) in es {
      var i :| 0 <= i < |es| && es[i] == Some(item);
      EntriesAt(cfg, probes, list, i);
    }
    if exists i :: 0 <= i < |list| && GalleryEntry(cfg, probes, list[i]) == Some(item) {
      var i :| 0 <= i < |list| && GalleryEntry(cfg, probes, list[i]) == Some(item);
      EntriesAt(cfg, probes, list, i);
      assert es[i] == Some(item);
    }
  }

  /** There are never more items than records, and as many when every record is shown. */
  lemma GalleryLength(cfg: GalleryConfig, probes: map<string, Dims>, list: seq<BackendRecord>)
    ensures |GalleryList(cfg, probes, list)| <= |list|
    ensures (forall i :: 0 <= i < |list| ==> Shown(cfg, list[i])) ==> |GalleryList(cfg, probes, list)| == |list|
  {
    var es := Entries(cfg, probes, list);
    SomesLength(es);
    if forall i :: 0 <= i < |list| ==> Shown(cfg, list[i]) {
      forall i | 0 <= i < |list| ensures es[i].Some? {
        EntriesAt(cfg, probes, list, i);
        GalleryEntryShown(cfg, probes, list[i]);
      }
    }
  }

  /** No directory marker and no skipped name ever shows up, and every item
      has an extension the filter admits. */
  lemma GalleryOnlyAdmittedFiles(cfg: GalleryConfig, probes: map<string, Dims>, list: seq<BackendRecord>)
    ensures forall item :: item in GalleryList(cfg, probes, list) ==>
              && item.id !in SkipList(cfg)
              && Admits(cfg, item.ext)
              && exists i :: 0 <= i < |list| && RecordPath(list[i]) == item.id && !IsDirectoryType(list[i].contentType)
  {
    forall item | item in GalleryList(cfg, probes, list)
      ensures && item.id !in SkipList(cfg)
              && Admits(cfg, item.ext)
              && exists i :: 0 <= i < |list| && RecordPath(list[i]) == item.id && !IsDirectoryType(list[i].contentType)
    {
      GalleryMembership(cfg, probes, list, item);
      var i :| 0 <= i < |list| && GalleryEntry(cfg, probes, list[i]) == Some(item);
      GalleryEntryShown(cfg, probes, list[i]);
      ItemFields(cfg, probes, list[i]);
    }
  }
}
