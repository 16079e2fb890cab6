/** The tree listing of getContainerList as values: the entry each backend
    record becomes, and the two maps (directories, files) keyed by path that
    the listing loop fills, so that a later record with the same path
    replaces an earlier one. */
module Tree {
  import opened Strings
  import opened Order
  import opened Paths
  import opened Menus
  import opened Backend

  /** One node of the file tree. CSS classes are left out; the file icon is
      derived from ext. */
  datatype Entry =
    | DirEntry(id: string, text: string, path: string, menu: seq<MenuItem>)
    | FileEntry(id: string, text: string, path: string, ext: string, url: string, menu: seq<MenuItem>)

  /** The entry of a directory marker at path. */
  function DirEntryOf(path: string, perms: set<Permission>): Entry
  {
    DirEntry(path + "/", Basename(path), path, ContextMenu(true, false, perms))
  }

  /** The entry of a file at path with the given content type. */
  function FileEntryOf(path: string, contentType: string, baseUrl: string, perms: set<Permission>): Entry
  {
    var name := Basename(path);
    FileEntry(path, name, path, Lower(Extension(name)), RTrim(baseUrl, Slash) + "/" + path,
              ContextMenu(false, !IsTextType(contentType), perms))
  }

  /** The directory map after the loop has seen every record of list. */
  function DirMap(list: seq<BackendRecord>, perms: set<Permission>): map<string, Entry>
  {
    if list == [] then map[]
    else
      var r := list[|list| - 1];
      var m := DirMap(list[..|list| - 1], perms);
      if IsDirectoryType(r.contentType) then m[RecordPath(r) := DirEntryOf(RecordPath(r), perms)] else m
  }

  /** The file map after the loop has seen every record of list. */
  function FileMap(list: seq<BackendRecord>, baseUrl: string, perms: set<Permission>): map<string, Entry>
  {
    if list == [] then map[]
    else
      var r := list[|list| - 1];
      var m := FileMap(list[..|list| - 1], baseUrl, perms);
      if IsDirectoryType(r.contentType) then m
      else m[RecordPath(r) := FileEntryOf(RecordPath(r), r.contentType, baseUrl, perms)]
  }

  /** One more record adds or replaces the entry of its path in the map of its kind. */
  lemma MapsSnoc(list: seq<BackendRecord>, r: BackendRecord, baseUrl: string, perms: set<Permission>)
    ensures DirMap(list + [r], perms) ==
              if IsDirectoryType(r.contentType) then DirMap(list, perms)[RecordPath(r) := DirEntryOf(RecordPath(r), perms)]
              else DirMap(list, perms)
    ensures FileMap(list + [r], baseUrl, perms) ==
              if IsDirectoryType(r.contentType) then FileMap(list, baseUrl, perms)
              else FileMap(list, baseUrl, perms)[RecordPath(r) := FileEntryOf(RecordPath(r), r.contentType, baseUrl, perms)]
  {
    assert (list + [r])[..|list|] == list;
  }

  /** Taking one more record of a listing updates the maps as MapsSnoc says. */
  lemma MapsStep(list: seq<BackendRecord>, i: nat, baseUrl: string, perms: set<Permission>)
    requires i < |list|
    ensures var r := list[i];
            DirMap(list[..i + 1], perms) ==
              if IsDirectoryType(r.contentType) then DirMap(list[..i], perms)[RecordPath(r) := DirEntryOf(RecordPath(r), perms)]
              else DirMap(list[..i], perms)
    ensures var r := list[i];
            FileMap(list[..i + 1], baseUrl, perms) ==
              if IsDirectoryType(r.contentType) then FileMap(list[..i], baseUrl, perms)
              else FileMap(list[..i], baseUrl, perms)[RecordPath(r) := FileEntryOf(RecordPath(r), r.contentType, baseUrl, perms)]
  {
    assert list[..i + 1] == list[..i] + [list[i]];
    MapsSnoc(list[..i], list[i], baseUrl, perms);
  }

  /** Record i is a file record at path p that no later file record of list overrides. */
  ghost predicate LastFileRecord(list: seq<BackendRecord>, i: int, p: string)
  {
    && 0 <= i < |list|
    && !IsDirectoryType(list[i].contentType) && RecordPath(list[i]) == p
    && forall j :: i < j < |list| && !IsDirectoryType(list[j].contentType) ==> RecordPath(list[j]) != p
  }

  /** Some marker record of list has path p. */
  ghost predicate HasDirRecord(list: seq<BackendRecord>, p: string)
  {
    exists i :: 0 <= i < |list| && IsDirectoryType(list[i].contentType) && RecordPath(list[i]) == p
  }

  /** Some file record of list has path p. */
  ghost predicate HasFileRecord(list: seq<BackendRecord>, p: string)
  {
    exists i :: 0 <= i < |list| && !IsDirectoryType(list[i].contentType) && RecordPath(list[i]) == p
  }

  lemma HasRecordSnoc(list: seq<BackendRecord>, p: string)
    requires list != []
    ensures var n := |list| - 1;
            var r := list[n];
            && (HasDirRecord(list, p) <==> HasDirRecord(list[..n], p) || (IsDirectoryType(r.contentType) && RecordPath(r) == p))
            && (HasFileRecord(list, p) <==> HasFileRecord(list[..n], p) || (!IsDirectoryType(r.contentType) && RecordPath(r) == p))
  {
    var n := |list| - 1;
    assert forall i :: 0 <= i < n ==> list[..n][i] == list[i];
  }

  /** A path is in the directory map exactly when some marker record has it,
      and its entry is the directory entry of that path. */
  lemma {:induction false} DirMapContents(list: seq<BackendRecord>, perms: set<Permission>, p: string)
    ensures p in DirMap(list, perms) <==> HasDirRecord(list, p)
    ensures p in DirMap(list, perms) ==> DirMap(list, perms)[p] == DirEntryOf(p, perms)
  {
    if list != [] {
      DirMapContents(list[..|list| - 1], perms, p);
      HasRecordSnoc(list, p);
    }
  }

  /** A path is in the file map exactly when some file record has it. */
  lemma {:induction false} FileMapDomain(list: seq<BackendRecord>, baseUrl: string, perms: set<Permission>, p: string)
    ensures p in FileMap(list, baseUrl, perms) <==> HasFileRecord(list, p)
  {
    if list != [] {
      FileMapDomain(list[..|list| - 1], baseUrl, perms, p);
      HasRecordSnoc(list, p);
    }
  }

  /** A record that the last record of list does not override stays the last one. */
  lemma LastFileRecordSnoc(list: seq<BackendRecord>, i: int, p: string)
    requires list != []
    requires LastFileRecord(list[..|list| - 1], i, p)
    requires IsDirectoryType(list[|list| - 1].contentType) || RecordPath(list[|list| - 1]) != p
    ensures LastFileRecord(list, i, p) && list[i] == list[..|list| - 1][i]
  {
    var n := |list| - 1;
    assert forall j :: i < j < n ==> list[..n][j] == list[j];
  }

  /** The entry of a path in the file map is built from the last file record with that path. */
  lemma {:induction false} FileMapLastWins(list: seq<BackendRecord>, baseUrl: string, perms: set<Permission>, p: string)
    requires p in FileMap(list, baseUrl, perms)
    ensures exists i :: LastFileRecord(list, i, p)
                     && FileMap(list, baseUrl, perms)[p] == FileEntryOf(p, list[i].contentType, baseUrl, perms)
  {
    var n := |list| - 1;
    var r := list[n];
    if !IsDirectoryType(r.contentType) && RecordPath(r) == p {
      assert LastFileRecord(list, n, p);
    } else {
      FileMapLastWins(list[..n], baseUrl, perms, p);
      var i :| LastFileRecord(list[..n], i, p)
             && FileMap(list[..n], baseUrl, perms)[p] == FileEntryOf(p, list[..n][i].contentType, baseUrl, perms);
      LastFileRecordSnoc(list, i, p);
    }
  }

  /** Every entry of the directory map is a directory entry stored under its own path. */
  lemma DirMapKeyedByPath(list: seq<BackendRecord>, perms: set<Permission>)
    ensures forall p :: p in DirMap(list, perms) ==> DirMap(list, perms)[p].DirEntry? && DirMap(list, perms)[p].path == p
  {
    forall p | p in DirMap(list, perms)
      ensures DirMap(list, perms)[p].DirEntry? && DirMap(list, perms)[p].path == p
    {
      DirMapContents(list, perms, p);
    }
  }

  /** Every entry of the file map is a file entry stored under its own path. */
  lemma FileMapKeyedByPath(list: seq<BackendRecord>, baseUrl: string, perms: set<Permission>)
    ensures forall p :: p in FileMap(list, baseUrl, perms) ==>
              FileMap(list, baseUrl, perms)[p].FileEntry? && FileMap(list, baseUrl, perms)[p].path == p
  {
    forall p | p in FileMap(list, baseUrl, perms)
      ensures FileMap(list, baseUrl, perms)[p].FileEntry? && FileMap(list, baseUrl, perms)[p].path == p
    {
      FileMapLastWins(list, baseUrl, perms, p);
    }
  }

  /** A directory entry has the path followed by '/' as id and the last '/'
      segment of the path as text. */
  lemma DirEntryFields(path: string, perms: set<Permission>)
    requires path == [] || path[|path| - 1] != '/'
    ensures var e := DirEntryOf(path, perms);
            && e.id == path + "/" && e.path == path
            && LastSegment(path, e.text)
            && e.menu == ContextMenu(true, false, perms)
  {
    BasenameSegment(path);
  }

  /** A file entry has the path as id, the last '/' segment of the path as
      text, the lower-cased extension of that segment, the base URL without
      trailing '/' followed by '/' and the path as url, and the menu of a
      binary file unless the content type starts with "text". */
  lemma FileEntryFields(path: string, contentType: string, baseUrl: string, perms: set<Permission>)
    requires path == [] || path[|path| - 1] != '/'
    ensures var e := FileEntryOf(path, contentType, baseUrl, perms);
            && e.id == path && e.path == path
            && LastSegment(path, e.text)
            && e.ext == Lower(Extension(e.text))
            && e.url == RTrim(baseUrl, Slash) + "/" + path
            && e.menu == ContextMenu(false, !IsTextType(contentType), perms)
  {
    BasenameSegment(path);
  }

  /** g lists the entries of m: each under its own path, strictly ascending
      by path (so one entry per path), and one for every path of m. */
  ghost predicate IsGroup(g: seq<Entry>, m: map<string, Entry>)
  {
    && (forall k :: 0 <= k < |g| ==> g[k].path in m && m[g[k].path] == g[k])
    && (forall i, j :: 0 <= i < j < |g| ==> Less(g[i].path, g[j].path))
    && (forall p :: p in m ==> exists k :: 0 <= k < |g| && g[k].path == p)
  }

  /** The shape of the tree listing: as many entries as the two maps hold,
      the directory entries first, listing the directory map, and the file
      entries after them, listing the file map. */
  ghost predicate IsTreeListing(ls: seq<Entry>, dirs: map<string, Entry>, files: map<string, Entry>)
  {
    && |ls| == |dirs| + |files|
    && (forall p :: p in dirs ==> dirs[p].DirEntry?)
    && (forall p :: p in files ==> files[p].FileEntry?)
    && IsGroup(ls[..|dirs|], dirs)
    && IsGroup(ls[|dirs|..], files)
  }

  /** The entries of a group are of the kind every entry of its map is. */
  lemma GroupKinds(g: seq<Entry>, m: map<string, Entry>, isDir: bool)
    requires IsGroup(g, m)
    requires forall p :: p in m ==> m[p].DirEntry? == isDir
    ensures forall k :: 0 <= k < |g| ==> g[k].DirEntry? == isDir
  {
    forall k | 0 <= k < |g|
      ensures g[k].DirEntry? == isDir
    {
      assert m[g[k].path] == g[k];
    }
  }

  /** In a tree listing the first |dirs| entries are directories and the
      rest are files. */
  lemma ListingKinds(ls: seq<Entry>, dirs: map<string, Entry>, files: map<string, Entry>)
    requires IsTreeListing(ls, dirs, files)
    ensures forall k :: 0 <= k < |ls| ==> (ls[k].DirEntry? <==> k < |dirs|)
  {
    var n := |dirs|;
    GroupKinds(ls[..n], dirs, true);
    GroupKinds(ls[n..], files, false);
    forall k | 0 <= k < |ls|
      ensures ls[k].DirEntry? <==> k < n
    {
      if k < n {
        assert ls[..n][k] == ls[k];
      } else {
        assert ls[n..][k - n] == ls[k];
      }
    }
  }

  /** In a tree listing no file entry comes before a directory entry, and no
      path appears twice within a group. */
  lemma DirectoriesBeforeFiles(ls: seq<Entry>, dirs: map<string, Entry>, files: map<string, Entry>)
    requires IsTreeListing(ls, dirs, files)
    ensures forall i, j :: 0 <= i < j < |ls| && ls[j].DirEntry? ==> ls[i].DirEntry?
    ensures forall i, j :: 0 <= i < j < |ls| && ls[i].DirEntry? == ls[j].DirEntry? ==> ls[i].path != ls[j].path
  {
    var n := |dirs|;
    ListingKinds(ls, dirs, files);
    forall i, j | 0 <= i < j < |ls| && ls[i].DirEntry? == ls[j].DirEntry?
      ensures ls[i].path != ls[j].path
    {
      if j < n {
        assert ls[..n][i] == ls[i] && ls[..n][j] == ls[j];
      } else {
        assert ls[n..][i - n] == ls[i] && ls[n..][j - n] == ls[j];
      }
      LessIrreflexive(ls[i].path);
    }
  }

  /** g holds the entries of m, one per key, in the order of the strictly
      ascending keys ks. */
  ghost predicate EmittedInOrder(g: seq<Entry>, m: map<string, Entry>, ks: seq<string>)
  {
    && Ascending(ks) && (forall x :: x in ks <==> x in m) && |ks| == |m|
    && |g| == |ks| && (forall k :: 0 <= k < |ks| ==> g[k] == m[ks[k]])
  }

  /** A group emitted in key order lists its map. */
  lemma GroupInOrder(g: seq<Entry>, m: map<string, Entry>, ks: seq<string>)
    requires forall p :: p in m ==> m[p].path == p
    requires EmittedInOrder(g, m, ks)
    ensures IsGroup(g, m) && |g| == |m|
  {
    assert forall k :: 0 <= k < |g| ==> g[k].path == ks[k];
    forall p | p in m
      ensures exists k :: 0 <= k < |g| && g[k].path == p
    {
      var k :| 0 <= k < |ks| && ks[k] == p;
      assert g[k].path == p;
    }
  }

  /** A listing of the directory map followed by a listing of the file map
      is a tree listing. */
  lemma GroupsMakeTreeListing(a: seq<Entry>, b: seq<Entry>, dirs: map<string, Entry>, files: map<string, Entry>)
    requires forall p :: p in dirs ==> dirs[p].DirEntry?
    requires forall p :: p in files ==> files[p].FileEntry?
    requires IsGroup(a, dirs) && |a| == |dirs|
    requires IsGroup(b, files) && |b| == |files|
    ensures IsTreeListing(a + b, dirs, files)
  {
    var ls := a + b;
    assert ls[..|a|] == a;
    assert ls[|a|..] == b;
  }
}
