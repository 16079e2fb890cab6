/** The context menu the file tree shows for a directory or a file, built
    from the caller's permissions. Labels come from translation strings and
    are left out; an item is identified by the handler it calls. */
module Menus {

  /** The permissions the menus consult. DirectoryUpdate guards no item:
      the source's directory rename entry is commented out, and
      DirMenuItems states that rename is absent even under it. */
  datatype Permission =
    | FileUpdate | FileView | FileRemove | FileUpload | FileCreate
    | DirectoryCreate | DirectoryUpdate | DirectoryRemove

  datatype Handler =
    | EditFile | QuickUpdateFile | RenameFile | DownloadFile | RemoveFile
    | CreateDirectory | RenameDirectory | RefreshActiveNode | UploadFiles
    | CreateFile | QuickCreateFile | RemoveDirectory

  /** A menu entry: the '-' separator or an item calling a handler. */
  datatype MenuItem = Separator | Item(handler: Handler)

  /** No separator at either end and never two in a row. */
  ghost predicate WellSeparated(menu: seq<MenuItem>)
  {
    && (menu != [] ==> menu[0] != Separator && menu[|menu| - 1] != Separator)
    && (forall i :: 0 <= i < |menu| - 1 ==> menu[i] == Separator ==> menu[i + 1] != Separator)
  }

  function When(c: bool, items: seq<MenuItem>): seq<MenuItem>
  {
    if c then items else []
  }

  /** The menu of a file: the edit group (edit and quick update unless the
      file is binary, then rename) with the update permission, the download
      item with the view permission, and the remove item with the remove
      permission, after a separator when anything precedes it. */
  function FileMenu(isBinary: bool, perms: set<Permission>): seq<MenuItem>
  {
    var edit := When(FileUpdate in perms, When(!isBinary, [Item(EditFile), Item(QuickUpdateFile)]) + [Item(RenameFile)]);
    var head := edit + When(FileView in perms, [Item(DownloadFile)]);
    head + When(FileRemove in perms, When(head != [], [Separator]) + [Item(RemoveFile)])
  }

  /** The menu of a directory: create-here with that permission, refresh
      always, then the upload group (opened by a separator), the two create
      items, and the remove group (opened by a separator). The rename item is
      commented out in the source, so it never appears. */
  function DirMenu(perms: set<Permission>): seq<MenuItem>
  {
    When(DirectoryCreate in perms, [Item(CreateDirectory)])
    + [Item(RefreshActiveNode)]
    + When(FileUpload in perms, [Separator, Item(UploadFiles)])
    + When(FileCreate in perms, [Item(CreateFile), Item(QuickCreateFile)])
    + When(DirectoryRemove in perms, [Separator, Item(RemoveDirectory)])
  }

  /** getListContextMenu: the file menu or the directory menu. */
  function ContextMenu(isDir: bool, isBinary: bool, perms: set<Permission>): seq<MenuItem>
  {
    if isDir then DirMenu(perms) else FileMenu(isBinary, perms)
  }

  /** A file menu never starts or ends with a separator and never has two in a row. */
  lemma FileMenuSeparated(isBinary: bool, perms: set<Permission>)
    ensures WellSeparated(FileMenu(isBinary, perms))
  {
    var edit := When(FileUpdate in perms, When(!isBinary, [Item(EditFile), Item(QuickUpdateFile)]) + [Item(RenameFile)]);
    var head := edit + When(FileView in perms, [Item(DownloadFile)]);
    assert Separator !in head;
  }

  /** A file menu offers its items exactly under their permissions, edit and
      quick update only for a file that is not binary, and nothing that
      belongs to a directory. */
  lemma FileMenuItems(isBinary: bool, perms: set<Permission>)
    ensures var menu := FileMenu(isBinary, perms);
            && (Item(EditFile) in menu <==> FileUpdate in perms && !isBinary)
            && (Item(QuickUpdateFile) in menu <==> FileUpdate in perms && !isBinary)
            && (Item(RenameFile) in menu <==> FileUpdate in perms)
            && (Item(DownloadFile) in menu <==> FileView in perms)
            && (Item(RemoveFile) in menu <==> FileRemove in perms)
            && (forall h :: Item(h) in menu ==> h in {EditFile, QuickUpdateFile, RenameFile, DownloadFile, RemoveFile})
  {
    FileMenuEditGroup(isBinary, perms);
    FileMenuTail(isBinary, perms);
    FileMenuOnlyFileItems(isBinary, perms);
  }

  /** The edit group of a file menu. */
  lemma FileMenuEditGroup(isBinary: bool, perms: set<Permission>)
    ensures var menu := FileMenu(isBinary, perms);
            && (Item(EditFile) in menu <==> FileUpdate in perms && !isBinary)
            && (Item(QuickUpdateFile) in menu <==> FileUpdate in perms && !isBinary)
            && (Item(RenameFile) in menu <==> FileUpdate in perms)
  {
  }

  /** The download and remove items of a file menu. */
  lemma FileMenuTail(isBinary: bool, perms: set<Permission>)
    ensures var menu := FileMenu(isBinary, perms);
            && (Item(DownloadFile) in menu <==> FileView in perms)
            && (Item(RemoveFile) in menu <==> FileRemove in perms)
  {
  }

  /** A file menu holds file items only. */
  lemma FileMenuOnlyFileItems(isBinary: bool, perms: set<Permission>)
    ensures forall h :: Item(h) in FileMenu(isBinary, perms) ==> h in {EditFile, QuickUpdateFile, RenameFile, DownloadFile, RemoveFile}
  {
  }

  /** A directory menu never starts or ends with a separator and never has two in a row. */
  lemma DirMenuSeparated(perms: set<Permission>)
    ensures WellSeparated(DirMenu(perms))
  {
    var a := When(DirectoryCreate in perms, [Item(CreateDirectory)]) + [Item(RefreshActiveNode)];
    var b := a + When(FileUpload in perms, [Separator, Item(UploadFiles)]);
    var c := b + When(FileCreate in perms, [Item(CreateFile), Item(QuickCreateFile)]);
    assert Separator !in a && a[0] != Separator;
    assert WellSeparated(b) && b[|b| - 1] != Separator;
    assert WellSeparated(c) && c[|c| - 1] != Separator;
  }

  /** A directory menu always offers refresh, never a rename, and offers its
      other items exactly under their permissions. */
  lemma DirMenuItems(perms: set<Permission>)
    ensures var menu := DirMenu(perms);
            && Item(RefreshActiveNode) in menu
            && Item(RenameDirectory) !in menu
            && (Item(CreateDirectory) in menu <==> DirectoryCreate in perms)
            && (Item(UploadFiles) in menu <==> FileUpload in perms)
            && (Item(CreateFile) in menu <==> FileCreate in perms)
            && (Item(QuickCreateFile) in menu <==> FileCreate in perms)
            && (Item(RemoveDirectory) in menu <==> DirectoryRemove in perms)
            && (forall h :: Item(h) in menu ==> h in {CreateDirectory, RefreshActiveNode, UploadFiles, CreateFile, QuickCreateFile, RemoveDirectory})
  {
    DirMenuHead(perms);
    DirMenuGroups(perms);
    DirMenuOnlyDirItems(perms);
  }

  /** The head of a directory menu: create-here and refresh. */
  lemma DirMenuHead(perms: set<Permission>)
    ensures var menu := DirMenu(perms);
            && Item(RefreshActiveNode) in menu
            && Item(RenameDirectory) !in menu
            && (Item(CreateDirectory) in menu <==> DirectoryCreate in perms)
  {
  }

  /** The upload, create and remove groups of a directory menu. */
  lemma DirMenuGroups(perms: set<Permission>)
    ensures var menu := DirMenu(perms);
            && (Item(UploadFiles) in menu <==> FileUpload in perms)
            && (Item(CreateFile) in menu <==> FileCreate in perms)
            && (Item(QuickCreateFile) in menu <==> FileCreate in perms)
            && (Item(RemoveDirectory) in menu <==> DirectoryRemove in perms)
  {
  }

  /** A directory menu holds directory items only. */
  lemma DirMenuOnlyDirItems(perms: set<Permission>)
    ensures forall h :: Item(h) in DirMenu(perms) ==> h in {CreateDirectory, RefreshActiveNode, UploadFiles, CreateFile, QuickCreateFile, RemoveDirectory}
  {
  }

  /** Every context menu is well separated; the edit items need the update
      permission and a file that is not binary; refresh is in exactly the
      directory menus; no menu offers to rename a directory. */
  lemma ContextMenuItems(isDir: bool, isBinary: bool, perms: set<Permission>)
    ensures var menu := ContextMenu(isDir, isBinary, perms);
            && WellSeparated(menu)
            && (Item(EditFile) in menu <==> !isDir && FileUpdate in perms && !isBinary)
            && (Item(QuickUpdateFile) in menu <==> !isDir && FileUpdate in perms && !isBinary)
            && (Item(RenameFile) in menu <==> !isDir && FileUpdate in perms)
            && (Item(RefreshActiveNode) in menu <==> isDir)
            && Item(RenameDirectory) !in menu
  {
    if isDir { DirMenuSeparated(perms); DirMenuItems(perms); } else { FileMenuSeparated(isBinary, perms); FileMenuItems(isBinary, perms); }
  }
}
