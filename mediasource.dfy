/** SwiftMediaSource: the folder-and-file operations of the media source over
    one Swift container. The container is a map from decoded key to object;
    every backend call percent-encodes its key, and the container answers
    under the decoded key. How each backend call ends is an argument of the
    operation (see Backend.Call); an exception is caught at the boundary of
    the operation, as in the source, except in getContainerList and
    getObjectsInContainer, which catch none. */
module MediaSource {
  import opened Strings
  import opened Order
  import opened Paths
  import opened Menus
  import opened Backend
  import opened Tree
  import opened Gallery
  import opened Uploads
  import Percent

  /** The manager actions the source logs (logManagerAction). */
  datatype Action = DirCreated | DirRemoved | FileUploaded | FileCreated | FileSaved | FileRenamed | FileRemoved

  /** One audit-log entry: the action and the item it names. */
  datatype LogEntry = LogEntry(action: Action, item: string)

  /** One OnFileManagerUpload event: the directory prefix and the batch. */
  datatype UploadEvent = UploadEvent(directory: string, files: seq<PendingObject>)

  /** What a fetch answers. */
  datatype Fetched = Found(obj: StoredObject) | Missing | FetchThrew

  /** What an update or a delete answers: its truth value, or an exception. */
  datatype Reply = Replied(ok: bool) | Threw

  /** What getObjectContents returns for a file it finds. */
  datatype Contents = Contents(name: string, basename: string, path: string, size: nat, content: string, image: bool)

  /** The reply of an update or delete that ends as c says. */
  function ReplyOf(c: Call): (r: Reply)
    ensures r == Threw <==> c == Throws
    ensures r == Replied(true) <==> c == Succeeds
  {
    match c
    case Succeeds => Replied(true)
    case Refuses => Replied(false)
    case Throws => Threw
  }

  /** The "old -> new" item of a rename entry in the log. */
  function RenameItem(from: string, to: string): string
  {
    from + " -> " + to
  }

  /** The image extensions getObjectContents compares against: each listed
      extension trimmed of whitespace. */
  function TrimEach(xs: seq<string>): (r: seq<string>)
    ensures |r| == |xs|
    ensures forall i :: 0 <= i < |xs| ==> r[i] == Trim(xs[i], Whitespace)
  {
    if xs == [] then [] else [Trim(xs[0], Whitespace)] + TrimEach(xs[1..])
  }

  /** The image flag of getObjectContents: the extension of the path, as it
      is, among the trimmed image extensions. */
  predicate IsImagePath(imageExtensions: string, path: string)
  {
    Extension(path) in TrimEach(Explode(imageExtensions, ','))
  }

  /** The container after a rename as the source writes it: the object put
      under the new key, then the old key deleted. */
  function RenamedStoreAsWritten(store: map<string, StoredObject>, oldPath: string, newName: string): map<string, StoredObject>
    requires oldPath in store
  {
    store[RenameKey(oldPath, newName) := store[oldPath]] - {oldPath}
  }

  /** Renaming a file to the name it already has loses it. */
  lemma RenameToSameNameLosesFile()
    ensures var store := map["docs/a.txt" := StoredObject(None, "x")];
            && "docs/a.txt" in store
            && RenamedStoreAsWritten(store, "docs/a.txt", "a.txt") == map[]
  {
    var store := map["docs/a.txt" := StoredObject(None, "x")];
    var p := "docs/a.txt";
    assert LastPart(p[..5], '/') == "";
    assert LastPart(p[..6], '/') == "a";
    assert p[..7][..6] == p[..6];
    assert LastPart(p[..7], '/') == "a.";
    assert p[..8][..7] == p[..7];
    assert LastPart(p[..8], '/') == "a.t";
    assert p[..9][..8] == p[..8];
    assert LastPart(p[..9], '/') == "a.tx";
    assert p[..9] == p[..|p| - 1];
    assert LastPart(p, '/') == "a.txt";
    RenameToSameName(p);
    var after := RenamedStoreAsWritten(store, "docs/a.txt", "a.txt");
    assert after.Keys == {};
  }

  /** The container after a rename, with the new key equal to the old one
      read as "nothing to do", as moveObject does. */
  function RenamedStore(store: map<string, StoredObject>, oldPath: string, newName: string): map<string, StoredObject>
    requires oldPath in store
  {
    var newPath := RenameKey(oldPath, newName);
    if newPath == oldPath then store else store[newPath := store[oldPath]] - {oldPath}
  }

  /** A rename keeps the object: it is found under the new key, the old key
      is gone unless it is the new one, and every other key is untouched. */
  lemma RenameKeepsFile(store: map<string, StoredObject>, oldPath: string, newName: string)
    requires oldPath in store
    ensures var after := RenamedStore(store, oldPath, newName);
            var newPath := RenameKey(oldPath, newName);
            && newPath in after && after[newPath] == store[oldPath]
            && (oldPath in after <==> newPath == oldPath)
            && (forall k :: k != oldPath && k != newPath ==> (k in after <==> k in store))
            && (forall k :: k != oldPath && k != newPath && k in store ==> after[k] == store[k])
  {
  }

  class SwiftMediaSource {
    /** The objects of the container, by decoded key. */
    var store: map<string, StoredObject>
    /** The addError calls so far. */
    var errors: seq<FieldError>
    /** The logManagerAction calls so far. */
    var log: seq<LogEntry>
    /** The OnFileManagerUpload events so far. */
    var events: seq<UploadEvent>
    /** The message put on the host's error object (s3_no_move_folder, with the source path). */
    var moveFolderError: Option<string>

    /** The media source properties and file manager settings. */
    const props: GalleryConfig
    /** The upload settings. */
    const uploads: UploadConfig
    /** The permissions of the current user. */
    const perms: set<Permission>

    constructor(props: GalleryConfig, uploads: UploadConfig, perms: set<Permission>, store: map<string, StoredObject>)
      ensures this.props == props && this.uploads == uploads && this.perms == perms
      ensures this.store == store && errors == [] && log == [] && events == [] && moveFolderError == None
    {
      this.props := props;
      this.uploads := uploads;
      this.perms := perms;
      this.store := store;
      errors := [];
      log := [];
      events := [];
      moveFolderError := None;
    }

    // ----- backend calls -----

    /** getObject / getPartialObject of an encoded name. */
    method Fetch(name: string, call: Call) returns (r: Fetched)
      ensures call == Throws ==> r == FetchThrew
      ensures call != Throws && Percent.Decode(name) in store ==> r == Found(store[Percent.Decode(name)])
      ensures call != Throws && Percent.Decode(name) !in store ==> r == Missing
    {
      if call == Throws {
        r := FetchThrew;
      } else if Percent.Decode(name) in store {
        r := Found(store[Percent.Decode(name)]);
      } else {
        r := Missing;
      }
    }

    /** update / uploadObject of an object under an encoded name. */
    method Put(name: string, obj: StoredObject, call: Call) returns (r: Reply)
      modifies this`store
      ensures r == ReplyOf(call)
      ensures store == if call == Succeeds then old(store)[Percent.Decode(name) := obj] else old(store)
    {
      r := ReplyOf(call);
      if call == Succeeds {
        store := store[Percent.Decode(name) := obj];
      }
    }

    /** delete of an encoded name. */
    method Delete(name: string, call: Call) returns (r: Reply)
      modifies this`store
      ensures r == ReplyOf(call)
      ensures store == if call == Succeeds then old(store) - {Percent.Decode(name)} else old(store)
    {
      r := ReplyOf(call);
      if call == Succeeds {
        store := store - {Percent.Decode(name)};
      }
    }

    /** uploadObjects of a batch. The client puts the objects one after the
        other and rolls nothing back: when it throws, the first `stored`
        objects of the batch (all of them, if the batch is shorter) are in
        the container already. */
    method UploadObjects(objs: seq<PendingObject>, call: Call, stored: nat) returns (r: Reply)
      modifies this`store
      ensures r == ReplyOf(call)
      ensures store == if call == Succeeds then ApplyUploads(old(store), objs)
                       else if call == Throws then ApplyUploads(old(store), objs[..StoredCount(objs, stored)])
                       else old(store)
    {
      r := ReplyOf(call);
      if call == Succeeds {
        store := ApplyUploads(store, objs);
      } else if call == Throws {
        store := ApplyUploads(store, objs[..StoredCount(objs, stored)]);
      }
    }

    /** Fetch of a path: the backend is asked for the encoded path, which
        decodes back to the path. */
    method FetchAt(path: string, call: Call) returns (r: Fetched)
      ensures call == Throws ==> r == FetchThrew
      ensures call != Throws && path in store ==> r == Found(store[path])
      ensures call != Throws && path !in store ==> r == Missing
    {
      Percent.DecodeEncode(path);
      r := Fetch(Percent.Encode(path), call);
    }

    /** Put under the encoded path, which stores the object under the path. */
    method PutAt(path: string, obj: StoredObject, call: Call) returns (r: Reply)
      modifies this`store
      ensures r == ReplyOf(call)
      ensures store == if call == Succeeds then old(store)[path := obj] else old(store)
    {
      Percent.DecodeEncode(path);
      r := Put(Percent.Encode(path), obj, call);
    }

    /** Delete of the encoded path, which removes the path. */
    method DeleteAt(path: string, call: Call) returns (r: Reply)
      modifies this`store
      ensures r == ReplyOf(call)
      ensures store == if call == Succeeds then old(store) - {path} else old(store)
    {
      Percent.DecodeEncode(path);
      r := Delete(Percent.Encode(path), call);
    }

    // ----- folders -----

    /** createContainer: stores a directory marker under the new key and logs
        it when the update succeeds; only an exception makes it fail. */
    method CreateContainer(name: string, parent: string, update: Call) returns (ok: bool)
      modifies this`store, this`log, this`errors
      ensures var newPath := ContainerKey(name, parent);
              && (ok <==> update != Throws)
              && store == (if update == Succeeds then old(store)[newPath := StoredObject(Some(DirectoryType), "")] else old(store))
              && log == old(log) + (if update == Succeeds then [LogEntry(DirCreated, newPath)] else [])
              && errors == old(errors) + (if update == Throws then [FieldError(Name, FolderCreateFailed(newPath))] else [])
    {
      var newPath := ContainerKey(name, parent);
      var r := PutAt(newPath, StoredObject(Some(DirectoryType), ""), update);
      if r == Threw {
        errors := errors + [FieldError(Name, FolderCreateFailed(newPath))];
        ok := false;
      } else {
        if r.ok {
          log := log + [LogEntry(DirCreated, newPath)];
        }
        ok := true;
      }
    }

    /** renameContainer: its body is commented out in the source, so it
        changes nothing and always fails. */
    method RenameContainer(oldPath: string, newName: string) returns (ok: bool)
      ensures !ok
    {
      ok := false;
    }

    /** removeContainer: deletes the marker it finds and logs it when the
        delete succeeds; a missing folder or an exception makes it fail. */
    method RemoveContainer(path: string, fetch: Call, delete: Call) returns (ok: bool)
      modifies this`store, this`log, this`errors
      ensures var found := fetch != Throws && path in old(store);
              && (ok <==> found && delete != Throws)
              && store == (if found && delete == Succeeds then old(store) - {path} else old(store))
              && log == old(log) + (if found && delete == Succeeds then [LogEntry(DirRemoved, path)] else [])
              && errors == old(errors) + (
                   if fetch != Throws && path !in old(store) then [FieldError(Dir, FolderNotFound(path))]
                   else if fetch == Throws || delete == Throws then [FieldError(Name, FolderRemoveFailed(path))]
                   else [])
    {
      var f := FetchAt(path, fetch);
      if f == FetchThrew {
        errors := errors + [FieldError(Name, FolderRemoveFailed(path))];
        ok := false;
      } else if f == Missing {
        errors := errors + [FieldError(Dir, FolderNotFound(path))];
        ok := false;
      } else {
        var r := DeleteAt(path, delete);
        if r == Threw {
          errors := errors + [FieldError(Name, FolderRemoveFailed(path))];
          ok := false;
        } else {
          if r.ok {
            log := log + [LogEntry(DirRemoved, path)];
          }
          ok := true;
        }
      }
    }

    // ----- files -----

    /** The validation loop of uploadObjectsToContainer: the batch of the
        valid files, in order, and one error per rejected file. */
    method ValidateUploads(path: string, files: seq<UploadFile>) returns (objects: seq<PendingObject>)
      modifies this`errors
      ensures objects == Accepted(uploads, path, files)
      ensures errors == old(errors) + Rejections(uploads, path, files)
    {
      objects := [];
      var i := 0;
      while i < |files|
        invariant 0 <= i <= |files|
        invariant objects == Accepted(uploads, path, files[..i])
        invariant errors == old(errors) + Rejections(uploads, path, files[..i])
      {
        var v := Check(uploads, path, files[i]);
        if v.Reject? {
          errors := errors + [FieldError(Path, v.code)];
        } else if v.Accept? {
          objects := objects + [v.obj];
        }
        assert files[..i + 1] == files[..i] + [files[i]];
        UploadsSnoc(uploads, path, files[..i], files[i]);
        i := i + 1;
      }
      assert files[..|files|] == files;
    }

    /** uploadObjectsToContainer: validates the files, announces the batch,
        uploads it, and on success announces it again and logs the upload. */
    method UploadObjectsToContainer(path: string, files: seq<UploadFile>, upload: Call, stored: nat) returns (ok: bool)
      modifies this`store, this`log, this`errors, this`events
      ensures var dir := DirPrefix(path);
              var batch := Accepted(uploads, path, files);
              && (ok <==> upload == Succeeds)
              && store == (if ok then ApplyUploads(old(store), batch)
                           else if upload == Throws then ApplyUploads(old(store), batch[..StoredCount(batch, stored)])
                           else old(store))
              && events == old(events) + [UploadEvent(dir, batch)] + (if ok then [UploadEvent(dir, batch)] else [])
              && log == old(log) + (if ok then [LogEntry(FileUploaded, dir)] else [])
              && errors == old(errors) + Rejections(uploads, path, files)
                           + (if upload == Throws then [FieldError(Path, UploadFailed)] else [])
    {
      var dir := DirPrefix(path);
      var objects := ValidateUploads(path, files);
      events := events + [UploadEvent(dir, objects)];
      var r := UploadObjects(objects, upload, stored);
      if r == Threw {
        errors := errors + [FieldError(Path, UploadFailed)];
        ok := false;
      } else if r.ok {
        events := events + [UploadEvent(dir, objects)];
        log := log + [LogEntry(FileUploaded, dir)];
        ok := true;
      } else {
        ok := false;
      }
    }

    /** createObject: uploads the content under the new key; on success it
        logs the key and returns it. */
    method CreateObject(path: string, name: string, content: string, upload: Call) returns (r: Option<string>)
      modifies this`store, this`log, this`errors
      ensures var key := ObjectKey(path, name);
              && (r.Some? <==> upload == Succeeds)
              && (r.Some? ==> r.value == key)
              && store == (if upload == Succeeds then old(store)[key := StoredObject(None, content)] else old(store))
              && log == old(log) + (if upload == Succeeds then [LogEntry(FileCreated, key)] else [])
              && errors == old(errors) + (if upload == Throws then [FieldError(Name, SaveFailed(key))] else [])
    {
      var key := ObjectKey(path, name);
      var u := PutAt(key, StoredObject(None, content), upload);
      if u == Threw {
        errors := errors + [FieldError(Name, SaveFailed(key))];
        r := None;
      } else if u.ok {
        log := log + [LogEntry(FileCreated, key)];
        r := Some(key);
      } else {
        r := None;
      }
    }

    /** updateObject: replaces the content of the file it finds, keeping its
        content type, and logs it when the update succeeds. */
    method UpdateObject(path: string, content: string, fetch: Call, update: Call) returns (ok: bool)
      modifies this`store, this`log, this`errors
      ensures var found := fetch != Throws && path in old(store);
              && (ok <==> found && update != Throws)
              && store == (if found && update == Succeeds
                           then old(store)[path := StoredObject(old(store)[path].contentType, content)]
                           else old(store))
              && log == old(log) + (if found && update == Succeeds then [LogEntry(FileSaved, path)] else [])
              && errors == old(errors) + (
                   if fetch != Throws && path !in old(store) then [FieldError(File, FileNotFound(path))]
                   else if fetch == Throws || update == Throws then [FieldError(Name, SaveFailed(path))]
                   else [])
    {
      var f := FetchAt(path, fetch);
      if f == FetchThrew {
        errors := errors + [FieldError(Name, SaveFailed(path))];
        ok := false;
      } else if f == Missing {
        errors := errors + [FieldError(File, FileNotFound(path))];
        ok := false;
      } else {
        var u := PutAt(path, StoredObject(f.obj.contentType, content), update);
        if u == Threw {
          errors := errors + [FieldError(Name, SaveFailed(path))];
          ok := false;
        } else {
          if u.ok {
            log := log + [LogEntry(FileSaved, path)];
          }
          ok := true;
        }
      }
    }

    /** renameObject, with a new key equal to the old one read as "nothing to
        do": it copies the file it finds to the new key, then looks the old
        key up again and deletes it, and logs the rename. */
    method RenameObject(oldPath: string, newName: string, fetch: Call, update: Call, refetch: Call, delete: Call)
      returns (ok: bool)
      modifies this`store, this`log, this`errors
      ensures var found := fetch != Throws && oldPath in old(store);
              var newPath := RenameKey(oldPath, newName);
              var copied := found && newPath != oldPath && update == Succeeds;
              var finished := copied && refetch != Throws && delete != Throws;
              && (ok <==> found && (newPath == oldPath || update == Refuses || finished))
              && store == (if finished && delete == Succeeds then RenamedStore(old(store), oldPath, newName)
                           else if copied then old(store)[newPath := old(store)[oldPath]]
                           else old(store))
              && log == old(log) + (if finished then [LogEntry(FileRenamed, RenameItem(oldPath, newPath))] else [])
              && errors == old(errors) + (
                   if fetch != Throws && oldPath !in old(store) then [FieldError(File, FileNotFound(oldPath))]
                   else if fetch == Throws || (found && newPath != oldPath && update != Refuses && !finished)
                   then [FieldError(Name, RenameFailed(oldPath))]
                   else [])
    {
      var f := FetchAt(oldPath, fetch);
      if f == FetchThrew {
        errors := errors + [FieldError(Name, RenameFailed(oldPath))];
        return false;
      }
      if f == Missing {
        errors := errors + [FieldError(File, FileNotFound(oldPath))];
        return false;
      }
      var newPath := RenameKey(oldPath, newName);
      if newPath == oldPath {
        return true;
      }
      var u := PutAt(newPath, f.obj, update);
      if u == Threw {
        errors := errors + [FieldError(Name, RenameFailed(oldPath))];
        return false;
      }
      if u.ok {
        ok := MoveRest(oldPath, newPath, refetch, delete, Name, RenameFailed(oldPath));
        return;
      }
      ok := true;
    }

    /** What renameObject and moveObject do once the copy under the new key
        is stored: look the old key up again, delete it, and log the move;
        an exception adds the error given. */
    method MoveRest(from: string, to: string, refetch: Call, delete: Call, field: Field, failure: Code) returns (ok: bool)
      requires from in store && from != to
      modifies this`store, this`log, this`errors
      ensures ok <==> refetch != Throws && delete != Throws
      ensures store == if ok && delete == Succeeds then old(store) - {from} else old(store)
      ensures log == old(log) + if ok then [LogEntry(FileRenamed, RenameItem(from, to))] else []
      ensures errors == old(errors) + if ok then [] else [FieldError(field, failure)]
    {
      var g := FetchAt(from, refetch);
      if g == FetchThrew {
        errors := errors + [FieldError(field, failure)];
        return false;
      }
      var d := DeleteAt(from, delete);
      if d == Threw {
        errors := errors + [FieldError(field, failure)];
        return false;
      }
      log := log + [LogEntry(FileRenamed, RenameItem(from, to))];
      ok := true;
    }

    /** moveObject: refuses a folder; otherwise copies the file to its
        destination, then deletes the source and logs the move. A move onto
        itself succeeds without touching the backend. */
    method MoveObject(from: string, to: string, point: string, fetch: Call, update: Call, refetch: Call, delete: Call)
      returns (ok: bool)
      modifies this`store, this`log, this`errors, this`moveFolderError
      ensures var folder := from != [] && from[|from| - 1] == '/';
              var dest := MoveDestination(from, to, point);
              var found := fetch != Throws && from in old(store);
              var tried := !folder && from != dest;
              var copied := tried && found && update == Succeeds;
              var finished := copied && refetch != Throws && delete != Throws;
              && (ok <==> !folder && (from == dest || finished))
              && moveFolderError == (if folder then Some(from) else old(moveFolderError))
              && store == (if finished && delete == Succeeds then old(store)[dest := old(store)[from]] - {from}
                           else if copied then old(store)[dest := old(store)[from]]
                           else old(store))
              && log == old(log) + (if finished then [LogEntry(FileRenamed, RenameItem(from, dest))] else [])
              && errors == old(errors) + (
                   if tried && fetch != Throws && from !in old(store) then [FieldError(File, FileNotFound(from))]
                   else if tried && (fetch == Throws || (found && update != Refuses && !finished))
                   then [FieldError(File, MoveFailed(dest, from))]
                   else [])
    {
      if from != [] && from[|from| - 1] == '/' {
        moveFolderError := Some(from);
        return false;
      }
      var dest := MoveDestination(from, to, point);
      if from == dest {
        return true;
      }
      var f := FetchAt(from, fetch);
      if f == FetchThrew {
        errors := errors + [FieldError(File, MoveFailed(dest, from))];
        return false;
      }
      if f == Missing {
        errors := errors + [FieldError(File, FileNotFound(from))];
        return false;
      }
      var u := PutAt(dest, f.obj, update);
      if u == Threw {
        errors := errors + [FieldError(File, MoveFailed(dest, from))];
        return false;
      }
      if !u.ok {
        return false;
      }
      ok := MoveRest(from, dest, refetch, delete, File, MoveFailed(dest, from));
    }

    /** removeObject: deletes the file it finds and logs it when the delete
        succeeds; a missing file or an exception makes it fail. */
    method RemoveObject(path: string, fetch: Call, delete: Call) returns (ok: bool)
      modifies this`store, this`log, this`errors
      ensures var found := fetch != Throws && path in old(store);
              && (ok <==> found && delete != Throws)
              && store == (if found && delete == Succeeds then old(store) - {path} else old(store))
              && log == old(log) + (if found && delete == Succeeds then [LogEntry(FileRemoved, path)] else [])
              && errors == old(errors) + (
                   if fetch != Throws && path !in old(store) then [FieldError(File, FileNotSpecified(path))]
                   else if fetch == Throws || delete == Throws then [FieldError(Name, RemoveFailed(path))]
                   else [])
    {
      var f := FetchAt(path, fetch);
      if f == FetchThrew {
        errors := errors + [FieldError(Name, RemoveFailed(path))];
        ok := false;
      } else if f == Missing {
        errors := errors + [FieldError(File, FileNotSpecified(path))];
        ok := false;
      } else {
        var r := DeleteAt(path, delete);
        if r == Threw {
          errors := errors + [FieldError(Name, RemoveFailed(path))];
          ok := false;
        } else {
          if r.ok {
            log := log + [LogEntry(FileRemoved, path)];
          }
          ok := true;
        }
      }
    }

    // ----- listings -----

    /** getListContextMenu. */
    method GetListContextMenu(isDir: bool, isBinary: bool) returns (menu: seq<MenuItem>)
      ensures menu == ContextMenu(isDir, isBinary, perms)
    {
      menu := [];
      if !isDir {
        if FileUpdate in perms {
          if !isBinary {
            menu := menu + [Item(EditFile)];
            menu := menu + [Item(QuickUpdateFile)];
          }
          menu := menu + [Item(RenameFile)];
        }
        ghost var edit := menu;
        assert edit == When(FileUpdate in perms, When(!isBinary, [Item(EditFile), Item(QuickUpdateFile)]) + [Item(RenameFile)]);
        if FileView in perms {
          menu := menu + [Item(DownloadFile)];
        }
        ghost var head := menu;
        assert head == edit + When(FileView in perms, [Item(DownloadFile)]);
        if FileRemove in perms {
          if menu != [] {
            menu := menu + [Separator];
          }
          menu := menu + [Item(RemoveFile)];
        }
        assert menu == head + When(FileRemove in perms, When(head != [], [Separator]) + [Item(RemoveFile)]);
      } else {
        if DirectoryCreate in perms {
          menu := menu + [Item(CreateDirectory)];
        }
        menu := menu + [Item(RefreshActiveNode)];
        ghost var a := menu;
        assert a == When(DirectoryCreate in perms, [Item(CreateDirectory)]) + [Item(RefreshActiveNode)];
        if FileUpload in perms {
          menu := menu + [Separator];
          menu := menu + [Item(UploadFiles)];
        }
        ghost var b := menu;
        assert b == a + When(FileUpload in perms, [Separator, Item(UploadFiles)]);
        if FileCreate in perms {
          menu := menu + [Item(CreateFile)];
          menu := menu + [Item(QuickCreateFile)];
        }
        ghost var c := menu;
        assert c == b + When(FileCreate in perms, [Item(CreateFile), Item(QuickCreateFile)]);
        if DirectoryRemove in perms {
          menu := menu + [Separator];
          menu := menu + [Item(RemoveDirectory)];
        }
        assert menu == c + When(DirectoryRemove in perms, [Separator, Item(RemoveDirectory)]);
      }
    }
  
    /** The body of getContainerList's loop for one record: whether it is a
        directory marker, its path, and the entry it becomes. Its ensures tie
        the entry to Tree.DirEntryOf or Tree.FileEntryOf. */
    method TreeRecord(obj: BackendRecord) returns (isDir: bool, currentPath: string, entry: Entry)
      ensures isDir == IsDirectoryType(obj.contentType) && currentPath == RecordPath(obj)
      ensures isDir ==> entry == DirEntryOf(currentPath, perms)
      ensures !isDir ==> entry == FileEntryOf(currentPath, obj.contentType, props.baseUrl, perms)
    {
      currentPath := RTrim(Percent.Decode(obj.name), Slash);
      var fileName := Basename(currentPath);
      var contentType := obj.contentType;
      isDir := Lower(contentType) == DirectoryType;
      if isDir {
        var menu := GetListContextMenu(true, false);
        entry := DirEntry(currentPath + "/", fileName, currentPath, menu);
      } else {
        var extension := Lower(Extension(fileName));
        var menu := GetListContextMenu(false, !IsTextType(contentType));
        entry := FileEntry(currentPath, fileName, currentPath, extension,
                           RTrim(props.baseUrl, Slash) + "/" + currentPath, menu);
      }
    }

    /** The entries of a map in the order of its sorted keys. */
    method EmitSorted(m: map<string, Entry>) returns (ls: seq<Entry>)
      requires forall p :: p in m ==> m[p].path == p
      ensures IsGroup(ls, m) && |ls| == |m|
    {
      var ks := SortKeys(m.Keys);
      ls := [];
      var j := 0;
      while j < |ks|
        invariant 0 <= j <= |ks|
        invariant |ls| == j
        invariant forall k :: 0 <= k < j ==> ls[k] == m[ks[k]]
      {
        ls := ls + [m[ks[j]]];
        j := j + 1;
      }
      GroupInOrder(ls, m, ks);
    }

    /** The second half of getContainerList: the directory entries in the
        order of their sorted paths, then the file entries likewise. */
    method EmitListing(directories: map<string, Entry>, files: map<string, Entry>) returns (ls: seq<Entry>)
      requires forall p :: p in directories ==> directories[p].DirEntry? && directories[p].path == p
      requires forall p :: p in files ==> files[p].FileEntry? && files[p].path == p
      ensures IsTreeListing(ls, directories, files)
    {
      var dirList := EmitSorted(directories);
      var fileList := EmitSorted(files);
      GroupsMakeTreeListing(dirList, fileList, directories, files);
      ls := dirList + fileList;
    }

    /** getContainerList: the prefix it asks the backend for, and the tree
        listing of the records the backend answers. */
    method GetContainerList(path: string, list: seq<BackendRecord>) returns (prefix: string, ls: seq<Entry>)
      ensures prefix == ListingPrefix(path)
      ensures IsTreeListing(ls, DirMap(list, perms), FileMap(list, props.baseUrl, perms))
    {
      prefix := ListingPrefix(path);
      var directories: map<string, Entry> := map[];
      var files: map<string, Entry> := map[];
      var i := 0;
      while i < |list|
        invariant 0 <= i <= |list|
        invariant directories == DirMap(list[..i], perms)
        invariant files == FileMap(list[..i], props.baseUrl, perms)
      {
        MapsStep(list, i, props.baseUrl, perms);
        var isDir, currentPath, entry := TreeRecord(list[i]);
        if isDir {
          directories := directories[currentPath := entry];
        } else {
          files := files[currentPath := entry];
        }
        i := i + 1;
      }
      assert list[..|list|] == list;
      DirMapKeyedByPath(list, perms);
      FileMapKeyedByPath(list, props.baseUrl, perms);
      ls := EmitListing(directories, files);
    }

    /** The preview sizes getObjectsInContainer works out for an item with
        extension ext at objectUrl, step by step; proved equal to
        Gallery.Thumbnail. */
    method ThumbFor(ext: string, objectUrl: string, probes: map<string, Dims>) returns (thumb: Thumb)
      ensures thumb == Thumbnail(props, ext, if objectUrl in probes then Some(probes[objectUrl]) else None)
    {
      if ext in Explode(props.imageExtensions, ',') {
        var imageWidth := props.imageWidth;
        var imageHeight := props.imageHeight;
        var thumbHeight := props.thumbHeight;
        var thumbWidth := props.thumbWidth;
        if objectUrl in probes {
          var size := probes[objectUrl];
          imageWidth := if size.width > 800 then 800 else size.width;
          imageHeight := if size.height > 600 then 600 else size.height;
        }
        if thumbWidth > imageWidth {
          thumbWidth := imageWidth;
        }
        if thumbHeight > imageHeight {
          thumbHeight := imageHeight;
        }
        thumb := Preview(thumbWidth, thumbHeight, imageWidth, imageHeight);
      } else {
        thumb := NoPreview(props.thumbWidth, props.thumbHeight);
      }
    }

    /** The body of getObjectsInContainer's loop for one record: the item it
        becomes, or nothing when the loop moves on; proved equal to
        Gallery.GalleryEntry. */
    method GalleryRecord(obj: BackendRecord, probes: map<string, Dims>) returns (item: Option<GalleryItem>)
      ensures item == GalleryEntry(props, probes, obj)
    {
      var containerUrl := RTrim(props.baseUrl, Slash) + "/";
      var skipFiles := Explode(props.skipFiles, ',') + [".", ".."];
      var name := RTrim(Percent.Decode(obj.name), Slash);
      var baseName := Basename(name);
      var contentType := obj.contentType;
      var objectUrl := containerUrl + Trim(name, Slash);
      var isDir := Lower(contentType) == DirectoryType;
      assert name == RecordPath(obj) && skipFiles == SkipList(props) && containerUrl == ContainerUrl(props);
      assert isDir == IsDirectoryType(obj.contentType);
      item := None;
      if name in skipFiles {
        return;
      }
      if !isDir {
        var ext := Lower(Extension(baseName));
        assert ext == ItemExtension(obj);
        if !PhpEmpty(props.allowedFileTypes) && ext !in Explode(props.allowedFileTypes, ',') {
          return;
        }
        assert Shown(props, obj);
        var thumb := ThumbFor(ext, objectUrl, probes);
        item := Some(GalleryItem(name, baseName, objectUrl, obj.size, ext, thumb, [Item(RemoveFile)]));
        assert item.value == ItemOf(props, probes, obj);
      }
    }

    /** getObjectsInContainer: the prefix it asks the backend for, and the
        gallery of the records the backend answers; probes holds the sizes
        getimagesize reports. */
    method GetObjectsInContainer(path: string, list: seq<BackendRecord>, probes: map<string, Dims>)
      returns (prefix: string, files: seq<GalleryItem>)
      ensures prefix == ListingPrefix(path)
      ensures files == GalleryList(props, probes, list)
    {
      prefix := ListingPrefix(path);
      files := [];
      var i := 0;
      while i < |list|
        invariant 0 <= i <= |list|
        invariant files == GalleryList(props, probes, list[..i])
      {
        var item := GalleryRecord(list[i], probes);
        GalleryStep(props, probes, list, i);
        if item.Some? {
          files := files + [item.value];
        }
        i := i + 1;
      }
      assert list[..|list|] == list;
    }

    /** getObjectContents: the file at path, or nothing when it is missing
        or the fetch throws. */
    method GetObjectContents(path: string, fetch: Call) returns (r: Option<Contents>)
      ensures r.Some? <==> fetch != Throws && path in store
      ensures r.Some? ==>
                && r.value.name == path && r.value.path == path
                && r.value.basename == Basename(path)
                && r.value.content == store[path].content && r.value.size == |store[path].content|
                && (r.value.image <==> IsImagePath(props.imageExtensions, path))
    {
      var imageExtensions := TrimEach(Explode(props.imageExtensions, ','));
      var found := FetchAt(path, fetch);
      if found.Found? {
        Percent.DecodeEncode(path);
        var name := Percent.Decode(Percent.Encode(path));
        var content := found.obj.content;
        r := Some(Contents(name, Basename(name), path, |content|, content, Extension(path) in imageExtensions));
      } else {
        r := None;
      }
    }
  }
}
