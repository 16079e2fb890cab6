# SwiftMediaSource: a verified model of the virtual file system

`SwiftMediaSource` is a media source for the MODX file manager built on top of
an OpenStack Swift container. Swift stores objects in one flat namespace. The
media source fakes folders and files on top of it: a "directory" is a
zero-length object with content type `application/directory`, and a file is
any other object. Every operation that names an object percent-encodes the
key it sends to the container (`rawurlencode`). The two listings are the
exception: they send their path prefix as it is. Names the container lists
are decoded (`rawurldecode`).

This project models that layer in Dafny and proves properties of the model.

- The container is a map from decoded key to object (content type and content).
- `SwiftMediaSource` is a class. Its fields are the container, the `addError`
  calls so far, the `logManagerAction` calls so far, the `OnFileManagerUpload`
  events so far, and the "cannot move a folder" message.
- Each backend call takes its outcome as an argument (`Backend.Call`). The
  call succeeds and reports success, reports failure without changing
  anything, or throws. A single-object call that throws changes nothing. A
  batch upload that throws may already have stored a prefix of the batch,
  whose length is another argument. An exception is caught at the boundary of each public
  operation except getContainerList and getObjectsInContainer, as in the
  source.
- The pure pieces are functions with lemmas:
  - key composition (`Paths`);
  - the tree listing (`Tree`);
  - the gallery listing (`Gallery`);
  - the upload checks (`Uploads`);
  - the context menus (`Menus`).
  Each imperative operation of the class is a method. Its `ensures` tie the
  result and the new state to those functions.
- The PHP primitives the code relies on are modelled in `Strings`, `Paths`,
  `Order` and `Percent`:
  - `trim`/`ltrim`/`rtrim`, `explode`/`implode`, `array_pop`, `strtolower`
    and `empty` (in `Strings`);
  - the extension part of `pathinfo` (`Paths.Extension`, in `Paths`);
  - the key order of `ksort` (in `Order`);
  - `rawurlencode`/`rawurldecode`, following section 2.1 of RFC 3986 (in `Percent`).

Files: `strings.dfy`, `order.dfy`, `percent.dfy`, `paths.dfy`, `menus.dfy`,
`backend.dfy`, `tree.dfy`, `gallery.dfy`, `uploads.dfy` and `mediasource.dfy`,
one module each. All source references below are to
`core/components/swift/model/swift/swiftmediasource.class.php`.

## Model

| member | source | states |
|---|---|---|
| Strings.LTrim | core/components/swift/model/swift/swiftmediasource.class.php:100-102 | ltrim returns a suffix of its input that does not start with a trimmed character, and every character it drops is in the list |
| Strings.RTrim | core/components/swift/model/swift/swiftmediasource.class.php:111 | rtrim returns a prefix of its input that does not end with a trimmed character, and every character it drops is in the list |
| Strings.Trim | core/components/swift/model/swift/swiftmediasource.class.php:402 | trim never lengthens its input and leaves no trimmed character at either end |
| Strings.TrimIsSlice | core/components/swift/model/swift/swiftmediasource.class.php:402 | trim returns a contiguous slice of its input, and every character outside that slice is in the list |
| Strings.TrimUntouched | core/components/swift/model/swift/swiftmediasource.class.php:402 | a string whose ends are not in the list is left as it is by ltrim, rtrim and trim |
| Strings.TrimIdempotent | core/components/swift/model/swift/swiftmediasource.class.php:402 | trimming twice is trimming once |
| Strings.ExplodePiecesFree | core/components/swift/model/swift/swiftmediasource.class.php:961 | no piece of explode contains the separator |
| Strings.ImplodeExplode | core/components/swift/model/swift/swiftmediasource.class.php:651-653 | implode with the same separator undoes explode |
| Strings.LastPartSuffix | core/components/swift/model/swift/swiftmediasource.class.php:961-963 | the popped last piece is a suffix; it is all of the string exactly when there is no separator, and otherwise a separator precedes it |
| Strings.LastPartIsLastPiece | core/components/swift/model/swift/swiftmediasource.class.php:961-963 | the modelled last piece is the last element of explode |
| Strings.BeforeLastPart | core/components/swift/model/swift/swiftmediasource.class.php:651-653 | what precedes the last separator is the implode of all pieces but the last |
| Strings.ExplodeSingle | core/components/swift/model/swift/swiftmediasource.class.php:699-701 | explode gives one piece exactly when the separator does not occur |
| Strings.LowerChars | core/components/swift/model/swift/swiftmediasource.class.php:134 | strtolower keeps the length, lowers every character, and adds or removes no non-letter |
| Order.LessTrichotomy | core/components/swift/model/swift/swiftmediasource.class.php:155 | ksort's key order is total and asymmetric |
| Order.LessTransitive | core/components/swift/model/swift/swiftmediasource.class.php:155 | ksort's key order is transitive |
| Order.Insert | core/components/swift/model/swift/swiftmediasource.class.php:155 | inserting a key keeps the keys strictly ascending and adds exactly that key |
| Order.SortKeys | core/components/swift/model/swift/swiftmediasource.class.php:155-163 | the sorted keys are strictly ascending and are exactly the keys of the map |
| Percent.DecodeEncode | core/components/swift/model/swift/swiftmediasource.class.php:411 | rawurldecode gives back every key rawurlencode encoded |
| Percent.EncodeInjective | core/components/swift/model/swift/swiftmediasource.class.php:411 | two different keys never share an encoding |
| Paths.Basename | core/components/swift/model/swift/swiftmediasource.class.php:959-964 | getBasename contains no '/' |
| Paths.BasenameSuffix | core/components/swift/model/swift/swiftmediasource.class.php:959-964 | getBasename is the suffix of the path, with trailing slashes removed, after its last '/' |
| Paths.BasenameSegment | core/components/swift/model/swift/swiftmediasource.class.php:959-964 | for a path without a trailing '/', getBasename is its last segment |
| Paths.Extension | core/components/swift/model/swift/swiftmediasource.class.php:131 | the pathinfo extension contains neither '/' nor '.' |
| Paths.ExtensionSuffix | core/components/swift/model/swift/swiftmediasource.class.php:131 | the extension is empty without a '.' in the base name, and otherwise what follows its last '.' |
| Paths.DirPrefix | core/components/swift/model/swift/swiftmediasource.class.php:402-405 | the parent prefix is empty exactly for a root parent; otherwise it is the parent trimmed of slashes plus one '/' |
| Paths.DotCheckIsDead | core/components/swift/model/swift/swiftmediasource.class.php:403 | the comparison with "." can never hold |
| Paths.DotParentPrefix | core/components/swift/model/swift/swiftmediasource.class.php:402-405 | a parent of "." gives the prefix "./" |
| Paths.DirPrefixIdempotent | core/components/swift/model/swift/swiftmediasource.class.php:402-405 | normalising a prefix again changes nothing |
| Paths.ContainerKeyShape | core/components/swift/model/swift/swiftmediasource.class.php:402-406 | createContainer's key never starts with '/'; it is the name trimmed of slashes under a root parent, and otherwise the trimmed parent, '/' and that name |
| Paths.ObjectKeyShape | core/components/swift/model/swift/swiftmediasource.class.php:585-589 | createObject's key never starts with '/'; it is the name trimmed of slashes and whitespace under a root path, and otherwise the trimmed path, '/' and that name |
| Paths.UploadKey | core/components/swift/model/swift/swiftmediasource.class.php:507-510 | an upload key is the file name under a root path, and otherwise the trimmed path, '/' and the file name |
| Paths.RenameKey | core/components/swift/model/swift/swiftmediasource.class.php:651-653 | the new key is the old key with only its last segment replaced, or just the new name when the old key has no '/' |
| Paths.RenameToSameName | core/components/swift/model/swift/swiftmediasource.class.php:651-653 | renaming to the current last segment gives the old key back |
| Paths.MoveDestination | core/components/swift/model/swift/swiftmediasource.class.php:695-705 | the destination ends with the source's last segment; in append mode it is `to` (with "/" and "." read as root) plus that segment, and otherwise `to` without its last segment, then '/', then that segment |
| Paths.SiblingOfRootEntry | core/components/swift/model/swift/swiftmediasource.class.php:698-705 | a sibling move next to a root-level entry gives "/" plus the segment |
| Paths.ListingPrefix | core/components/swift/model/swift/swiftmediasource.class.php:100-102 | the listing prefix is "" for a path PHP calls empty, and otherwise a suffix of the path that does not start with '/' and drops only leading slashes; a path without a leading '/' is left as it is |
| Menus.FileMenuSeparated | core/components/swift/model/swift/swiftmediasource.class.php:181-212 | a file menu never starts or ends with a separator and never has two in a row |
| Menus.FileMenuItems | core/components/swift/model/swift/swiftmediasource.class.php:181-212 | a file menu has edit and quick update exactly with file_update for a non-binary file, rename with file_update, download with file_view, remove with file_remove, and nothing else |
| Menus.DirMenuSeparated | core/components/swift/model/swift/swiftmediasource.class.php:213-256 | a directory menu never starts or ends with a separator and never has two in a row |
| Menus.DirMenuItems | core/components/swift/model/swift/swiftmediasource.class.php:213-256 | a directory menu always has refresh and never rename, and has each other item exactly with its permission |
| Menus.ContextMenuItems | core/components/swift/model/swift/swiftmediasource.class.php:177-259 | every context menu is well separated; the edit items need file_update and a non-binary file; refresh appears exactly in directory menus; directory rename never appears |
| Backend.RecordPath | core/components/swift/model/swift/swiftmediasource.class.php:111 | the path of a listed record never ends with '/' |
| Tree.MapsSnoc | core/components/swift/model/swift/swiftmediasource.class.php:110-153 | one more record adds or replaces the entry of its path in the map of its kind and leaves the other map alone |
| Tree.DirMapContents | core/components/swift/model/swift/swiftmediasource.class.php:115-129 | a path is a directory key exactly when some directory marker has it, and its entry is built from that path |
| Tree.FileMapDomain | core/components/swift/model/swift/swiftmediasource.class.php:130-152 | a path is a file key exactly when some file record has it |
| Tree.FileMapLastWins | core/components/swift/model/swift/swiftmediasource.class.php:135-151 | the entry of a file path comes from the last file record with that path |
| Tree.DirMapKeyedByPath | core/components/swift/model/swift/swiftmediasource.class.php:116-126 | every directory map entry is a directory entry stored under its own path |
| Tree.FileMapKeyedByPath | core/components/swift/model/swift/swiftmediasource.class.php:135-147 | every file map entry is a file entry stored under its own path |
| Tree.DirEntryFields | core/components/swift/model/swift/swiftmediasource.class.php:116-129 | a directory entry has id path + '/', the last segment as text, and the directory menu |
| Tree.FileEntryFields | core/components/swift/model/swift/swiftmediasource.class.php:131-151 | a file entry has the path as id, the last segment as text, the lower-cased extension, the base URL without trailing '/' plus '/' plus the path as url, and the binary menu unless the type starts with "text" |
| Tree.GroupKinds | core/components/swift/model/swift/swiftmediasource.class.php:156-162 | the entries emitted from one map are of that map's kind |
| Tree.ListingKinds | core/components/swift/model/swift/swiftmediasource.class.php:154-163 | in the tree listing exactly the first entries, as many as there are directory paths, are directories |
| Tree.DirectoriesBeforeFiles | core/components/swift/model/swift/swiftmediasource.class.php:154-163 | no file entry precedes a directory entry, and no path repeats within a group |
| Tree.GroupInOrder | core/components/swift/model/swift/swiftmediasource.class.php:155-158 | the entries taken in the order of the sorted keys list the map, ascending by path, once each |
| Tree.GroupsMakeTreeListing | core/components/swift/model/swift/swiftmediasource.class.php:154-165 | the directory group followed by the file group is the tree listing of the two maps |
| Gallery.SkipList | core/components/swift/model/swift/swiftmediasource.class.php:284-287 | "." and ".." are always skipped |
| Gallery.ContainerUrl | core/components/swift/model/swift/swiftmediasource.class.php:275 | the container URL is a prefix of the base URL followed by one '/', with no '/' before that one, and only slashes of the base URL are dropped |
| Gallery.Cap | core/components/swift/model/swift/swiftmediasource.class.php:341-351 | a capped value is the value or the cap, and at most both |
| Gallery.Thumbnail | core/components/swift/model/swift/swiftmediasource.class.php:333-383 | an image gets a preview whose thumbnail fits the image size and the configured size, with the probed width and height each equal to the probed value or to 800 and 600 when it is larger and the configured size otherwise; anything else gets the configured thumbnail size |
| Gallery.ItemFields | core/components/swift/model/swift/swiftmediasource.class.php:298-320 | an item has the record path as id, its last segment (after its last '/') as name, the record size, and the remove menu |
| Gallery.ItemUrl | core/components/swift/model/swift/swiftmediasource.class.php:301 | an item's url is the container URL followed by its id without surrounding slashes |
| Gallery.ItemPreview | core/components/swift/model/swift/swiftmediasource.class.php:322-333 | the item extension is the lower-cased extension and has no '.'; the item has a preview exactly for an image extension |
| Gallery.GalleryEntryShown | core/components/swift/model/swift/swiftmediasource.class.php:302-330 | a record becomes an item exactly when it is not skipped, not a directory, and its extension is admitted |
| Gallery.GallerySnoc | core/components/swift/model/swift/swiftmediasource.class.php:297-386 | one more record appends its item, if any, to the gallery |
| Gallery.GalleryAppend | core/components/swift/model/swift/swiftmediasource.class.php:297-386 | the gallery of two listings is the concatenation of their galleries |
| Gallery.GalleryMembership | core/components/swift/model/swift/swiftmediasource.class.php:297-386 | an item is in the gallery exactly when some record becomes it |
| Gallery.GalleryLength | core/components/swift/model/swift/swiftmediasource.class.php:297-386 | there are never more items than records, and as many when every record is shown |
| Gallery.GalleryOnlyAdmittedFiles | core/components/swift/model/swift/swiftmediasource.class.php:302-330 | no directory or skipped name appears, and every item has an admitted extension and comes from a file record |
| Uploads.Allowed | core/components/swift/model/swift/swiftmediasource.class.php:512-516 | an extension is allowed exactly when one of the four lists names it |
| Uploads.Verdicts | core/components/swift/model/swift/swiftmediasource.class.php:520-545 | one verdict per file, in order |
| Uploads.CheckVerdict | core/components/swift/model/swift/swiftmediasource.class.php:520-545 | a file is skipped exactly for an upload error or an empty name, rejected for an empty or unlisted extension first and then for the size, and accepted exactly when valid, under the encoded key of the prefix and its name |
| Uploads.AcceptedExtension | core/components/swift/model/swift/swiftmediasource.class.php:525-530 | an accepted file has a non-empty extension without '.' |
| Uploads.UploadsAppend | core/components/swift/model/swift/swiftmediasource.class.php:519-545 | the batch and the errors of two lists are those of each, one after the other |
| Uploads.UploadsSnoc | core/components/swift/model/swift/swiftmediasource.class.php:519-545 | one more file adds its object when accepted and its error when rejected |
| Uploads.AcceptedMembership | core/components/swift/model/swift/swiftmediasource.class.php:519-545 | an object is in the batch exactly when some valid file becomes it |
| Uploads.UploadCounts | core/components/swift/model/swift/swiftmediasource.class.php:519-545 | every file lands in exactly one of the batch, the errors, or the skipped files |
| Uploads.SkippedAddNothing | core/components/swift/model/swift/swiftmediasource.class.php:521-523 | skipped files add neither objects nor errors |
| Uploads.RejectionsArePathErrors | core/components/swift/model/swift/swiftmediasource.class.php:527-539 | every reported error is a path error for a file that is neither skipped nor valid |
| Uploads.ApplyUploadsDomain | core/components/swift/model/swift/swiftmediasource.class.php:554 | after a batch upload a key is present exactly when it was before or some object of the batch has it |
| Uploads.ApplyUploadsContents | core/components/swift/model/swift/swiftmediasource.class.php:554 | after a batch upload a key no object has keeps its object, and the last object's key holds its content |
| Uploads.ApplyUploadsStoresEach | core/components/swift/model/swift/swiftmediasource.class.php:554 | every object of the batch that no later object of it overwrites is stored under its decoded key with its content |
| MediaSource.ReplyOf | core/components/swift/model/swift/swiftmediasource.class.php:416 | an update or delete throws exactly when its call throws and reports true exactly when it succeeds |
| MediaSource.TrimEach | core/components/swift/model/swift/swiftmediasource.class.php:774 | the image extensions are the listed ones, each trimmed of whitespace |
| MediaSource.RenameToSameNameLosesFile | core/components/swift/model/swift/swiftmediasource.class.php:650-658 | renaming "docs/a.txt" to "a.txt" as written leaves the container empty |
| MediaSource.RenameKeepsFile | core/components/swift/model/swift/swiftmediasource.class.php:650-662 | with the same-name case read as a no-op, the object is under the new key, the old key is gone unless it is the new one, and everything else is untouched |
| MediaSource.SwiftMediaSource.constructor | core/components/swift/model/swift/swiftmediasource.class.php:22 | a new media source has the given container and settings and no errors, log entries or events |
| MediaSource.SwiftMediaSource.Fetch | core/components/swift/model/swift/swiftmediasource.class.php:619 | a fetch throws as told, and otherwise finds the object under the decoded name or reports it missing |
| MediaSource.SwiftMediaSource.Put | core/components/swift/model/swift/swiftmediasource.class.php:416 | a successful update stores the object under the decoded name, and any other outcome changes nothing |
| MediaSource.SwiftMediaSource.Delete | core/components/swift/model/swift/swiftmediasource.class.php:479 | a successful delete removes the decoded name, and any other outcome changes nothing |
| MediaSource.SwiftMediaSource.UploadObjects | core/components/swift/model/swift/swiftmediasource.class.php:554 | a successful batch upload stores every object; one that throws leaves the first `stored` objects stored, with no rollback; a refused one changes nothing |
| MediaSource.SwiftMediaSource.FetchAt | core/components/swift/model/swift/swiftmediasource.class.php:619 | fetching the encoded path answers for the path itself |
| MediaSource.SwiftMediaSource.PutAt | core/components/swift/model/swift/swiftmediasource.class.php:410-416 | updating the encoded path stores under the path itself |
| MediaSource.SwiftMediaSource.DeleteAt | core/components/swift/model/swift/swiftmediasource.class.php:478-479 | deleting the encoded path removes the path itself |
| MediaSource.SwiftMediaSource.CreateContainer | core/components/swift/model/swift/swiftmediasource.class.php:400-428 | a folder marker is stored under the container key when the update succeeds, and logged then; only an exception fails, with one name error |
| MediaSource.SwiftMediaSource.RenameContainer | core/components/swift/model/swift/swiftmediasource.class.php:439-465 | renaming a folder always fails and changes nothing |
| MediaSource.SwiftMediaSource.RemoveContainer | core/components/swift/model/swift/swiftmediasource.class.php:475-494 | a missing folder fails with one dir error and no change; a found one succeeds unless the delete throws, is removed and logged only when the delete succeeds; an exception adds one name error |
| MediaSource.SwiftMediaSource.ValidateUploads | core/components/swift/model/swift/swiftmediasource.class.php:519-545 | the loop collects exactly the accepted batch and reports exactly the rejections, in order |
| MediaSource.SwiftMediaSource.UploadObjectsToContainer | core/components/swift/model/swift/swiftmediasource.class.php:505-571 | the event fires once before the upload and once more after a successful one; the whole batch is stored and the upload logged on success, a throwing upload leaves the first `stored` objects of the batch stored, and a refused one stores nothing; an exception adds one path error; the result is true exactly on success |
| MediaSource.SwiftMediaSource.CreateObject | core/components/swift/model/swift/swiftmediasource.class.php:583-605 | the content is stored under the object key, logged and the key returned exactly when the upload succeeds; an exception adds one name error |
| MediaSource.SwiftMediaSource.UpdateObject | core/components/swift/model/swift/swiftmediasource.class.php:616-636 | a missing file fails with one file error and no change; a found one succeeds unless the update throws, gets the new content with its content type kept, and is logged only when the update succeeds |
| MediaSource.SwiftMediaSource.RenameObject | core/components/swift/model/swift/swiftmediasource.class.php:647-673 | a missing file fails with one file error; the copy goes under the rename key; the old key is deleted only after a successful copy, and the rename is logged then; a refused copy still returns true; a change to the same name is a no-op |
| MediaSource.SwiftMediaSource.MoveRest | core/components/swift/model/swift/swiftmediasource.class.php:714-720 | after the copy the source is looked up again, deleted when the delete succeeds, and the move logged unless something throws |
| MediaSource.SwiftMediaSource.MoveObject | core/components/swift/model/swift/swiftmediasource.class.php:685-732 | a source ending in '/' fails before any backend call and sets the folder message; a move onto itself succeeds untouched; otherwise the result is true exactly when the copy succeeds and nothing throws afterwards |
| MediaSource.SwiftMediaSource.RemoveObject | core/components/swift/model/swift/swiftmediasource.class.php:742-761 | a missing file fails with one file error and no change; a found one succeeds unless the delete throws, is removed and logged only when the delete succeeds |
| MediaSource.SwiftMediaSource.GetListContextMenu | core/components/swift/model/swift/swiftmediasource.class.php:177-259 | the menu built item by item is the context menu whose properties Menus proves |
| MediaSource.SwiftMediaSource.TreeRecord | core/components/swift/model/swift/swiftmediasource.class.php:111-152 | one record is classified by its lower-cased content type and becomes the entry of its path |
| MediaSource.SwiftMediaSource.EmitSorted | core/components/swift/model/swift/swiftmediasource.class.php:155-163 | the entries of a map emitted in ksort order list the map ascending by path, once each |
| MediaSource.SwiftMediaSource.EmitListing | core/components/swift/model/swift/swiftmediasource.class.php:154-165 | sorted directories followed by sorted files form the tree listing |
| MediaSource.SwiftMediaSource.GetContainerList | core/components/swift/model/swift/swiftmediasource.class.php:95-166 | the listing prefix, and the tree listing of the two maps the loop fills, in which a later record with the same path wins |
| MediaSource.SwiftMediaSource.ThumbFor | core/components/swift/model/swift/swiftmediasource.class.php:333-383 | the step-by-step size clamping computes the thumbnail the Gallery lemmas describe |
| MediaSource.SwiftMediaSource.GalleryRecord | core/components/swift/model/swift/swiftmediasource.class.php:298-385 | one record yields the item GalleryEntry gives, or none |
| MediaSource.SwiftMediaSource.GetObjectsInContainer | core/components/swift/model/swift/swiftmediasource.class.php:269-389 | the listing prefix, and the gallery of the records, in order |
| MediaSource.SwiftMediaSource.GetObjectContents | core/components/swift/model/swift/swiftmediasource.class.php:771-800 | a result exists exactly when the fetch does not throw and the file exists; it carries the path, its base name, the content and its length, and an image flag that matches the extension exactly, with no case folding |

## Left out

- `initialize`, `getTypeName`, `getTypeDescription` and every lexicon lookup: authentication, network set-up and translation. Error messages are codes that keep the lexicon key and the values the message fills in.
- The `modX::LOG_LEVEL_ERROR` system log calls in the exception handlers: they write only to the host's log file.
- Thumbnail and image URL building (`http_build_query`, `urldecode`, the connector and manager URLs). The integer clamping of the sizes is modelled, and what `getimagesize` reports is a map from URL to size.
- `getUrl`, `getObjectUrl`, `getBaseUrl`, `prepareSrcForThumb` and `getDefaultProperties`: URL passthroughs into the client library and a static table.
- Gallery.GalleryItem: the `relativeUrl`, `fullRelativeUrl` and `pathname` fields equal `url`, and `cls`/`iconCls` derive from `ext`. They are not stored separately. The same goes for the `cls`, `iconCls`, `type`, `leaf`, `pathRelative`, `perms`, `directory` and `file` fields of tree entries.
- The event handlers of `OnFileManagerUpload`: code outside the class that may change the batch by reference. The model records that each event fired, with the batch and the directory as they were.
- Strings.Lower: ASCII lower-casing. `mb_strtolower` for multi-byte settings is not modelled.
- Order.Less: byte-wise comparison of keys. `ksort` turning numeric-string keys into integers is not modelled.
- Percent.Encode: characters at or above 256 are kept unchanged, so the UTF-8 byte encoding of multi-byte characters is not modelled. The model is injective and round-trips.
- PHP's loose comparisons are modelled as exact string comparisons. This covers `in_array` against the skip list, the allowed types and the image extensions, and `$from == $to` in `moveObject`. Numeric strings such as "1e1" and "10", which PHP treats as equal, are not modelled.
- Uploads.UploadFile: `filesize` of the temporary file is modelled as the length of its content, and the size of a listed or fetched object as its content length.
- Uploads.Allowed: keeps the duplicates that `array_unique` removes. This changes no membership test.
- Uploads.ApplyUploads and MediaSource.SwiftMediaSource.CreateObject: they store a content type of None, because the client library picks the type of an uploaded object.
- MediaSource.SwiftMediaSource.CreateObject: returns the new key rather than the URL `getUrl` makes of it, because `getUrl` is a client-library call.
- MediaSource.SwiftMediaSource.RenameObject: implements the corrected behaviour of the finding below. A new key equal to the old one returns true without touching the backend. Otherwise it does what the source does.
- MediaSource.SwiftMediaSource.GetContainerList and MediaSource.SwiftMediaSource.GetObjectsInContainer: they take the records the backend lists as an argument and return the prefix they ask for. The backend's own prefix filtering is not modelled. In the source neither listing wraps its `objectList` call in a `try`, so an exception thrown there propagates to the caller. The model takes the records as given and does not represent that path.
- MediaSource.SwiftMediaSource.GetObjectContents: `last_modified`, `is_writable` and `is_readable` come from the client library and are not part of the result. `last_accessed` is the constant empty string, which the result omits.
- Strings.Slash stands for `DIRECTORY_SEPARATOR` in the `rtrim` and `explode` calls at lines 111, 298 and 961. The model assumes a Unix host, where that constant is '/'. On Windows the source would trim and split keys on '\\' instead, and that behaviour is not modelled.
- Paths.SiblingOfRootEntry: a sibling move next to a root-level entry yields a key that starts with '/', a shape no other operation creates. The model keeps that key exactly as the source builds it. Whether a later listing shows such an object depends on the backend's prefix filtering, which is not modelled, so it is not claimed as a finding.
- Concurrency: the container is assumed to change only through this object while an operation runs.
- `_build/includes/functions.php` is not part of this model: it is build tooling that works on the local file system.

## Findings

| source | as written | input that shows it | evidently intended | confidence | as-written member | corrected member |
|---|---|---|---|---|---|---|
| core/components/swift/model/swift/swiftmediasource.class.php:650-658 | renameObject computes the new key, copies the object there, then looks up the old key and deletes it. It does not check whether the two keys are the same. | renaming "docs/a.txt" to "a.txt": the copy overwrites the object in place, and the delete then removes it | a rename to the name the file already has keeps the file, as moveObject does with its `$from == $to` check | not executed | MediaSource.RenameToSameNameLosesFile | MediaSource.RenameKeepsFile |
