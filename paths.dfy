/** Key handling of the media source: how a folder-and-file path becomes a
    flat object key, and how keys are taken apart again. */
module Paths {
  import opened Strings

  /** What createObject trims from a file name: PHP's default trim list and '/'. */
  const NameTrim: set<char> := Whitespace + Slash

  lemma SuffixKeepsAbsence(s: string, i: nat, c: char)
    requires i <= |s| && c !in s
    ensures c !in s[i..]
  {
    assert forall k :: 0 <= k < |s[i..]| ==> s[i..][k] == s[i + k];
  }

  /** getBasename: the last '/' segment once trailing slashes are gone. */
  function Basename(path: string): (r: string)
    ensures '/' !in r
  {
    LastPart(RTrim(path, Slash), '/')
  }

  /** t is the last '/' segment of path: a suffix of it without '/', which
      is all of path or follows a '/'. */
  predicate LastSegment(path: string, t: string)
  {
    && '/' !in t && |t| <= |path| && path[|path| - |t|..] == t
    && (|t| < |path| ==> path[|path| - |t| - 1] == '/')
  }

  /** The base name is a suffix of the path without its trailing slashes,
      preceded by '/' unless it is all of it. */
  lemma BasenameSuffix(path: string)
    ensures var t := RTrim(path, Slash);
            var r := Basename(path);
            && |r| <= |t| && t[|t| - |r|..] == r
            && (|r| == |t| <==> '/' !in t)
            && ('/' in t ==> t[|t| - |r| - 1] == '/')
  {
    var t := RTrim(path, Slash);
    LastPartSuffix(t, '/');
    assert Basename(path) == LastPart(t, '/');
  }

  /** The base name of a path without a trailing '/' is the last segment of
      the path itself: a '/'-free suffix, preceded by '/' unless it is the
      whole path. */
  lemma BasenameSegment(path: string)
    requires path == [] || path[|path| - 1] != '/'
    ensures LastSegment(path, Basename(path))
  {
    assert RTrim(path, Slash) == path;
    BasenameSuffix(path);
  }

  /** pathinfo($name, PATHINFO_EXTENSION): what follows the last '.' of the
      base name, or "" when the base name has no '.'. */
  function Extension(name: string): (r: string)
    ensures '/' !in r && '.' !in r
  {
    var b := Basename(name);
    if '.' in b then
      var r := LastPart(b, '.');
      LastPartSuffix(b, '.');
      SuffixKeepsAbsence(b, |b| - |r|, '/');
      r
    else ""
  }

  /** The extension is empty when the base name has no '.', and otherwise the
      suffix of the base name after its last '.'. */
  lemma ExtensionSuffix(name: string)
    ensures var b := Basename(name);
            var r := Extension(name);
            && ('.' !in b ==> r == "")
            && ('.' in b ==> |r| < |b| && b[|b| - |r|..] == r && b[|b| - |r| - 1] == '.')
  {
    LastPartSuffix(Basename(name), '.');
  }

  /** The parent prefix built by createContainer, createObject and
      uploadObjectsToContainer: slashes stripped from both ends, one '/'
      appended, and "/" mapped to the root "". The comparison with "." in the
      source can never succeed, because the string already ends in '/'; it is
      kept. */
  function DirPrefix(parent: string): (r: string)
    ensures r == "" <==> Trim(parent, Slash) == ""
    ensures r != "" ==> r == Trim(parent, Slash) + "/"
    ensures r != "" ==> r[0] != '/' && r[|r| - 1] == '/'
  {
    var p := Trim(parent, Slash) + "/";
    if p == "/" || p == "." then "" else p
  }

  /** The comparison with "." in DirPrefix is dead: the candidate always ends in '/'. */
  lemma DotCheckIsDead(parent: string)
    ensures Trim(parent, Slash) + "/" != "."
  {
    var t := Trim(parent, Slash) + "/";
    assert t[|t| - 1] == '/';
  }

  /** A parent of "." gives "./", not the empty prefix. */
  lemma DotParentPrefix()
    ensures DirPrefix(".") == "./"
  {
    TrimUntouched(".", Slash);
  }

  /** Normalising a prefix a second time changes nothing. */
  lemma DirPrefixIdempotent(parent: string)
    ensures DirPrefix(DirPrefix(parent)) == DirPrefix(parent)
  {
    var r := DirPrefix(parent);
    if r != "" {
      var t := Trim(parent, Slash);
      assert LTrim(r, Slash) == r;
      assert RTrim(r, Slash) == t by {
        assert r[..|r| - 1] == t;
        assert RTrim(t, Slash) == t;
      }
    }
  }

  /** createContainer's key: the parent prefix and the name trimmed of slashes. */
  function ContainerKey(name: string, parent: string): string
  {
    DirPrefix(parent) + Trim(name, Slash)
  }

  /** A container key never starts with '/'; it is the trimmed name under
      a root parent, and the trimmed parent, '/' and the trimmed name
      otherwise. */
  lemma ContainerKeyShape(name: string, parent: string)
    ensures var r := ContainerKey(name, parent);
            && (r == [] || r[0] != '/')
            && (Trim(parent, Slash) == "" ==> r == Trim(name, Slash))
            && (Trim(parent, Slash) != "" ==> r == Trim(parent, Slash) + "/" + Trim(name, Slash))
  {
  }

  /** createObject's key: the parent prefix and the name trimmed of slashes and whitespace. */
  function ObjectKey(path: string, name: string): string
  {
    DirPrefix(path) + Trim(name, NameTrim)
  }

  /** An object key never starts with '/'; it is the name trimmed of
      slashes and whitespace under a root path, and the trimmed path, '/'
      and that name otherwise. */
  lemma ObjectKeyShape(path: string, name: string)
    ensures var r := ObjectKey(path, name);
            && (r == [] || r[0] != '/')
            && (Trim(path, Slash) == "" ==> r == Trim(name, NameTrim))
            && (Trim(path, Slash) != "" ==> r == Trim(path, Slash) + "/" + Trim(name, NameTrim))
  {
  }

  /** uploadObjectsToContainer's key: the parent prefix and the uploaded name as given. */
  function UploadKey(path: string, fileName: string): (r: string)
    ensures Trim(path, Slash) == "" ==> r == fileName
    ensures Trim(path, Slash) != "" ==> r == Trim(path, Slash) + "/" + fileName
  {
    DirPrefix(path) + fileName
  }

  /** renameObject's new key: the last '/' segment of the old key replaced by newName. */
  function RenameKey(oldPath: string, newName: string): (r: string)
    ensures var seg := LastPart(oldPath, '/');
            r == oldPath[..|oldPath| - |seg|] + newName
    ensures '/' !in oldPath ==> r == newName
  {
    var parts := Explode(oldPath, '/');
    var n := |parts|;
    var r := Implode(parts[..n - 1] + [newName], '/');
    LastPartSuffix(oldPath, '/');
    assert r == oldPath[..|oldPath| - |LastPart(oldPath, '/')|] + newName by {
      LastPartIsLastPiece(oldPath, '/');
      ExplodeSingle(oldPath, '/');
      if n > 1 {
        BeforeLastPart(oldPath, '/');
        ImplodeSnoc(parts[..n - 1], newName, '/');
      }
    }
    r
  }

  /** Renaming to the current last segment gives back the old key. */
  lemma RenameToSameName(oldPath: string)
    ensures RenameKey(oldPath, LastPart(oldPath, '/')) == oldPath
  {
  }

  /** moveObject's destination. In "append" mode `to` (with "/" and "." read as
      the root) is the folder and the source's last segment is added directly;
      in any other mode `to` names a sibling, so its last segment is dropped and
      '/' is added before the source's last segment. */
  function MoveDestination(from: string, to: string, point: string): (r: string)
    ensures var seg := LastPart(from, '/');
            |r| >= |seg| && r[|r| - |seg|..] == seg
    ensures var t := if to == "/" || to == "." then "" else to;
            var seg := LastPart(from, '/');
            && (point == "append" ==> r == t + seg)
            && (point != "append" && '/' in t ==> r == t[..|t| - |LastPart(t, '/')|] + seg)
            && (point != "append" && '/' !in t ==> r == "/" + seg)
  {
    var t := if to == "/" || to == "." then "" else to;
    var parts := Explode(t, '/');
    var base := if point != "append" then Implode(parts[..|parts| - 1], '/') + "/" else t;
    assert point != "append" ==> base == if '/' in t then t[..|t| - |LastPart(t, '/')|] else "/" by {
      if point != "append" {
        LastPartSuffix(t, '/');
        ExplodeSingle(t, '/');
        if '/' in t {
          LastPartIsLastPiece(t, '/');
          BeforeLastPart(t, '/');
        }
      }
    }
    base + LastPart(from, '/')
  }

  /** A sibling move next to an entry at the root gives a key that starts with '/'. */
  lemma SiblingOfRootEntry(from: string, to: string, point: string)
    requires point != "append" && '/' !in to
    ensures MoveDestination(from, to, point) == "/" + LastPart(from, '/')
  {
  }

  /** The prefix getContainerList and getObjectsInContainer ask the backend for. */
  function ListingPrefix(path: string): (r: string)
    ensures r == [] || r[0] != '/'
    ensures !PhpEmpty(path) && (path == [] || path[0] != '/') ==> r == path
    ensures PhpEmpty(path) ==> r == ""
    ensures !PhpEmpty(path) ==> |r| <= |path| && r == path[|path| - |r|..] && AllIn(path, 0, |path| - |r|, Slash)
  {
    if PhpEmpty(path) then "" else LTrim(path, Slash)
  }
}
