/** The validation of uploadObjectsToContainer as values: which uploaded
    files become objects of the batch, under which key, and which add an
    error. */
module Uploads {
  import opened Strings
  import opened Paths
  import opened Backend
  import Percent

  /** One entry of the uploaded-files array. The size filesize() reports for
      the temporary file is the length of its content. */
  datatype UploadFile = UploadFile(error: int, name: string, tmpName: string, content: string)

  /** The upload settings: the four comma-separated extension lists and the
      largest size accepted. */
  datatype UploadConfig = UploadConfig(
    uploadFiles: string,
    uploadImages: string,
    uploadMedia: string,
    uploadFlash: string,
    maxSize: int)

  /** One object of the batch: its percent-encoded key and its content. */
  datatype PendingObject = PendingObject(name: string, content: string)

  /** What the loop does with one file: skips it silently, reports it, or
      adds it to the batch. */
  datatype Verdict = Skip | Reject(code: Code) | Accept(obj: PendingObject)

  /** The four extension lists one after the other (array_merge; the
      array_unique that follows changes no membership). */
  function Allowed(cfg: UploadConfig): (exts: seq<string>)
    ensures forall e :: e in exts <==>
              e in Explode(cfg.uploadImages, ',') || e in Explode(cfg.uploadMedia, ',')
              || e in Explode(cfg.uploadFlash, ',') || e in Explode(cfg.uploadFiles, ',')
  {
    Explode(cfg.uploadImages, ',') + Explode(cfg.uploadMedia, ',')
    + Explode(cfg.uploadFlash, ',') + Explode(cfg.uploadFiles, ',')
  }

  /** The extension the check looks at: pathinfo of the uploaded name, lower-cased. */
  function UploadExtension(f: UploadFile): string
  {
    Lower(Extension(f.name))
  }

  /** The loop body for one file; path is the upload directory as given. */
  function Check(cfg: UploadConfig, path: string, f: UploadFile): Verdict
  {
    if f.error != 0 || PhpEmpty(f.name) then Skip
    else
      var ext := UploadExtension(f);
      if PhpEmpty(ext) || ext !in Allowed(cfg) then Reject(ExtNotAllowed(ext))
      else if |f.content| > cfg.maxSize then Reject(TooLarge(|f.content|, cfg.maxSize))
      else Accept(PendingObject(Percent.Encode(UploadKey(path, f.name)), f.content))
  }

  /** A file that passes every check. */
  predicate Valid(cfg: UploadConfig, f: UploadFile)
  {
    && f.error == 0 && !PhpEmpty(f.name)
    && !PhpEmpty(UploadExtension(f)) && UploadExtension(f) in Allowed(cfg)
    && |f.content| <= cfg.maxSize
  }

  /** A file the loop skips without a word: one the upload itself failed for,
      or one without a name. */
  predicate Skipped(f: UploadFile)
  {
    f.error != 0 || PhpEmpty(f.name)
  }

  /** The verdict on every file, in order. */
  function Verdicts(cfg: UploadConfig, path: string, files: seq<UploadFile>): (vs: seq<Verdict>)
    ensures |vs| == |files|
    ensures forall i :: 0 <= i < |files| ==> vs[i] == Check(cfg, path, files[i])
  {
    if files == [] then [] else Verdicts(cfg, path, files[..|files| - 1]) + [Check(cfg, path, files[|files| - 1])]
  }

  /** The objects of the accepting verdicts, in order. */
  function AcceptsOf(vs: seq<Verdict>): seq<PendingObject>
  {
    if vs == [] then []
    else
      var rest := AcceptsOf(vs[..|vs| - 1]);
      match vs[|vs| - 1]
      case Accept(o) => rest + [o]
      case _ => rest
  }

  /** The path errors of the rejecting verdicts, in order. */
  function RejectsOf(vs: seq<Verdict>): seq<FieldError>
  {
    if vs == [] then []
    else
      var rest := RejectsOf(vs[..|vs| - 1]);
      match vs[|vs| - 1]
      case Reject(c) => rest + [FieldError(Path, c)]
      case _ => rest
  }

  /** The number of skipping verdicts. */
  function SkipsOf(vs: seq<Verdict>): nat
  {
    if vs == [] then 0 else SkipsOf(vs[..|vs| - 1]) + if vs[|vs| - 1] == Skip then 1 else 0
  }

  /** The batch the loop collects from files, in order. */
  function Accepted(cfg: UploadConfig, path: string, files: seq<UploadFile>): seq<PendingObject>
  {
    AcceptsOf(Verdicts(cfg, path, files))
  }

  /** The errors the loop reports for files, in order. */
  function Rejections(cfg: UploadConfig, path: string, files: seq<UploadFile>): seq<FieldError>
  {
    RejectsOf(Verdicts(cfg, path, files))
  }

  lemma {:induction false} VerdictsAppend(cfg: UploadConfig, path: string, a: seq<UploadFile>, b: seq<UploadFile>)
    ensures Verdicts(cfg, path, a + b) == Verdicts(cfg, path, a) + Verdicts(cfg, path, b)
    decreases |b|
  {
    if b == [] {
      assert a + b == a;
    } else {
      var n := |b| - 1;
      assert (a + b)[..|a + b| - 1] == a + b[..n];
      assert (a + b)[|a + b| - 1] == b[n];
      VerdictsAppend(cfg, path, a, b[..n]);
    }
  }

  lemma {:induction false} OfAppend(a: seq<Verdict>, b: seq<Verdict>)
    ensures AcceptsOf(a + b) == AcceptsOf(a) + AcceptsOf(b)
    ensures RejectsOf(a + b) == RejectsOf(a) + RejectsOf(b)
    decreases |b|
  {
    if b == [] {
      assert a + b == a;
    } else {
      var n := |b| - 1;
      assert (a + b)[..|a + b| - 1] == a + b[..n];
      assert (a + b)[|a + b| - 1] == b[n];
      OfAppend(a, b[..n]);
    }
  }

  lemma {:induction false} AcceptsOfMembership(vs: seq<Verdict>, o: PendingObject)
    ensures o in AcceptsOf(vs) <==> Accept(o) in vs
  {
    if vs != [] {
      var n := |vs| - 1;
      AcceptsOfMembership(vs[..n], o);
      assert vs == vs[..n] + [vs[n]];
    }
  }

  lemma {:induction false} OfCounts(vs: seq<Verdict>)
    ensures |AcceptsOf(vs)| + |RejectsOf(vs)| + SkipsOf(vs) == |vs|
  {
    if vs != [] {
      OfCounts(vs[..|vs| - 1]);
    }
  }

  lemma {:induction false} RejectsOfPath(vs: seq<Verdict>)
    ensures forall e :: e in RejectsOf(vs) ==> e.field == Path && Reject(e.code) in vs
  {
    if vs != [] {
      var n := |vs| - 1;
      RejectsOfPath(vs[..n]);
      assert vs == vs[..n] + [vs[n]];
    }
  }

  lemma {:induction false} AllSkips(vs: seq<Verdict>)
    requires forall i :: 0 <= i < |vs| ==> vs[i] == Skip
    ensures AcceptsOf(vs) == [] && RejectsOf(vs) == [] && SkipsOf(vs) == |vs|
  {
    if vs != [] {
      var n := |vs| - 1;
      assert forall i :: 0 <= i < n ==> vs[..n][i] == vs[i];
      AllSkips(vs[..n]);
    }
  }

  /** The verdict on one file: skipped exactly for a failed or nameless
      upload; otherwise rejected for an empty or unlisted extension (checked
      first), then for a size above the limit; accepted exactly when valid,
      as the encoded key of the directory prefix and the name, with the file's
      content. */
  lemma CheckVerdict(cfg: UploadConfig, path: string, f: UploadFile)
    ensures Check(cfg, path, f) == Skip <==> Skipped(f)
    ensures Check(cfg, path, f).Accept? <==> Valid(cfg, f)
    ensures Check(cfg, path, f) == Reject(ExtNotAllowed(UploadExtension(f))) <==>
              !Skipped(f) && (PhpEmpty(UploadExtension(f)) || UploadExtension(f) !in Allowed(cfg))
    ensures Check(cfg, path, f) == Reject(TooLarge(|f.content|, cfg.maxSize)) <==>
              && !Skipped(f) && !PhpEmpty(UploadExtension(f)) && UploadExtension(f) in Allowed(cfg)
              && |f.content| > cfg.maxSize
    ensures Check(cfg, path, f).Accept? ==>
              && Percent.Decode(Check(cfg, path, f).obj.name) == UploadKey(path, f.name)
              && Check(cfg, path, f).obj.content == f.content
  {
    if Check(cfg, path, f).Accept? {
      Percent.DecodeEncode(UploadKey(path, f.name));
    }
  }

  /** An upload always has a non-empty extension without '.'. */
  lemma AcceptedExtension(cfg: UploadConfig, f: UploadFile)
    requires Valid(cfg, f)
    ensures UploadExtension(f) != "" && '.' !in UploadExtension(f)
  {
    LowerChars(Extension(f.name), '.');
  }

  /** The batch is the valid files, in order: validating two lists one after
      the other gives the two batches one after the other, likewise for the
      errors. */
  lemma UploadsAppend(cfg: UploadConfig, path: string, a: seq<UploadFile>, b: seq<UploadFile>)
    ensures Accepted(cfg, path, a + b) == Accepted(cfg, path, a) + Accepted(cfg, path, b)
    ensures Rejections(cfg, path, a + b) == Rejections(cfg, path, a) + Rejections(cfg, path, b)
  {
    VerdictsAppend(cfg, path, a, b);
    OfAppend(Verdicts(cfg, path, a), Verdicts(cfg, path, b));
  }

  /** One more file adds its object to the batch when it is accepted, and its
      error to the errors when it is rejected. */
  lemma UploadsSnoc(cfg: UploadConfig, path: string, files: seq<UploadFile>, f: UploadFile)
    ensures var v := Check(cfg, path, f);
            && Accepted(cfg, path, files + [f]) == Accepted(cfg, path, files) + (if v.Accept? then [v.obj] else [])
            && Rejections(cfg, path, files + [f]) == Rejections(cfg, path, files) + (if v.Reject? then [FieldError(Path, v.code)] else [])
  {
    UploadsAppend(cfg, path, files, [f]);
    assert Verdicts(cfg, path, [f]) == [Check(cfg, path, f)];
    assert [Check(cfg, path, f)][..0] == [];
  }

  /** An object is in the batch exactly when some valid file becomes it. */
  lemma AcceptedMembership(cfg: UploadConfig, path: string, files: seq<UploadFile>, o: PendingObject)
    ensures o in Accepted(cfg, path, files) <==>
              exists i :: 0 <= i < |files| && Valid(cfg, files[i]) && Check(cfg, path, files[i]) == Accept(o)
  {
    var vs := Verdicts(cfg, path, files);
    AcceptsOfMembership(vs, o);
    if Accept(o) in vs {
      var i :| 0 <= i < |vs| && vs[i] == Accept(o);
      CheckVerdict(cfg, path, files[i]);
    }
  }

  /** Every file ends up in exactly one place: the batch, the errors, or
      neither when skipped. */
  lemma UploadCounts(cfg: UploadConfig, path: string, files: seq<UploadFile>)
    ensures |Accepted(cfg, path, files)| + |Rejections(cfg, path, files)| + SkipsOf(Verdicts(cfg, path, files)) == |files|
  {
    OfCounts(Verdicts(cfg, path, files));
  }

  /** Files that are all skipped contribute neither objects nor errors. */
  lemma SkippedAddNothing(cfg: UploadConfig, path: string, files: seq<UploadFile>)
    requires forall i :: 0 <= i < |files| ==> Skipped(files[i])
    ensures Accepted(cfg, path, files) == [] && Rejections(cfg, path, files) == []
  {
    var vs := Verdicts(cfg, path, files);
    forall i | 0 <= i < |vs| ensures vs[i] == Skip { CheckVerdict(cfg, path, files[i]); }
    AllSkips(vs);
  }

  /** Every error the loop reports is against the path field and is the
      extension or size rejection of one of the files. */
  lemma RejectionsArePathErrors(cfg: UploadConfig, path: string, files: seq<UploadFile>)
    ensures forall e :: e in Rejections(cfg, path, files) ==>
              && e.field == Path
              && exists i :: 0 <= i < |files| && !Skipped(files[i]) && !Valid(cfg, files[i])
                           && Check(cfg, path, files[i]) == Reject(e.code)
  {
    var vs := Verdicts(cfg, path, files);
    RejectsOfPath(vs);
    forall e | e in Rejections(cfg, path, files)
      ensures exists i :: 0 <= i < |files| && !Skipped(files[i]) && !Valid(cfg, files[i])
                        && Check(cfg, path, files[i]) == Reject(e.code)
    {
      var i :| 0 <= i < |vs| && vs[i] == Reject(e.code);
      CheckVerdict(cfg, path, files[i]);
    }
  }

  /** The container after a batch upload that succeeds: every object of the
      batch stored under its decoded key, a later one replacing an earlier
      one with the same key; the backend picks the content types. */
  function ApplyUploads(store: map<string, StoredObject>, objs: seq<PendingObject>): map<string, StoredObject>
  {
    if objs == [] then store
    else
      var o := objs[|objs| - 1];
      ApplyUploads(store, objs[..|objs| - 1])[Percent.Decode(o.name) := StoredObject(None, o.content)]
  }

  /** How many objects of a batch a client that stops after `stored` puts
      has stored: `stored`, or the whole batch when it is shorter. */
  function StoredCount(objs: seq<PendingObject>, stored: nat): (n: nat)
    ensures n <= |objs| && (n == stored || n == |objs|)
    ensures n < stored ==> n == |objs|
  {
    if stored < |objs| then stored else |objs|
  }

  /** After a batch upload a key is present exactly when it was before or
      some object of the batch has it. */
  lemma {:induction false} ApplyUploadsDomain(store: map<string, StoredObject>, objs: seq<PendingObject>, k: string)
    ensures k in ApplyUploads(store, objs) <==> k in store || exists o :: o in objs && Percent.Decode(o.name) == k
  {
    if objs != [] {
      var n := |objs| - 1;
      var o := objs[n];
      ApplyUploadsDomain(store, objs[..n], k);
      assert objs == objs[..n] + [o];
      assert (exists p :: p in objs && Percent.Decode(p.name) == k) <==>
             (exists p :: p in objs[..n] && Percent.Decode(p.name) == k) || Percent.Decode(o.name) == k;
    }
  }

  /** After a batch upload a key no object has keeps its object, and the key
      of the last object stores its content. */
  lemma {:induction false} ApplyUploadsContents(store: map<string, StoredObject>, objs: seq<PendingObject>, k: string)
    ensures (forall o :: o in objs ==> Percent.Decode(o.name) != k) && k in store ==>
              k in ApplyUploads(store, objs) && ApplyUploads(store, objs)[k] == store[k]
    ensures objs != [] && Percent.Decode(objs[|objs| - 1].name) == k ==>
              k in ApplyUploads(store, objs) && ApplyUploads(store, objs)[k] == StoredObject(None, objs[|objs| - 1].content)
  {
    if objs != [] {
      var n := |objs| - 1;
      ApplyUploadsContents(store, objs[..n], k);
      assert forall o :: o in objs[..n] ==> o in objs;
    }
  }

  /** After a batch upload every object of the batch that no later object
      overwrites is stored under its decoded key with its content. */
  lemma {:induction false} ApplyUploadsStoresEach(store: map<string, StoredObject>, objs: seq<PendingObject>, i: nat)
    requires i < |objs|
    requires forall j :: i < j < |objs| ==> Percent.Decode(objs[j].name) != Percent.Decode(objs[i].name)
    ensures Percent.Decode(objs[i].name) in ApplyUploads(store, objs)
    ensures ApplyUploads(store, objs)[Percent.Decode(objs[i].name)] == StoredObject(None, objs[i].content)
  {
    var n := |objs| - 1;
    if i < n {
      assert forall j :: i < j < n ==> objs[..n][j] == objs[j];
      ApplyUploadsStoresEach(store, objs[..n], i);
      assert objs[..n][i] == objs[i];
    }
  }
}
