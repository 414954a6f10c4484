/** `app/routes.py`: the extension check `allowed_file`, the validation loop
    of `POST /upload`, and the guards and side effects of
    `DELETE /files/<filename>`. The upload folder is a set of file names;
    Werkzeug's `secure_filename` is a parameter. */
module Routes {
  import opened Text
  import opened Outcomes
  import opened ChromaStore

  /** `Config.ALLOWED_EXTENSIONS` (`app/core/config.py`), a set there; only
      membership is ever asked of it. */
  const AllowedExtensions: seq<string> := ["pdf", "docx", "pptx", "xlsx", "txt"]

  /** `Config.UPLOAD_FOLDER` at its default (the environment override is not
      modelled). */
  const UploadFolderName: string := "data/uploads"

  // ---------------------------------------------------------------------
  // allowed_file (lines 20-21)
  // ---------------------------------------------------------------------

  /** The index of the last `.` in `name`, if any. */
  function LastDot(name: string): (r: Option<nat>)
    ensures r.None? <==> '.' !in name
    ensures r.Some? ==> r.value < |name| && name[r.value] == '.' && '.' !in name[r.value + 1..]
  {
    if name == [] then None
    else if name[|name| - 1] == '.' then Some(|name| - 1)
    else
      var r := LastDot(name[..|name| - 1]);
      assert forall c :: c in name[..|name| - 1] ==> c in name;
      assert r.None? ==> name == name[..|name| - 1] + [name[|name| - 1]];
      assert r.Some? ==> name[r.value + 1..] == name[..|name| - 1][r.value + 1..] + [name[|name| - 1]];
      r
  }

  /** `allowed_file(filename)`: the text after the last dot, lower-cased, is
      one of the allowed extensions. */
  function AllowedFile(filename: string): (ok: bool)
    ensures '.' !in filename ==> !ok
  {
    match LastDot(filename)
    case None => false
    case Some(i) => AsciiLower(filename[i + 1..]) in AllowedExtensions
  }

  /** `filename.rsplit(".", 1)`: a name with a dot splits, at its last
      dot, into a stem (which may hold further dots) and an extension without
      one; the check accepts exactly the names whose extension lower-cases to
      an allowed one. */
  lemma {:induction false} AllowedFileIffExtension(filename: string, stem: string, ext: string)
    requires filename == stem + "." + ext && '.' !in ext
    ensures LastDot(filename) == Some(|stem|)
    ensures AllowedFile(filename) <==> AsciiLower(ext) in AllowedExtensions
  {
    assert filename[|stem|] == '.';
    assert filename[|stem| + 1..] == ext;
  }

  /** The letter case of the extension does not matter. */
  lemma UpperCaseExtensionAllowed()
    ensures AllowedFile("a.PDF")
  {
    AllowedFileIffExtension("a.PDF", "a", "PDF");
    assert AsciiLower("PDF") == "pdf";
  }

  /** Only the last extension counts, and a trailing dot leaves an empty
      one. */
  lemma OnlyLastExtensionCounts()
    ensures !AllowedFile("a.tar.gz")
    ensures !AllowedFile("report.")
  {
    AllowedFileIffExtension("a.tar.gz", "a.tar", "gz");
    assert AsciiLower("gz") == "gz";
    AllowedFileIffExtension("report.", "report", "");
  }

  // ---------------------------------------------------------------------
  // The upload folder
  // ---------------------------------------------------------------------

  /** The files present in `UPLOAD_FOLDER`, by name. */
  class UploadFolder {
    var files: set<string>

    constructor (initial: set<string>)
      ensures files == initial
    {
      files := initial;
    }

    /** `file.save(UPLOAD_FOLDER / name)`: creates or overwrites the file. */
    method Save(name: string)
      modifies this
      ensures files == old(files) + {name}
    {
      files := files + {name};
    }

    /** `file_path.unlink()`. */
    method Unlink(name: string)
      modifies this
      ensures files == old(files) - {name}
    {
      files := files - {name};
    }
  }

  /** `str(UPLOAD_FOLDER / name)`. */
  function PathOf(name: string): (path: string)
    ensures |path| == |UploadFolderName| + 1 + |name|
    ensures path[..|UploadFolderName|] == UploadFolderName && path[|UploadFolderName|] == '/'
    ensures path[|UploadFolderName| + 1..] == name
  {
    UploadFolderName + "/" + name
  }

  // ---------------------------------------------------------------------
  // upload_documents, validation loop (lines 26-40)
  // ---------------------------------------------------------------------

  /** An uploaded part: only its client-side file name matters here. A
      Werkzeug `FileStorage` is falsy exactly when that name is empty, and an
      empty name is never allowed, so `file and allowed_file(file.filename)`
      is `AllowedFile(filename)`. */
  datatype Upload = Upload(filename: string)

  /** How the validation loop ends. */
  datatype UploadOutcome =
    | NoFilesPart                      // 400 "No files part in the request"
    | Unsupported(filename: string)    // 400 "Unsupported file type: ..."
    | Validated(paths: seq<string>)    // every file saved; extraction and indexing follow

  /** The index of the first upload whose name is not allowed, or `|fs|`. */
  function FirstRejected(fs: seq<Upload>): (k: nat)
    ensures k <= |fs|
  {
    if fs == [] || !AllowedFile(fs[0].filename) then 0 else 1 + FirstRejected(fs[1..])
  }

  /** The secured names of the first `n` uploads. */
  function SavedNames(fs: seq<Upload>, n: nat, secure: string -> string): set<string>
    requires n <= |fs|
  {
    if n == 0 then {} else SavedNames(fs, n - 1, secure) + {secure(fs[n - 1].filename)}
  }

  /** The saved paths of the first `n` uploads, in input order. */
  function SavedPaths(fs: seq<Upload>, n: nat, secure: string -> string): (ps: seq<string>)
    requires n <= |fs|
    ensures |ps| == n
  {
    if n == 0 then [] else SavedPaths(fs, n - 1, secure) + [PathOf(secure(fs[n - 1].filename))]
  }

  /** Path `i` is the secured name of upload `i`, and a name is saved only
      if it is the secured name of one of the uploads. */
  lemma {:induction false} SavedAt(fs: seq<Upload>, n: nat, secure: string -> string, i: nat)
    requires i < n <= |fs|
    ensures SavedPaths(fs, n, secure)[i] == PathOf(secure(fs[i].filename))
    ensures secure(fs[i].filename) in SavedNames(fs, n, secure)
  {
    if i < n - 1 {
      SavedAt(fs, n - 1, secure, i);
    }
  }

  lemma {:induction false} SavedOnly(fs: seq<Upload>, n: nat, secure: string -> string, name: string)
    requires n <= |fs| && name in SavedNames(fs, n, secure)
    ensures exists i :: 0 <= i < n && secure(fs[i].filename) == name
  {
    if secure(fs[n - 1].filename) != name {
      SavedOnly(fs, n - 1, secure, name);
    }
  }

  /** The validation loop of `upload_documents`. `filesPart` is
      `request.files.getlist("files")`, or `None` when the request has no
      `files` part. Each allowed file is saved under its secured name; the
      first disallowed one ends the request with 400, leaving the files saved
      before it in place. */
  method UploadDocuments(folder: UploadFolder, filesPart: Option<seq<Upload>>, secure: string -> string)
    returns (out: UploadOutcome)
    modifies folder
    ensures filesPart.None? ==> out == NoFilesPart && folder.files == old(folder.files)
    ensures filesPart.Some? ==>
      var fs := filesPart.value;
      var k := FirstRejected(fs);
      && folder.files == old(folder.files) + SavedNames(fs, k, secure)
      && out == (if k < |fs| then Unsupported(fs[k].filename) else Validated(SavedPaths(fs, |fs|, secure)))
  {
    if filesPart.None? {
      return NoFilesPart;
    }
    var files := filesPart.value;
    ghost var k := FirstRejected(files);
    var saved: seq<string> := [];
    for i := 0 to |files|
      invariant i <= k
      invariant saved == SavedPaths(files, i, secure)
      invariant folder.files == old(folder.files) + SavedNames(files, i, secure)
    {
      var file := files[i];
      RejectedAt(files, i);
      if AllowedFile(file.filename) {
        var filename := secure(file.filename);
        folder.Save(filename);
        saved := saved + [PathOf(filename)];
      } else {
        return Unsupported(file.filename);
      }
    }
    return Validated(saved);
  }

  /** Up to the first rejected upload, the check tells whether upload `i`
      is the rejected one. */
  lemma {:induction false} RejectedAt(fs: seq<Upload>, i: nat)
    requires i <= FirstRejected(fs) && i < |fs|
    ensures AllowedFile(fs[i].filename) <==> i < FirstRejected(fs)
  {
    if i > 0 {
      RejectedAt(fs[1..], i - 1);
    }
  }

  /** The upload stops exactly at the first disallowed name: every earlier
      name passed the check, the one at `FirstRejected` did not, and there is
      a disallowed name exactly when the loop stops early. */
  lemma {:induction false} FirstRejectedSpec(fs: seq<Upload>)
    ensures var k := FirstRejected(fs);
      && (forall i :: 0 <= i < k ==> AllowedFile(fs[i].filename))
      && (k < |fs| ==> !AllowedFile(fs[k].filename))
      && (k < |fs| <==> exists i :: 0 <= i < |fs| && !AllowedFile(fs[i].filename))
  {
    if fs != [] && AllowedFile(fs[0].filename) {
      FirstRejectedSpec(fs[1..]);
      assert forall i :: 1 <= i < |fs| ==> fs[i] == fs[1..][i - 1];
    }
  }

  // ---------------------------------------------------------------------
  // delete_file (lines 79-108)
  // ---------------------------------------------------------------------

  /** The responses of `DELETE /files/<filename>`. */
  datatype DeleteResponse =
    | EmptyName         // 400 "Filename cannot be empty."
    | UnsupportedType   // 400 "Unsupported file type for deletion."
    | FileNotFound      // 404 "File not found."
    | NotIndexed        // 404 "No document found with the specified filename."
    | FileDeleted       // 200 "File ... deleted successfully."
    | ServerError       // 500 "Internal server error while deleting file."

  /** The HTTP status of each response: 200 only for success, 500 only for
      the handler's `except`, and a client error otherwise. */
  function DeleteStatus(r: DeleteResponse): (status: int)
    ensures status in {200, 400, 404, 500}
    ensures status == 200 <==> r == FileDeleted
    ensures status == 500 <==> r == ServerError
  {
    match r
    case EmptyName => 400
    case UnsupportedType => 400
    case FileNotFound => 404
    case NotIndexed => 404
    case FileDeleted => 200
    case ServerError => 500
  }

  /** The request guards, in order: blank name, unsupported type, missing
      file. `onDisk` is the upload folder's contents. */
  function DeleteGuard(filename: string, onDisk: set<string>): (guard: Option<DeleteResponse>)
    ensures IsGuardAnswer(guard)
  {
    if Strip(filename) == "" then Some(EmptyName)
    else if !AllowedFile(filename) then Some(UnsupportedType)
    else if filename !in onDisk then Some(FileNotFound)
    else None
  }

  /** What the guards can answer: nothing, or one of their three
      rejections. */
  predicate IsGuardAnswer(guard: Option<DeleteResponse>) {
    guard.None? || guard.value == EmptyName || guard.value == UnsupportedType || guard.value == FileNotFound
  }

  /** The rest of the handler once the guards have answered `guard`:
      `indexed` is whether the collection has entries for the file, `storeOk`
      whether the index calls succeed, `unlinkOk` whether removing the file
      succeeds. */
  function DeleteOutcome(guard: Option<DeleteResponse>, indexed: bool, storeOk: bool, unlinkOk: bool): DeleteResponse {
    match guard
    case Some(r) => r
    case None =>
      if !storeOk then ServerError
      else if !indexed then NotIndexed
      else if !unlinkOk then ServerError
      else FileDeleted
  }

  /** Whether the handler removes the file from the upload folder. */
  function Unlinks(guard: Option<DeleteResponse>, indexed: bool, storeOk: bool, unlinkOk: bool): bool {
    guard.None? && storeOk && indexed && unlinkOk
  }

  /** `delete_file(filename)`. */
  method DeleteFile(store: Collection, folder: UploadFolder, filename: string, storeOk: bool, unlinkOk: bool)
    returns (resp: DeleteResponse)
    requires store.Valid()
    modifies store, folder
    ensures store.Valid()
    ensures var guard := DeleteGuard(filename, old(folder.files));
      var indexed := HasFile(old(store.entries), filename);
      && resp == DeleteOutcome(guard, indexed, storeOk, unlinkOk)
      && folder.files == (if Unlinks(guard, indexed, storeOk, unlinkOk) then old(folder.files) - {filename} else old(folder.files))
      && store.entries == (if guard.None? && storeOk then Without(old(store.entries), filename) else old(store.entries))
  {
    if filename == "" || Strip(filename) == "" {
      return EmptyName;
    }
    if !AllowedFile(filename) {
      return UnsupportedType;
    }
    if filename !in folder.files {
      return FileNotFound;
    }
    var isDeleted := store.DeleteByFilename(filename, storeOk);
    if isDeleted.Err? {
      return ServerError;
    }
    if !isDeleted.value {
      return NotIndexed;
    }
    if !unlinkOk {
      return ServerError;
    }
    folder.Unlink(filename);
    return FileDeleted;
  }

  /** The guards answer in order: a blank name gets 400 before the
      extension is looked at, an unsupported type gets 400 before the folder
      is, and only then a missing file gets 404. A name that passes all three
      is non-blank, has an allowed type and is in the folder. */
  lemma DeleteGuardOrder(filename: string, onDisk: set<string>)
    ensures Strip(filename) == "" ==> DeleteGuard(filename, onDisk) == Some(EmptyName)
    ensures Strip(filename) != "" && !AllowedFile(filename) ==> DeleteGuard(filename, onDisk) == Some(UnsupportedType)
    ensures Strip(filename) != "" && AllowedFile(filename) && filename !in onDisk ==>
      DeleteGuard(filename, onDisk) == Some(FileNotFound)
    ensures DeleteGuard(filename, onDisk).None? <==>
      Strip(filename) != "" && AllowedFile(filename) && filename in onDisk
  {
  }

  /** A guard that answers ends the request with 400 or 404, before the index
      or the folder is touched. */
  lemma GuardAnswersAlone(r: DeleteResponse, indexed: bool, storeOk: bool, unlinkOk: bool)
    requires IsGuardAnswer(Some(r))
    ensures DeleteOutcome(Some(r), indexed, storeOk, unlinkOk) == r
    ensures DeleteStatus(r) in {400, 404}
    ensures !Unlinks(Some(r), indexed, storeOk, unlinkOk)
  {
  }

  /** The file is removed only after the guards passed and the index
      deletion returned true, and success is reported exactly when both
      steps happened. When the index had nothing for the file, the answer is
      404 and the file stays; a failing index or unlink gives 500. */
  lemma UnlinkOnlyAfterIndexDeletion(guard: Option<DeleteResponse>, indexed: bool, storeOk: bool, unlinkOk: bool)
    requires IsGuardAnswer(guard)
    ensures Unlinks(guard, indexed, storeOk, unlinkOk) ==> guard.None? && storeOk && indexed
    ensures DeleteOutcome(guard, indexed, storeOk, unlinkOk) == FileDeleted <==> Unlinks(guard, indexed, storeOk, unlinkOk)
    ensures guard.None? && storeOk && !indexed ==>
      DeleteOutcome(guard, indexed, storeOk, unlinkOk) == NotIndexed && !Unlinks(guard, indexed, storeOk, unlinkOk)
    ensures guard.None? && (!storeOk || (indexed && !unlinkOk)) ==>
      DeleteStatus(DeleteOutcome(guard, indexed, storeOk, unlinkOk)) == 500
  {
  }
}
