/** The hosted backend as the admin panels see it. A write is recorded as a
    command value instead of being executed, the outcome of a read or write
    is a parameter, and uploads to object storage are reduced to the path
    they are stored under and the public URL they return. */
module Backend {
  import opened Options
  import opened JsText
  import opened JsNumber

  /** `.eq(column, value)`: which rows a write applies to. */
  datatype Filter = Eq(column: string, value: string)

  /** One write to a table: `insert([row])`, `update(patch).eq(...)`,
      `delete().eq(...)`, or no write at all. */
  datatype Command<+R> =
    | Insert(row: R)
    | Update(filter: Filter, patch: R)
    | Delete(filter: Filter)
    | NoOp

  /** The outcome of a `select`: the rows, or an error. */
  datatype Fetched<+T> = Fetched(data: T) | FetchFailed

  /** What a form submit leaves behind: the write it issued, the panel state
      once the handler has finished, and whether the list is fetched again. */
  datatype Submitted<+P, +R> = Submitted(command: Command<R>, after: P, refetch: bool)

  /** The submit handlers of the rooms, blog and testimonial panels write an
      edited record back by its `id` and insert anything else. */
  function Upsert<R>(editingId: Option<string>, row: R): (c: Command<R>)
    ensures c.Update? <==> editingId.Some?
    ensures c.Insert? <==> editingId.None?
    ensures c.Update? ==> c.filter == Eq("id", editingId.value) && c.patch == row
    ensures c.Insert? ==> c.row == row
  {
    match editingId
    case Some(id) => Update(Eq("id", id), row)
    case None => Insert(row)
  }

  /** A delete is issued only once `confirm(...)` has been answered yes. */
  function ConfirmedDelete<R>(confirmed: bool, column: string, value: string): (c: Command<R>)
    ensures c.Delete? <==> confirmed
    ensures c.Delete? || c.NoOp?
    ensures c.Delete? ==> c.filter == Eq(column, value)
  {
    if confirmed then Delete(Eq(column, value)) else NoOp
  }

  /** `name.split('.').pop()`: the text after the last dot of a file name, or
      the whole name when it has no dot. */
  function Extension(fileName: string): (ext: string)
    ensures '.' !in ext
    ensures |ext| <= |fileName| && fileName[|fileName| - |ext|..] == ext
    ensures ext == fileName || fileName[|fileName| - |ext| - 1] == '.'
  {
    LastPiece(fileName, '.')
  }

  /** `` `${folder}${Date.now()}.${ext}` ``: the storage path of an upload. The
      clock reading is a parameter. The path starts with the folder, and its
      own extension is the extension of the uploaded file. */
  function UploadPath(folder: string, stamp: nat, fileName: string): (path: string)
    ensures |path| > |folder| && path[..|folder|] == folder
    ensures Extension(path) == Extension(fileName)
  {
    var ext := Extension(fileName);
    var path := folder + NatToDecimal(stamp) + "." + ext;
    LastPieceAfterSeparator(folder + NatToDecimal(stamp), ext, '.');
    assert path == (folder + NatToDecimal(stamp)) + ['.'] + ext;
    path
  }

  /** The storage side of an upload: the public URL of the stored object, or
      a failure. */
  datatype UploadOutcome = Stored(publicUrl: string) | StoreFailed

  /** An image-upload handler: with no file chosen nothing happens; otherwise
      the file is stored under its upload path and, when that succeeds, the
      image field takes the public URL; on failure the field keeps its value.
      Yields the path written to (if any) and the new field value. */
  function Upload(folder: string, stamp: nat, file: Option<string>, outcome: UploadOutcome, current: string)
    : (result: (Option<string>, string))
    ensures result.0.Some? <==> file.Some?
    ensures file.Some? ==> result.0 == Some(UploadPath(folder, stamp, file.value))
    ensures result.1 == current || (file.Some? && outcome == Stored(result.1))
    ensures file.Some? && outcome.Stored? ==> result.1 == outcome.publicUrl
  {
    match file
    case None => (None, current)
    case Some(name) =>
      var path := UploadPath(folder, stamp, name);
      match outcome
      case Stored(url) => (Some(path), url)
      case StoreFailed => (Some(path), current)
  }
}
