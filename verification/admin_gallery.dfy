/** The gallery admin panel: photos are only added or deleted, never edited,
    and a photo cannot be added without an image. */
module AdminGallery {
  import opened Options
  import opened JsText
  import opened Backend

  /** The category picker of the panel, in display order. */
  const Categories: seq<string> := ["Semua", "Kamar", "Restoran", "Kolam Renang", "Fasilitas"]

  /** The category a new photo starts with: the first of the picker. */
  const DefaultCategory := Categories[0]

  datatype GalleryForm = GalleryForm(imageUrl: string, altText: string, category: string)

  /** The row an add writes. */
  datatype GalleryRow = GalleryRow(imageUrl: string, altText: Option<string>, category: string)

  datatype Panel = Panel(form: GalleryForm, dialogOpen: bool)

  /** The refusal shown when no image has been chosen. */
  datatype Refusal = MissingImage

  /** What a submit does: either it refuses without writing, or it inserts a
      row and leaves the panel in its after-state. */
  datatype Outcome =
    | Refused(reason: Refusal)
    | Added(command: Command<GalleryRow>, after: Panel, refetch: bool)

  const EmptyForm := GalleryForm("", "", DefaultCategory)

  const UploadFolder := "gallery/"

  function RowOf(f: GalleryForm): (row: GalleryRow)
    ensures row.imageUrl == f.imageUrl && row.category == f.category
    ensures OrEmpty(row.altText) == f.altText && row.altText != Some("")
  {
    GalleryRow(f.imageUrl, OrNull(f.altText), f.category)
  }

  /** `handleSubmit`: with no image the submit is refused and nothing is
      written; otherwise the row is inserted, and only when the insert
      succeeds are the form reset and the dialog closed. */
  function Submit(p: Panel, writeOk: bool): (o: Outcome)
    ensures o.Refused? <==> p.form.imageUrl == ""
    ensures o.Added? ==> o.command == Insert(RowOf(p.form)) && o.command.row.imageUrl != ""
    ensures o.Added? && writeOk ==> o.after == Panel(EmptyForm, false) && o.refetch
    ensures o.Added? && !writeOk ==> o.after == p && !o.refetch
  {
    if p.form.imageUrl == "" then Refused(MissingImage)
    else if writeOk then Added(Insert(RowOf(p.form)), Panel(EmptyForm, false), true)
    else Added(Insert(RowOf(p.form)), p, false)
  }

  /** Every row the panel writes has an image. */
  lemma EveryAddedPhotoHasAnImage(p: Panel, writeOk: bool)
    ensures Submit(p, writeOk).Added? ==> Submit(p, writeOk).command.Insert? && Submit(p, writeOk).command.row.imageUrl != ""
  {
  }

  /** A failed insert keeps the form, so submitting again writes the same row. */
  lemma RetryAfterFailureWritesSameRow(p: Panel)
    requires p.form.imageUrl != ""
    ensures var first := Submit(p, false);
            first.Added? && Submit(first.after, true).Added? && Submit(first.after, true).command == first.command
  {
  }

  /** As long as the category comes from the picker, every row written
      carries a picker category, and so does the form a successful add
      leaves behind. */
  lemma CategoryStaysInPicker(p: Panel, writeOk: bool)
    requires p.form.category in Categories
    ensures var o := Submit(p, writeOk);
            o.Added? ==> o.command.row.category in Categories && o.after.form.category in Categories
  {
  }

  function DeletePhoto(id: string, confirmed: bool): (c: Command<GalleryRow>)
    ensures c.Delete? <==> confirmed
    ensures c.Delete? ==> c.filter == Eq("id", id)
    ensures !confirmed ==> c == NoOp
  {
    ConfirmedDelete(confirmed, "id", id)
  }

  /** `handleImageUpload`: the photo is stored under
      `gallery/<timestamp>.<ext>`; on success the form captured by the
      handler is written back with the field set to its public URL (see
      `AdminRooms.UploadImage` for what that drops). */
  function UploadImage(p: Panel, captured: GalleryForm, file: Option<string>, stamp: nat, outcome: UploadOutcome): (r: (Option<string>, Panel))
    ensures r.0.Some? <==> file.Some?
    ensures file.Some? ==> r.0.value == UploadPath(UploadFolder, stamp, file.value)
    ensures file.Some? && outcome.Stored? ==> r.1 == p.(form := captured.(imageUrl := outcome.publicUrl))
    ensures !(file.Some? && outcome.Stored?) ==> r.1 == p
    ensures captured == p.form ==> r.1 == p.(form := p.form.(imageUrl := r.1.form.imageUrl))
  {
    var (path, url) := Upload(UploadFolder, stamp, file, outcome, captured.imageUrl);
    (path, if file.Some? && outcome.Stored? then p.(form := captured.(imageUrl := url)) else p)
  }


  /** An upload that succeeds with a non-empty URL makes the next submit go
      through. */
  lemma UploadEnablesSubmit(p: Panel, captured: GalleryForm, file: string, stamp: nat, url: string, writeOk: bool)
    requires url != ""
    ensures Submit(UploadImage(p, captured, Some(file), stamp, Stored(url)).1, writeOk).Added?
  {
  }
}
