/** The testimonial admin panel. The rating travels as text in the form (the
    value of the rating picker) and is written back with `parseInt`. */
module AdminTestimonials {
  import opened Options
  import opened JsText
  import opened JsNumber
  import opened Backend
  import opened Stars

  /** A stored testimonial. A rating that `parseInt` could not read is
      stored as null, so `rating` is `None` for both. */
  datatype Testimonial = Testimonial(
    id: string,
    name: string,
    location: Option<string>,
    avatarUrl: Option<string>,
    rating: Option<int>,
    comment: string,
    date: Option<string>)

  datatype TestimonialForm = TestimonialForm(
    name: string,
    location: string,
    avatarUrl: string,
    rating: string,
    comment: string,
    date: string)

  /** The `testimonialData` object a submit writes. */
  datatype TestimonialRow = TestimonialRow(
    name: string,
    location: Option<string>,
    avatarUrl: Option<string>,
    rating: Option<int>,
    comment: string,
    date: Option<string>)

  datatype Panel = Panel(form: TestimonialForm, editing: Option<Testimonial>, dialogOpen: bool)

  /** The rating a new testimonial starts with, and the one shown for a
      stored testimonial with no rating. */
  const DefaultRating := 5

  /** The choices of the rating picker, `[1, 2, 3, 4, 5]`. */
  const RatingChoices: seq<int> := [1, 2, 3, 4, 5]

  const EmptyForm := TestimonialForm("", "", "", "5", "", "")

  const Initial := Panel(EmptyForm, None, false)

  const UploadFolder := "avatars/"

  /** The row a submit writes: optional text becomes null when empty and the
      rating text is read with `parseInt`. */
  function RowOf(f: TestimonialForm): (row: TestimonialRow)
    ensures row.name == f.name && row.comment == f.comment
    ensures OrEmpty(row.location) == f.location && row.location != Some("")
    ensures OrEmpty(row.avatarUrl) == f.avatarUrl && row.avatarUrl != Some("")
    ensures OrEmpty(row.date) == f.date && row.date != Some("")
    ensures forall k :: f.rating == IntToDecimal(k) ==> row.rating == Some(k)
    ensures f.rating == "" ==> row.rating.None?
  {
    assert forall k :: f.rating == IntToDecimal(k) ==> ParseInt(f.rating) == Some(k) by {
      forall k | f.rating == IntToDecimal(k) {
        ParseIntOfDecimal(k);
      }
    }
    TestimonialRow(f.name, OrNull(f.location), OrNull(f.avatarUrl), ParseInt(f.rating), f.comment, OrNull(f.date))
  }

  /** Picking any choice of the rating picker writes that rating. */
  lemma PickedRatingIsWritten(f: TestimonialForm, k: int)
    requires k in RatingChoices
    ensures 1 <= k <= 5
    ensures RowOf(f.(rating := IntToDecimal(k))).rating == Some(k)
  {
  }

  /** The text of one of the picker's choices. */
  predicate IsRatingChoice(text: string) {
    exists k :: k in RatingChoices && text == IntToDecimal(k)
  }

  /** A form whose rating is one of the picker's choices writes a rating
      from one to five. */
  lemma ChosenRatingInRange(f: TestimonialForm)
    requires IsRatingChoice(f.rating)
    ensures RowOf(f).rating.Some? && 1 <= RowOf(f).rating.value <= 5
  {
    var k :| k in RatingChoices && f.rating == IntToDecimal(k);
    assert RowOf(f).rating == Some(k);
  }

  /** `(rating || 5)`: a missing or zero rating is edited as five stars. */
  function EditRating(rating: Option<int>): (k: int)
    ensures k != 0
    ensures rating.Some? && rating.value != 0 ==> k == rating.value
    ensures k != DefaultRating ==> rating == Some(k)
  {
    if rating == None || rating == Some(0) then DefaultRating else rating.value
  }

  /** `handleEdit` */
  function EditForm(t: Testimonial): (f: TestimonialForm)
    ensures f.name == t.name && f.comment == t.comment
    ensures f.rating == IntToDecimal(EditRating(t.rating))
    ensures f.location == OrEmpty(t.location) && f.avatarUrl == OrEmpty(t.avatarUrl) && f.date == OrEmpty(t.date)
  {
    TestimonialForm(t.name, OrEmpty(t.location), OrEmpty(t.avatarUrl), IntToDecimal(EditRating(t.rating)), t.comment, OrEmpty(t.date))
  }

  /** The form starts, and is reset, on a choice of the picker, and editing
      a testimonial whose stored rating is missing or between zero and five
      keeps it there; a stored rating above five or below zero is carried
      into the form as it is. */
  lemma FormRatingStaysAChoice(t: Testimonial)
    ensures IsRatingChoice(EmptyForm.rating)
    ensures t.rating.None? || 0 <= t.rating.value <= 5 ==> IsRatingChoice(EditForm(t).rating)
    ensures t.rating.Some? && t.rating.value > 5 ==> RowOf(EditForm(t)).rating == t.rating
  {
    assert EmptyForm.rating == IntToDecimal(5) && 5 in RatingChoices;
    var k := EditRating(t.rating);
    if t.rating.None? || 0 <= t.rating.value <= 5 {
      assert k in RatingChoices;
    }
  }

  /** `handleEdit`: the dialog opens on the testimonial's form. */
  function Edit(p: Panel, t: Testimonial): (q: Panel)
    ensures q.form == EditForm(t)
    ensures q.editing == Some(t) && q.dialogOpen
  {
    Panel(EditForm(t), Some(t), true)
  }

  /** `resetForm()` */
  function Reset(p: Panel): (q: Panel)
    ensures q.form == EmptyForm && q.editing.None? && q.dialogOpen == p.dialogOpen
  {
    Panel(EmptyForm, None, p.dialogOpen)
  }

  /** `handleSubmit`: update by id when editing, insert otherwise; the form
      is reset and the dialog closed whatever the outcome. */
  function Submit(p: Panel, writeOk: bool): (s: Submitted<Panel, TestimonialRow>)
    ensures s.command.Update? <==> p.editing.Some?
    ensures s.command.Insert? <==> p.editing.None?
    ensures s.command.Update? ==> s.command.filter == Eq("id", p.editing.value.id) && s.command.patch == RowOf(p.form)
    ensures s.command.Insert? ==> s.command.row == RowOf(p.form)
    ensures s.after == Initial
    ensures s.refetch == writeOk
  {
    var command := Upsert(if p.editing.Some? then Some(p.editing.value.id) else None, RowOf(p.form));
    Submitted(command, Reset(p).(dialogOpen := false), writeOk)
  }

  /** A testimonial added without touching the picker is rated five. */
  lemma NewTestimonialRatedFive(p: Panel, writeOk: bool)
    requires p.editing.None? && p.form.rating == EmptyForm.rating
    ensures Submit(p, writeOk).command.Insert?
    ensures Submit(p, writeOk).command.row.rating == Some(DefaultRating)
  {
    assert EmptyForm.rating == IntToDecimal(DefaultRating);
  }

  function DeleteTestimonial(id: string, confirmed: bool): (c: Command<TestimonialRow>)
    ensures c.Delete? <==> confirmed
    ensures c.Delete? ==> c.filter == Eq("id", id)
    ensures !confirmed ==> c == NoOp
  {
    ConfirmedDelete(confirmed, "id", id)
  }

  /** The stored testimonial as a submit would write it back. */
  function Rewritten(t: Testimonial): TestimonialRow {
    TestimonialRow(t.name, t.location, t.avatarUrl, Some(EditRating(t.rating)), t.comment, t.date)
  }

  predicate Representable(t: Testimonial) {
    t.location != Some("") && t.avatarUrl != Some("") && t.date != Some("")
  }

  /** Opening a testimonial and saving it unchanged writes it back by id,
      except that a missing or zero rating becomes five stars. */
  lemma EditThenSubmit(p: Panel, t: Testimonial, writeOk: bool)
    requires Representable(t)
    ensures Submit(Edit(p, t), writeOk).command == Update(Eq("id", t.id), Rewritten(t))
  {
    NullRoundTrip(t.location);
    NullRoundTrip(t.avatarUrl);
    NullRoundTrip(t.date);
    var f := EditForm(t);
    assert RowOf(f).rating == Some(EditRating(t.rating));
    assert RowOf(f) == Rewritten(t);
  }

  /** `renderStars`: five stars, the first `rating || 0` of them filled. */
  function RenderStars(rating: Option<int>): (stars: seq<bool>)
    ensures |stars| == StarCount
    ensures forall i :: 0 <= i < |stars| ==> (stars[i] <==> rating.Some? && i < rating.value)
  {
    FiveStars(rating.GetOr(0))
  }

  /** `handleImageUpload`: the avatar is stored under
      `avatars/<timestamp>.<ext>`; on success the form captured by the
      handler is written back with the field set to its public URL (see
      `AdminRooms.UploadImage` for what that drops). */
  function UploadAvatar(p: Panel, captured: TestimonialForm, file: Option<string>, stamp: nat, outcome: UploadOutcome): (r: (Option<string>, Panel))
    ensures r.0.Some? <==> file.Some?
    ensures file.Some? ==> r.0.value == UploadPath(UploadFolder, stamp, file.value)
    ensures file.Some? && outcome.Stored? ==> r.1 == p.(form := captured.(avatarUrl := outcome.publicUrl))
    ensures !(file.Some? && outcome.Stored?) ==> r.1 == p
    ensures captured == p.form ==> r.1 == p.(form := p.form.(avatarUrl := r.1.form.avatarUrl))
  {
    var (path, url) := Upload(UploadFolder, stamp, file, outcome, captured.avatarUrl);
    (path, if file.Some? && outcome.Stored? then p.(form := captured.(avatarUrl := url)) else p)
  }


  /** Closing the dialog resets the form, so "Tambah Testimoni" opens on the
      empty form; a submit from there inserts a five-star testimonial with an
      empty name and comment and no location, avatar or date. */
  lemma SubmitAfterResetInsertsBlankTestimonial(p: Panel, writeOk: bool)
    ensures Submit(Reset(p), writeOk).command == Insert(TestimonialRow("", None, None, Some(DefaultRating), "", None))
  {
    assert EmptyForm.rating == IntToDecimal(DefaultRating);
    assert RowOf(EmptyForm) == TestimonialRow("", None, None, Some(DefaultRating), "", None);
  }
}
