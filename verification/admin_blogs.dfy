/** The blog admin panel: the post form, the row it writes, the rule that
    ties the published flag to its timestamp, and the publish toggle. The
    clock reading `new Date().toISOString()` is an opaque parameter. */
module AdminBlogs {
  import opened Options
  import opened JsText
  import opened Backend

  /** A stored post. */
  datatype Blog = Blog(
    id: string,
    title: string,
    excerpt: Option<string>,
    content: Option<string>,
    featuredImageUrl: Option<string>,
    category: Option<string>,
    author: Option<string>,
    isPublished: Option<bool>,
    publishedAt: Option<string>)

  /** The dialog form. */
  datatype BlogForm = BlogForm(
    title: string,
    excerpt: string,
    content: string,
    featuredImageUrl: string,
    category: string,
    author: string,
    isPublished: bool)

  /** The `blogData` object a submit writes. */
  datatype BlogRow = BlogRow(
    title: string,
    excerpt: Option<string>,
    content: Option<string>,
    featuredImageUrl: Option<string>,
    category: Option<string>,
    author: string,
    isPublished: bool,
    publishedAt: Option<string>)

  /** The two columns the publish toggle writes. */
  datatype PublishPatch = PublishPatch(isPublished: bool, publishedAt: Option<string>)

  datatype Panel = Panel(form: BlogForm, editing: Option<Blog>, dialogOpen: bool)

  /** The author written when the form leaves it empty. */
  const DefaultAuthor := "Admin"

  const EmptyForm := BlogForm("", "", "", "", "", DefaultAuthor, false)

  const Initial := Panel(EmptyForm, None, false)

  const UploadFolder := "blogs/"

  /** The row a submit writes: empty text becomes null, an empty author
      becomes `'Admin'`, and a published post is stamped with `now`. */
  function RowOf(f: BlogForm, now: string): (row: BlogRow)
    ensures row.title == f.title && row.isPublished == f.isPublished
    ensures row.publishedAt.Some? <==> row.isPublished
    ensures row.publishedAt.Some? ==> row.publishedAt.value == now
    ensures row.author != "" && (row.author == f.author || (f.author == "" && row.author == DefaultAuthor))
    ensures OrEmpty(row.excerpt) == f.excerpt && row.excerpt != Some("")
    ensures OrEmpty(row.content) == f.content && row.content != Some("")
    ensures OrEmpty(row.featuredImageUrl) == f.featuredImageUrl && row.featuredImageUrl != Some("")
    ensures OrEmpty(row.category) == f.category && row.category != Some("")
  {
    BlogRow(
      f.title,
      OrNull(f.excerpt),
      OrNull(f.content),
      OrNull(f.featuredImageUrl),
      OrNull(f.category),
      if f.author == "" then DefaultAuthor else f.author,
      f.isPublished,
      if f.isPublished then Some(now) else None)
  }

  /** `handleEdit`: null text shows as `''`, a null or empty author as
      `'Admin'`, a null flag as unpublished. */
  function EditForm(blog: Blog): (f: BlogForm)
    ensures f.title == blog.title
    ensures f.author != ""
    ensures f.isPublished <==> blog.isPublished == Some(true)
    ensures f.author == blog.author.GetOr(DefaultAuthor) || blog.author == Some("")
    ensures OrNull(f.excerpt) == (if blog.excerpt == Some("") then None else blog.excerpt)
    ensures OrNull(f.content) == (if blog.content == Some("") then None else blog.content)
    ensures OrNull(f.featuredImageUrl) == (if blog.featuredImageUrl == Some("") then None else blog.featuredImageUrl)
    ensures OrNull(f.category) == (if blog.category == Some("") then None else blog.category)
  {
    NullRoundTrip(blog.excerpt);
    NullRoundTrip(blog.content);
    NullRoundTrip(blog.featuredImageUrl);
    NullRoundTrip(blog.category);
    BlogForm(
      blog.title,
      OrEmpty(blog.excerpt),
      OrEmpty(blog.content),
      OrEmpty(blog.featuredImageUrl),
      OrEmpty(blog.category),
      OrFallback(blog.author, DefaultAuthor),
      blog.isPublished.GetOr(false))
  }

  /** `handleEdit`: the dialog opens on the post's form. */
  function Edit(p: Panel, blog: Blog): (q: Panel)
    ensures q.form == EditForm(blog)
    ensures q.editing == Some(blog) && q.dialogOpen
  {
    Panel(EditForm(blog), Some(blog), true)
  }

  /** `resetForm()` */
  function Reset(p: Panel): (q: Panel)
    ensures q.form == EmptyForm && q.editing.None? && q.dialogOpen == p.dialogOpen
  {
    Panel(EmptyForm, None, p.dialogOpen)
  }

  /** `handleSubmit`: update the edited post by id or insert a new one; then,
      whatever the outcome, reset the form and close the dialog. */
  function Submit(p: Panel, now: string, writeOk: bool): (s: Submitted<Panel, BlogRow>)
    ensures s.command.Update? <==> p.editing.Some?
    ensures s.command.Insert? <==> p.editing.None?
    ensures s.command.Update? ==> s.command.filter == Eq("id", p.editing.value.id) && s.command.patch == RowOf(p.form, now)
    ensures s.command.Insert? ==> s.command.row == RowOf(p.form, now)
    ensures s.after == Initial
    ensures s.refetch == writeOk
  {
    var command := Upsert(if p.editing.Some? then Some(p.editing.value.id) else None, RowOf(p.form, now));
    var reset := Reset(p);
    Submitted(command, reset.(dialogOpen := false), writeOk)
  }

  function DeleteBlog(id: string, confirmed: bool): (c: Command<BlogRow>)
    ensures c.Delete? <==> confirmed
    ensures c.Delete? ==> c.filter == Eq("id", id)
    ensures !confirmed ==> c == NoOp
  {
    ConfirmedDelete(confirmed, "id", id)
  }

  /** `!blog.is_published`, in which null counts as false. */
  function IsPublished(blog: Blog): bool {
    blog.isPublished == Some(true)
  }

  /** `togglePublish`: flip the flag of the post by id, stamping it with
      `now` exactly when it becomes published and clearing the stamp
      otherwise. */
  function TogglePublish(blog: Blog, now: string): (c: Command<PublishPatch>)
    ensures c.Update? && c.filter == Eq("id", blog.id)
    ensures c.patch.isPublished == !IsPublished(blog)
    ensures c.patch.publishedAt.Some? <==> c.patch.isPublished
    ensures c.patch.publishedAt.Some? ==> c.patch.publishedAt.value == now
  {
    var publish := blog.isPublished != Some(true);
    Update(Eq("id", blog.id), PublishPatch(publish, if publish then Some(now) else None))
  }

  /** The stored post once a publish patch has been written. */
  function Patched(blog: Blog, patch: PublishPatch): Blog {
    blog.(isPublished := Some(patch.isPublished), publishedAt := patch.publishedAt)
  }

  /** Toggling twice gives back the original flag, with null read as false;
      the stamp is the second toggle's clock when the post ends published
      and null otherwise. */
  lemma ToggleTwice(blog: Blog, first: string, second: string)
    ensures var once := Patched(blog, TogglePublish(blog, first).patch);
            var twice := Patched(once, TogglePublish(once, second).patch);
            && twice.isPublished == Some(IsPublished(blog))
            && twice.publishedAt == (if IsPublished(blog) then Some(second) else None)
            && twice.(isPublished := blog.isPublished, publishedAt := blog.publishedAt) == blog
  {
  }

  /** The stored post as a submit would write it back. */
  function Rewritten(blog: Blog, now: string): BlogRow {
    BlogRow(
      blog.title,
      blog.excerpt,
      blog.content,
      blog.featuredImageUrl,
      blog.category,
      blog.author.GetOr(DefaultAuthor),
      IsPublished(blog),
      if IsPublished(blog) then Some(now) else None)
  }

  predicate Representable(blog: Blog) {
    && blog.excerpt != Some("")
    && blog.content != Some("")
    && blog.featuredImageUrl != Some("")
    && blog.category != Some("")
    && blog.author != Some("")
  }

  /** Opening a post for editing and saving it unchanged writes it back by
      its id, with a null author as `'Admin'` and a null flag as false. The
      publication stamp is re-taken from the clock: saving a published post
      moves its publication time to the moment of the save. */
  lemma EditThenSubmit(p: Panel, blog: Blog, now: string, writeOk: bool)
    requires Representable(blog)
    ensures Submit(Edit(p, blog), now, writeOk).command == Update(Eq("id", blog.id), Rewritten(blog, now))
  {
    NullRoundTrip(blog.content);
    NullRoundTrip(blog.featuredImageUrl);
    NullRoundTrip(blog.category);
    assert RowOf(EditForm(blog), now) == Rewritten(blog, now);
  }

  /** `handleImageUpload`: the featured image is stored under
      `blogs/<timestamp>.<ext>`; on success the form captured by the handler
      is written back with the field set to its public URL (see
      `AdminRooms.UploadImage` for what that drops). */
  function UploadImage(p: Panel, captured: BlogForm, file: Option<string>, stamp: nat, outcome: UploadOutcome): (r: (Option<string>, Panel))
    ensures r.0.Some? <==> file.Some?
    ensures file.Some? ==> r.0.value == UploadPath(UploadFolder, stamp, file.value)
    ensures file.Some? && outcome.Stored? ==> r.1 == p.(form := captured.(featuredImageUrl := outcome.publicUrl))
    ensures !(file.Some? && outcome.Stored?) ==> r.1 == p
    ensures captured == p.form ==> r.1 == p.(form := p.form.(featuredImageUrl := r.1.form.featuredImageUrl))
  {
    var (path, url) := Upload(UploadFolder, stamp, file, outcome, captured.featuredImageUrl);
    (path, if file.Some? && outcome.Stored? then p.(form := captured.(featuredImageUrl := url)) else p)
  }


  /** Closing the dialog resets the form, so "Tambah Blog" opens on the empty
      form; a submit from there inserts an unpublished post with an empty
      title, no excerpt, content, image or category, and `'Admin'` as its
      author. */
  lemma SubmitAfterResetInsertsDraft(p: Panel, now: string, writeOk: bool)
    ensures Submit(Reset(p), now, writeOk).command == Insert(BlogRow("", None, None, None, None, DefaultAuthor, false, None))
  {
    assert RowOf(EmptyForm, now) == BlogRow("", None, None, None, None, DefaultAuthor, false, None);
  }
}
