/** The administrator panel: adding an administrator through the
    `create-admin-user` backend function after local validation, and removing
    an administrator's role. */
module AdminUsers {
  import opened Options
  import opened JsText
  import opened Backend
  import opened Seqs

  datatype Role = Admin | User

  /** A `user_roles` row. */
  datatype UserRole = UserRole(id: string, userId: string, role: Role)

  /** The add dialog: its two fields and whether it is open. */
  datatype AddForm = AddForm(email: string, password: string, dialogOpen: bool)

  /** The body sent to the backend function. */
  datatype Credentials = Credentials(email: string, password: string)

  /** What the backend function call gives back: an error with its message,
      or the reply body (`null` when absent), which reports success and may
      carry an error text. */
  datatype ReplyBody = ReplyBody(success: bool, error: Option<string>)
  datatype Reply = InvokeFailed(message: Option<string>) | Returned(data: Option<ReplyBody>)

  /** The toast shown at the end of the handler. */
  datatype Toast = Success(text: string) | Failure(text: string)

  /** What `handleAddAdmin` did: the call it made, if any, the toast, the
      dialog afterwards, and whether the list is fetched again. */
  datatype AddResult = AddResult(call: Option<Credentials>, toast: Toast, after: AddForm, refetch: bool)

  const MissingFields := "Email dan password wajib diisi"
  const PasswordTooShort := "Password minimal 6 karakter"
  const Created := "Admin baru berhasil ditambahkan!"
  const ReplyFallback := "Gagal membuat admin"
  const ErrorFallback := "Gagal membuat admin baru"

  /** The shortest password the panel accepts, in UTF-16 code units. */
  const MinPasswordLength := 6

  /** `s.length`: the number of UTF-16 code units, in which a character
      beyond the Basic Multilingual Plane counts twice. */
  function Utf16Length(s: string): (n: nat)
    ensures |s| <= n <= 2 * |s|
    ensures (forall i :: 0 <= i < |s| ==> s[i] as int <= 0xFFFF) ==> n == |s|
  {
    if s == [] then 0 else (if s[0] as int > 0xFFFF then 2 else 1) + Utf16Length(s[1..])
  }

  /** The checks made before anything is sent: both fields are required,
      then the password must be at least six code units long. */
  function Validate(email: string, password: string): (refusal: Option<string>)
    ensures refusal == None <==> email != "" && password != "" && Utf16Length(password) >= MinPasswordLength
    ensures email == "" || password == "" ==> refusal == Some(MissingFields)
    ensures email != "" && password != "" && Utf16Length(password) < MinPasswordLength ==> refusal == Some(PasswordTooShort)
  {
    if email == "" || password == "" then Some(MissingFields)
    else if Utf16Length(password) < MinPasswordLength then Some(PasswordTooShort)
    else None
  }

  /** Whether the reply body carries an error text worth showing. */
  predicate HasReplyError(data: Option<ReplyBody>) {
    data.Some? && data.value.error.Some? && data.value.error.value != ""
  }

  /** The text of the error caught by the handler, once a call was made: a
      non-empty invocation message is shown as it is, and an empty or
      missing one as "Gagal membuat admin baru"; for a reply that did not
      succeed, a non-empty error text of the body is shown as it is, and
      otherwise (no body, no text, or an empty one) "Gagal membuat admin". */
  function FailureText(reply: Reply): (text: string)
    requires !(reply.Returned? && reply.data.Some? && reply.data.value.success)
    ensures text != ""
    ensures reply.InvokeFailed? && reply.message.Some? && reply.message.value != "" ==> text == reply.message.value
    ensures reply.InvokeFailed? && (reply.message.None? || reply.message == Some("")) ==> text == ErrorFallback
    ensures reply.Returned? && HasReplyError(reply.data) ==> text == reply.data.value.error.value
    ensures reply.Returned? && !HasReplyError(reply.data) ==> text == ReplyFallback
  {
    match reply
    case InvokeFailed(message) => OrFallback(message, ErrorFallback)
    case Returned(data) =>
      var thrown := OrFallback(if data.Some? then data.value.error else None, ReplyFallback);
      OrFallback(Some(thrown), ErrorFallback)
  }

  /** `handleAddAdmin`. Only a valid form calls the backend. On success the
      dialog closes and the fields clear; on a refusal or a failure the
      dialog is left as it was. */
  function AddAdmin(form: AddForm, reply: Reply): (r: AddResult)
    ensures r.call.Some? <==> Validate(form.email, form.password) == None
    ensures r.call.Some? ==> r.call.value == Credentials(form.email, form.password)
    ensures r.toast.Success? <==> r.call.Some? && reply.Returned? && reply.data.Some? && reply.data.value.success
    ensures r.toast.Success? ==> r.after == AddForm("", "", false) && r.refetch
    ensures r.toast.Failure? ==> r.after == form && !r.refetch && r.toast.text != ""
    ensures r.call.None? ==> r.toast == Failure(Validate(form.email, form.password).value)
  {
    match Validate(form.email, form.password)
    case Some(refusal) => AddResult(None, Failure(refusal), form, false)
    case None =>
      var call := Some(Credentials(form.email, form.password));
      if reply.Returned? && reply.data.Some? && reply.data.value.success then
        AddResult(call, Success(Created), AddForm("", "", false), true)
      else
        AddResult(call, Failure(FailureText(reply)), form, false)
  }

  /** A refused form can be corrected and resubmitted: the refusal keeps
      what was typed. */
  lemma RefusalKeepsForm(form: AddForm, reply: Reply)
    requires form.email == "" || Utf16Length(form.password) < MinPasswordLength
    ensures AddAdmin(form, reply).call.None? && AddAdmin(form, reply).after == form
  {
  }

  /** The delete button passes the row's `user_id`, not its own `id`, and the
      delete waits for confirmation. */
  function DeleteRole(row: UserRole, confirmed: bool): (c: Command<UserRole>)
    ensures c.Delete? <==> confirmed
    ensures c.Delete? ==> c.filter == Eq("user_id", row.userId)
    ensures !confirmed ==> c == NoOp
  {
    ConfirmedDelete(confirmed, "user_id", row.userId)
  }

  /** `delete().eq('user_id', u)` on the role rows: every row of that user
      goes, every other row stays, as often as it was there and in order. */
  function DeleteWhereUser(roles: seq<UserRole>, userId: string): (r: seq<UserRole>)
    ensures forall x :: x in r <==> x in roles && x.userId != userId
    ensures forall x :: multiset(r)[x] == if x.userId == userId then 0 else multiset(roles)[x]
    ensures IsSubsequence(r, roles)
    ensures |r| <= |roles|
  {
    if roles == [] then []
    else
      var rest := DeleteWhereUser(roles[1..], userId);
      assert forall x :: x in roles <==> x == roles[0] || x in roles[1..];
      assert multiset(roles) == multiset{roles[0]} + multiset(roles[1..]) by {
        assert roles == [roles[0]] + roles[1..];
      }
      if roles[0].userId == userId then
        SubsequenceOfTail(rest, roles);
        rest
      else
        assert ([roles[0]] + rest)[1..] == rest;
        [roles[0]] + rest
  }

  /** After a confirmed delete the user holds no role at all, so not the
      administrator role either, and every other user keeps theirs. */
  lemma DeleteRemovesEveryRoleOfTheUser(roles: seq<UserRole>, row: UserRole)
    ensures var after := DeleteWhereUser(roles, DeleteRole(row, true).filter.value);
            && (forall x :: x in after ==> x.userId != row.userId)
            && (forall x :: x in roles && x.userId != row.userId ==> x in after)
  {
  }
}
