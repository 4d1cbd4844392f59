/** The rooms admin panel: the form that edits a room, the row it writes,
    the comma-separated amenities field, and the reset/delete rules. */
module AdminRooms {
  import opened Options
  import opened JsText
  import opened JsNumber
  import opened Backend
  import opened Seqs

  /** A stored room. The price stays the text the form held: the conversion
      by `parseFloat` and back by `toString` is floating point and is not
      modelled. */
  datatype Room = Room(
    id: string,
    name: string,
    description: Option<string>,
    price: string,
    size: Option<string>,
    maxGuests: Option<int>,
    imageUrl: Option<string>,
    amenities: Option<seq<string>>)

  /** The dialog form; every input holds text. */
  datatype RoomForm = RoomForm(
    name: string,
    description: string,
    price: string,
    size: string,
    maxGuests: string,
    imageUrl: string,
    amenities: string)

  /** The `roomData` object a submit writes. */
  datatype RoomRow = RoomRow(
    name: string,
    description: Option<string>,
    price: string,
    size: Option<string>,
    maxGuests: int,
    imageUrl: Option<string>,
    amenities: seq<string>)

  /** The panel's state: the form, the room being edited, the dialog. */
  datatype Panel = Panel(form: RoomForm, editing: Option<Room>, dialogOpen: bool)

  /** Guests when the field is empty, unreadable or zero. */
  const DefaultGuests := 2

  /** The initial form, and the form after every reset. */
  const EmptyForm := RoomForm("", "", "", "", "2", "", "")

  const Initial := Panel(EmptyForm, None, false)

  /** Image uploads are stored under `rooms/`. */
  const UploadFolder := "rooms/"

  /** An amenity label as the list holds it: non-empty, without surrounding
      whitespace and without a comma. */
  predicate IsLabel(s: string) {
    s != "" && Trimmed(s) && ',' !in s
  }

  /** `.map(a => a.trim()).filter(Boolean)`: the trimmed pieces that are not
      empty, and only those. */
  function TrimAndDropEmpty(pieces: seq<string>): (r: seq<string>)
    ensures |r| <= |pieces|
    ensures forall i :: 0 <= i < |r| ==> r[i] != "" && Trimmed(r[i])
  {
    if pieces == [] then []
    else
      KeepNonEmpty(Trim(pieces[0])) + TrimAndDropEmpty(pieces[1..])
  }

  /** Every piece that is not blank once trimmed is in `r`, trimmed. */
  predicate KeepsEveryLabel(pieces: seq<string>, r: seq<string>) {
    forall j :: 0 <= j < |pieces| && Trim(pieces[j]) != "" ==> Trim(pieces[j]) in r
  }

  /** Everything in `r` is the trim of some piece. */
  predicate OnlyTrimmedPieces(pieces: seq<string>, r: seq<string>) {
    forall x :: x in r ==> exists j :: 0 <= j < |pieces| && x == Trim(pieces[j])
  }

  function KeepNonEmpty(s: string): seq<string> {
    if s == "" then [] else [s]
  }

  /** The list holds the trim of every piece that is not blank, and nothing
      that is not the trim of a piece. */
  lemma TrimAndDropEmptyContents(pieces: seq<string>)
    ensures KeepsEveryLabel(pieces, TrimAndDropEmpty(pieces))
    ensures OnlyTrimmedPieces(pieces, TrimAndDropEmpty(pieces))
  {
    TrimAndDropEmptyKeeps(pieces);
    TrimAndDropEmptyOnly(pieces);
  }

  lemma {:induction false} TrimAndDropEmptyKeeps(pieces: seq<string>)
    ensures KeepsEveryLabel(pieces, TrimAndDropEmpty(pieces))
  {
    if pieces != [] {
      TrimAndDropEmptyKeeps(pieces[1..]);
      assert TrimAndDropEmpty(pieces) == KeepNonEmpty(Trim(pieces[0])) + TrimAndDropEmpty(pieces[1..]);
      assert forall j :: 1 <= j < |pieces| ==> pieces[j] == pieces[1..][j - 1];
    }
  }

  lemma {:induction false} TrimAndDropEmptyOnly(pieces: seq<string>)
    ensures OnlyTrimmedPieces(pieces, TrimAndDropEmpty(pieces))
  {
    if pieces != [] {
      var head := KeepNonEmpty(Trim(pieces[0]));
      var rest := TrimAndDropEmpty(pieces[1..]);
      TrimAndDropEmptyOnly(pieces[1..]);
      assert TrimAndDropEmpty(pieces) == head + rest;
      forall x | x in head + rest
        ensures exists j :: 0 <= j < |pieces| && x == Trim(pieces[j])
      {
        if x in head {
          assert x == Trim(pieces[0]);
        } else {
          var j :| 0 <= j < |pieces[1..]| && x == Trim(pieces[1..][j]);
          assert pieces[1..][j] == pieces[j + 1];
        }
      }
    }
  }

  /** Trimmed, non-empty pieces without commas come out of comma-free input. */
  lemma {:induction false} TrimAndDropEmptyGivesLabels(pieces: seq<string>)
    requires forall i :: 0 <= i < |pieces| ==> ',' !in pieces[i]
    ensures forall i :: 0 <= i < |TrimAndDropEmpty(pieces)| ==> IsLabel(TrimAndDropEmpty(pieces)[i])
  {
    if pieces != [] {
      TrimAndDropEmptyGivesLabels(pieces[1..]);
      assert ',' !in Trim(pieces[0]);
    }
  }

  /** Split the comma-separated amenities field of the form into labels;
      blank entries disappear, so an empty field gives no amenities. */
  function ParseAmenities(text: string): (labels: seq<string>)
    ensures forall i :: 0 <= i < |labels| ==> IsLabel(labels[i]) && labels[i] != ""
    ensures text == "" ==> labels == []
  {
    TrimAndDropEmptyGivesLabels(Split(text, ','));
    ParseOfEmpty();
    TrimAndDropEmpty(Split(text, ','))
  }

  lemma ParseOfEmpty()
    ensures TrimAndDropEmpty(Split("", ',')) == []
  {
    assert Split("", ',') == [""];
    assert Trim("") == "";
  }

  lemma TrimAndDropEmptyCons(x: string, rest: seq<string>)
    ensures TrimAndDropEmpty([x] + rest) == KeepNonEmpty(Trim(x)) + TrimAndDropEmpty(rest)
  {
    HeadTailOfAppend([x], rest);
  }

  /** `(amenities || []).join(', ')`: how the edit dialog shows the list. */
  function ShowAmenities(amenities: Option<seq<string>>): string {
    Join(amenities.GetOr([]), ", ")
  }

  lemma {:induction false} TrimAndDropEmptyAppend(a: seq<string>, b: seq<string>)
    ensures TrimAndDropEmpty(a + b) == TrimAndDropEmpty(a) + TrimAndDropEmpty(b)
  {
    if a == [] {
      assert a + b == b;
    } else {
      TrimAndDropEmptyAppend(a[1..], b);
      HeadTailOfAppend(a, b);
    }
  }

  /** The space after each comma of the joined list does not reach the
      parsed labels. */
  lemma ParseIgnoresLeadingSpace(s: string)
    ensures ParseAmenities(" " + s) == ParseAmenities(s)
  {
    SpacedHead(s);
    PlainHead(s);
  }

  /** The leading space lands in the first piece and is trimmed away. */
  lemma SpacedHead(s: string)
    ensures var parts := Split(s, ',');
            TrimAndDropEmpty(Split(" " + s, ',')) == KeepNonEmpty(Trim(parts[0])) + TrimAndDropEmpty(parts[1..])
  {
    var parts := Split(s, ',');
    SplitCons(' ', s, ',');
    TrimAndDropEmptyCons(" " + parts[0], parts[1..]);
    TrimSkipsLeadingWhitespace(' ', parts[0]);
  }

  lemma PlainHead(s: string)
    ensures var parts := Split(s, ',');
            TrimAndDropEmpty(parts) == KeepNonEmpty(Trim(parts[0])) + TrimAndDropEmpty(parts[1..])
  {
    var parts := Split(s, ',');
    assert parts == [parts[0]] + parts[1..];
    TrimAndDropEmptyCons(parts[0], parts[1..]);
  }

  /** Showing a list of labels in the form and parsing it back gives the
      same list. */
  lemma {:induction false} AmenitiesRoundTrip(labels: seq<string>)
    requires forall i :: 0 <= i < |labels| ==> IsLabel(labels[i])
    ensures ParseAmenities(Join(labels, ", ")) == labels
  {
    if |labels| == 0 {
      ParseOfEmpty();
    } else if |labels| == 1 {
      SingleLabelRoundTrip(labels[0]);
    } else {
      AmenitiesRoundTrip(labels[1..]);
      RoundTripStep(labels);
    }
  }

  /** One label shows as itself and parses back. */
  lemma SingleLabelRoundTrip(x: string)
    requires IsLabel(x)
    ensures ParseAmenities(Join([x], ", ")) == [x]
  {
    SplitWithoutSeparator(x, ',');
    TrimmedIsFixedPoint(x);
    TrimAndDropEmptyCons(x, []);
  }

  /** The first label of a longer list comes back in front of the rest. */
  lemma RoundTripStep(labels: seq<string>)
    requires |labels| >= 2 && IsLabel(labels[0])
    requires ParseAmenities(Join(labels[1..], ", ")) == labels[1..]
    ensures ParseAmenities(Join(labels, ", ")) == labels
  {
    var x := labels[0];
    var rest := Join(labels[1..], ", ");
    assert Join(labels, ", ") == x + ", " + rest;
    ParseOfLabelThenRest(x, rest);
    ParseIgnoresLeadingSpace(rest);
    assert labels == [x] + labels[1..];
  }

  /** A label followed by `", "` keeps its place at the head of the list. */
  lemma ParseOfLabelThenRest(x: string, rest: string)
    requires IsLabel(x)
    ensures ParseAmenities(x + ", " + rest) == [x] + ParseAmenities(" " + rest)
  {
    assert x + ", " + rest == x + [','] + (" " + rest);
    assert Split(x + [','] + (" " + rest), ',') == [x] + Split(" " + rest, ',') by {
      SplitAppend(x, " " + rest, ',');
      SplitWithoutSeparator(x, ',');
    }
    TrimAndDropEmptyCons(x, Split(" " + rest, ','));
    TrimmedIsFixedPoint(x);
  }

  /** Parsing normalises: the parsed list shows and parses back to itself. */
  lemma ParseAmenitiesIdempotent(text: string)
    ensures ParseAmenities(Join(ParseAmenities(text), ", ")) == ParseAmenities(text)
  {
    AmenitiesRoundTrip(ParseAmenities(text));
  }

  /** `parseInt(max_guests) || 2`: a number that does not parse, or parses
      to zero, becomes 2; the written value is never zero. */
  function GuestsOf(text: string): (n: int)
    ensures n != 0
    ensures ParseInt(text).Some? && ParseInt(text).value != 0 ==> n == ParseInt(text).value
    ensures ParseInt(text) == None || ParseInt(text) == Some(0) ==> n == DefaultGuests
  {
    match ParseInt(text)
    case Some(v) => if v != 0 then v else DefaultGuests
    case None => DefaultGuests
  }

  /** The row a submit writes for the form. */
  function RowOf(f: RoomForm): (row: RoomRow)
    ensures row.name == f.name && row.price == f.price
    ensures OrEmpty(row.description) == f.description && row.description != Some("")
    ensures OrEmpty(row.size) == f.size && row.size != Some("")
    ensures OrEmpty(row.imageUrl) == f.imageUrl && row.imageUrl != Some("")
    ensures row.maxGuests != 0
    ensures forall i :: 0 <= i < |row.amenities| ==> IsLabel(row.amenities[i])
  {
    RoomRow(
      f.name,
      OrNull(f.description),
      f.price,
      OrNull(f.size),
      GuestsOf(f.maxGuests),
      OrNull(f.imageUrl),
      ParseAmenities(f.amenities))
  }

  /** `(max_guests || 2)`: the guest count the edit form shows; a missing or
      zero count shows as 2. */
  function ShownGuests(maxGuests: Option<int>): (n: int)
    ensures n != 0
    ensures maxGuests.Some? && maxGuests.value != 0 ==> n == maxGuests.value
    ensures n != DefaultGuests ==> maxGuests == Some(n)
  {
    if maxGuests == None || maxGuests == Some(0) then DefaultGuests else maxGuests.value
  }

  /** A stored amenity list the form can show without loss: missing, or
      made of labels. */
  predicate HasLabels(amenities: Option<seq<string>>) {
    amenities.Some? ==> forall i :: 0 <= i < |amenities.value| ==> IsLabel(amenities.value[i])
  }

  /** `handleEdit`: the form shows the stored room, with null text as `''`,
      a missing or zero guest count as `'2'`, and the amenities joined so
      that a submit reads back the same guest count and the same list. */
  function EditForm(room: Room): (f: RoomForm)
    ensures f.name == room.name && f.price == room.price
    ensures f.description == OrEmpty(room.description)
    ensures f.size == OrEmpty(room.size) && f.imageUrl == OrEmpty(room.imageUrl)
    ensures f.maxGuests == IntToDecimal(ShownGuests(room.maxGuests))
    ensures GuestsOf(f.maxGuests) == ShownGuests(room.maxGuests)
    ensures HasLabels(room.amenities) ==> ParseAmenities(f.amenities) == room.amenities.GetOr([])
  {
    var guests := ShownGuests(room.maxGuests);
    assert GuestsOf(IntToDecimal(guests)) == guests by {
      ParseIntOfDecimal(guests);
    }
    assert HasLabels(room.amenities) ==> ParseAmenities(ShowAmenities(room.amenities)) == room.amenities.GetOr([]) by {
      if HasLabels(room.amenities) {
        AmenitiesRoundTrip(room.amenities.GetOr([]));
      }
    }
    RoomForm(
      room.name,
      OrEmpty(room.description),
      room.price,
      OrEmpty(room.size),
      IntToDecimal(guests),
      OrEmpty(room.imageUrl),
      ShowAmenities(room.amenities))
  }

  /** `handleEdit`: the dialog opens on the room's form. */
  function Edit(p: Panel, room: Room): (q: Panel)
    ensures q.form == EditForm(room)
    ensures q.editing == Some(room) && q.dialogOpen
  {
    Panel(EditForm(room), Some(room), true)
  }

  /** `resetForm()`: back to the initial form with nothing being edited. */
  function Reset(p: Panel): (q: Panel)
    ensures q.form == EmptyForm && q.editing.None? && q.dialogOpen == p.dialogOpen
  {
    Panel(EmptyForm, None, p.dialogOpen)
  }

  /** `handleSubmit`: update the edited room by its id or insert a new one;
      then, whatever the write's outcome, reset the form and close the
      dialog. The list is fetched again only after a successful write. */
  function Submit(p: Panel, writeOk: bool): (s: Submitted<Panel, RoomRow>)
    ensures s.command.Update? <==> p.editing.Some?
    ensures s.command.Insert? <==> p.editing.None?
    ensures s.command.Update? ==> s.command.filter == Eq("id", p.editing.value.id) && s.command.patch == RowOf(p.form)
    ensures s.command.Insert? ==> s.command.row == RowOf(p.form)
    ensures s.after == Initial
    ensures s.refetch == writeOk
  {
    var command := Upsert(if p.editing.Some? then Some(p.editing.value.id) else None, RowOf(p.form));
    var reset := Reset(p);
    Submitted(command, reset.(dialogOpen := false), writeOk)
  }

  /** `handleDelete`: a delete by id once the user confirms. */
  function DeleteRoom(id: string, confirmed: bool): (c: Command<RoomRow>)
    ensures c.Delete? <==> confirmed
    ensures c.Delete? ==> c.filter == Eq("id", id)
    ensures !confirmed ==> c == NoOp
  {
    ConfirmedDelete(confirmed, "id", id)
  }

  /** `handleImageUpload`: the image is stored under `rooms/<timestamp>.<ext>`.
      The handler holds `captured`, the form of the render it belongs to;
      on success it writes that form back with the image field set to the
      public URL, so text typed while the upload was in flight is dropped.
      When nothing was typed meanwhile, only the image field changes. On
      failure the panel is left as it is. */
  function UploadImage(p: Panel, captured: RoomForm, file: Option<string>, stamp: nat, outcome: UploadOutcome): (r: (Option<string>, Panel))
    ensures r.0.Some? <==> file.Some?
    ensures file.Some? ==> r.0.value == UploadPath(UploadFolder, stamp, file.value)
    ensures file.Some? && outcome.Stored? ==> r.1 == p.(form := captured.(imageUrl := outcome.publicUrl))
    ensures !(file.Some? && outcome.Stored?) ==> r.1 == p
    ensures captured == p.form ==> r.1 == p.(form := p.form.(imageUrl := r.1.form.imageUrl))
  {
    var (path, url) := Upload(UploadFolder, stamp, file, outcome, captured.imageUrl);
    (path, if file.Some? && outcome.Stored? then p.(form := captured.(imageUrl := url)) else p)
  }


  /** The stored room as a submit would write it back: null text stays null
      and a missing or zero guest count becomes 2. */
  function Rewritten(room: Room): RoomRow {
    RoomRow(
      room.name,
      room.description,
      room.price,
      room.size,
      ShownGuests(room.maxGuests),
      room.imageUrl,
      room.amenities.GetOr([]))
  }

  /** The stored values the form can show without loss: no empty text where
      null is meant, and well-formed amenity labels. */
  predicate Representable(room: Room) {
    && room.description != Some("")
    && room.size != Some("")
    && room.imageUrl != Some("")
    && HasLabels(room.amenities)
  }

  /** Opening a room for editing and saving it unchanged writes the room
      back by its id, with only the null and zero guest count normalised
      to 2 and missing amenities to the empty list. */
  lemma EditThenSubmit(p: Panel, room: Room, writeOk: bool)
    requires Representable(room)
    ensures Submit(Edit(p, room), writeOk).command == Update(Eq("id", room.id), Rewritten(room))
  {
    var f := EditForm(room);
    NullRoundTrip(room.description);
    NullRoundTrip(room.size);
    NullRoundTrip(room.imageUrl);
    assert RowOf(f) == Rewritten(room);
  }

  /** Closing the dialog resets the form, so "Tambah Kamar" opens on the empty
      form; a submit from there inserts a new room with an empty name and
      price, no description, size or image, room for 2 guests and no
      amenities. */
  lemma SubmitAfterResetInsertsBlankRoom(p: Panel, writeOk: bool)
    ensures Submit(Reset(p), writeOk).command == Insert(RoomRow("", None, "", None, DefaultGuests, None, []))
  {
    BlankRow();
  }

  /** The row of the empty form. */
  lemma BlankRow()
    ensures RowOf(EmptyForm) == RoomRow("", None, "", None, DefaultGuests, None, [])
  {
    DefaultGuestsReadBack();
  }

  /** The guest field of the empty form reads as the default. */
  lemma DefaultGuestsReadBack()
    ensures GuestsOf(EmptyForm.maxGuests) == DefaultGuests
  {
    assert IntToDecimal(DefaultGuests) == EmptyForm.maxGuests;
    ParseIntOfDecimal(DefaultGuests);
  }

  /** A field typed while an upload is in flight is lost when the upload
      succeeds: the panel goes back to the captured name. */
  lemma TypingDuringUploadIsLost(p: Panel, file: string, stamp: nat, url: string)
    requires p.form.name != "Suite"
    ensures var typed := p.(form := p.form.(name := "Suite"));
            UploadImage(typed, p.form, Some(file), stamp, Stored(url)).1.form.name != typed.form.name
  {
  }
}
