# Andelir hotel site: the logic inside the components, in Dafny

This project models the pure logic of a hotel marketing site and its admin panel. The site is a React application on a hosted backend. The model covers:

- the public gallery's category filter and its wrap-around lightbox;
- the testimonial carousel's star strip, avatar initials and active dot;
- the `useSettings` hook, which merges the `settings` table over built-in defaults;
- the six admin panels: rooms, blogs, testimonials, gallery, settings and administrators;
- the admin page's access guard, tabs and sign-out.

Everything is a pure function over immutable datatypes. The backend is handled like this:

- A write to a table is never executed. It is returned as a `Command` value: `Insert(row)`, `Update(Eq(column, value), patch)`, `Delete(Eq(column, value))` or `NoOp`.
- The outcome of a read, write, upload or function call is a parameter.
- The answer to a `confirm()` dialog is a boolean parameter.
- The clock is a parameter: a number for `Date.now()`, an opaque string for `toISOString()`.

The JavaScript operations the components rely on are written out, because their edge cases decide what gets stored:

- `trim` and one-character `split` / `join`;
- `split('.').pop()`;
- `s || null`, `v || ''` and `v || fallback`, in which the empty string counts as false;
- `parseInt` without a radix, including leading whitespace, sign, `0x` prefix and trailing junk;
- integer `toString`;
- the `%` operator, whose remainder takes the sign of the dividend;
- `length` in UTF-16 code units;
- `n[0]` on an empty string.

Modules follow the source files. `Options`, `JsText`, `JsNumber`, `Seqs` and `Stars` are shared helpers. `Backend` holds the command values, upsert, confirmed delete and upload path. `SettingsTable` is the `settings` table as the settings panel and the hook both see it. `SettingsFlow` connects an admin save to what the public site then shows.

## Model

| member | source | states |
|---|---|---|
| GallerySection.OfCategory | src/components/GallerySection.tsx:65 | exactly the photos of the category are kept, each as many times as it occurs in the list and in their original order (a subsequence of the list); nothing of another category |
| GallerySection.Filtered | src/components/GallerySection.tsx:63-65 | `'Semua'` shows the list unchanged; any other filter shows exactly that category's photos, with their multiplicities, as a subsequence |
| GallerySection.EveryFilterShowsAPhoto | src/components/GallerySection.tsx:5-65 | each of the five filter buttons leaves at least one of the eight photos, so the lightbox never opens on an empty list |
| GallerySection.Open | src/components/GallerySection.tsx:67 | opening at a grid position selects that position, which is a valid selection |
| GallerySection.Close | src/components/GallerySection.tsx:68-80 | a closed lightbox is a valid selection for a list of any length, and the next and previous arrows leave it closed |
| GallerySection.Next | src/components/GallerySection.tsx:76-80 | the selection stays within the list; the last photo wraps to the first, any other advances by one; a closed lightbox stays closed |
| GallerySection.Previous | src/components/GallerySection.tsx:70-74 | the selection stays within the list; the first photo wraps to the last, any other goes back by one; a closed lightbox stays closed |
| GallerySection.NextPreviousInverse | src/components/GallerySection.tsx:70-80 | next then previous, and previous then next, give back the original selection |
| GallerySection.StepsForward | src/components/GallerySection.tsx:76-80 | any number of next steps keeps the selection valid |
| GallerySection.StepsForwardWrap | src/components/GallerySection.tsx:78 | k next steps from position i land on (i + k) mod n |
| GallerySection.FullCircle | src/components/GallerySection.tsx:76-80 | n next steps come back to the starting selection |
| GallerySection.StepsForwardNone | src/components/GallerySection.tsx:77 | stepping a closed lightbox leaves it closed |
| GallerySection.Counter | src/components/GallerySection.tsx:161 | the counter shows a 1-based position between 1 and the number of photos |
| JsText.TrimStart | src/components/admin/AdminRooms.tsx:95 | removes exactly the leading whitespace, leaving a suffix of the input |
| JsText.TrimEnd | src/components/admin/AdminRooms.tsx:95 | removes exactly the trailing whitespace, leaving a prefix of the input |
| JsText.Trim | src/components/admin/AdminRooms.tsx:95 | the result is the middle of the input, taken unchanged from where the leading whitespace ends, with only whitespace before and after it and none at either of its own ends |
| JsText.TrimmedIsFixedPoint | src/components/admin/AdminRooms.tsx:95 | a string with no surrounding whitespace is its own trim |
| JsText.TrimIdempotent | src/components/admin/AdminRooms.tsx:95 | trimming twice is trimming once |
| JsText.TrimSkipsLeadingWhitespace | src/components/admin/AdminRooms.tsx:95 | a leading whitespace character never survives a trim |
| JsText.Split | src/components/admin/AdminRooms.tsx:95 | at least one piece, no piece holds the separator, and joining the pieces gives back the input |
| JsText.SplitCons | src/components/admin/AdminRooms.tsx:95 | a leading non-separator character becomes part of the first piece |
| JsText.SplitAppend | src/components/admin/AdminRooms.tsx:95 | splitting around one separator splits the two sides independently |
| JsText.SplitWithoutSeparator | src/components/admin/AdminRooms.tsx:95 | a string without the separator is a single piece |
| JsText.SplitJoin | src/components/admin/AdminRooms.tsx:95 | splitting undoes joining when no piece holds the separator |
| JsText.Join | src/components/admin/AdminRooms.tsx:136 | no pieces join to `''` and a single piece joins to itself |
| JsText.LastPiece | src/components/admin/AdminRooms.tsx:63 | the result is the separator-free suffix after the last separator, or the whole string when there is none |
| JsText.LastPieceIsSuffix | src/components/admin/AdminRooms.tsx:63 | the last piece of a split is a suffix, preceded by the separator unless it is the whole string |
| JsText.LastPieceAfterSeparator | src/components/admin/AdminRooms.tsx:63-64 | whatever follows the final separator, if separator-free, is the last piece |
| JsText.OrNull | src/components/admin/AdminRooms.tsx:90 | an empty string is written as null, and reading null back as `''` gives the text again |
| JsText.OrFallback | src/components/admin/AdminBlogs.tsx:138 | the result is the fallback exactly when the value is null, empty or the fallback itself; otherwise it is the value |
| JsText.NullRoundTrip | src/components/admin/AdminRooms.tsx:131-135 | showing a stored nullable text in a form and writing it back gives the same value, except that a stored empty string becomes null |
| JsNumber.LeadingDigits | src/components/admin/AdminRooms.tsx:93 | the longest prefix of digits of the radix |
| JsNumber.ParseInt | src/components/admin/AdminRooms.tsx:93 | after leading whitespace, text that starts with neither a digit nor a sign is NaN; text that starts with a decimal digit (no `0x`) reads as the value of its leading digits whatever follows; only a leading `-` gives a negative result |
| JsNumber.NatToDecimal | src/components/admin/AdminRooms.tsx:134 | decimal digits whose value is the number, with no leading zero |
| JsNumber.IntToDecimal | src/components/admin/AdminRooms.tsx:134 | a sign or digit first, and never a dot or comma |
| JsNumber.LeadingDigitsOfDigits | src/components/admin/AdminRooms.tsx:93 | a run of digits is read whole |
| JsNumber.ParseIntOfDecimal | src/components/admin/AdminTestimonials.tsx:91 | `parseInt` reads back every integer that `toString` writes |
| JsNumber.JsRem | src/components/GallerySection.tsx:78 | the remainder takes the sign of the dividend, is smaller than the divisor, and agrees with the mathematical remainder for non-negative operands |
| Seqs.CountPrefixFlags | src/components/admin/AdminTestimonials.tsx:167-171 | a row of n flags whose first k are set holds k set flags, clamped to 0..n |
| Seqs.CountSingleFlag | src/components/TestimonialSection.tsx:174-179 | a row with only position k set holds one set flag when k is in range, none otherwise |
| Seqs.SubsequenceOfItself | src/components/GallerySection.tsx:64 | the unfiltered list is a subsequence of itself |
| Seqs.SubsequenceOfTail | src/components/GallerySection.tsx:65 | skipping a photo keeps the subsequence relation |
| Seqs.SubsequenceDropHead | src/components/GallerySection.tsx:65 | dropping the first kept photo keeps the subsequence relation |
| Stars.FiveStars | src/components/admin/AdminTestimonials.tsx:166-173 | always five stars; star i is filled exactly when i < rating; the number filled is the rating clamped to 0..5 |
| Backend.Upsert | src/components/admin/AdminRooms.tsx:98-121 | an update by the edited record's id when editing, an insert otherwise, carrying the same row |
| Backend.ConfirmedDelete | src/components/admin/AdminRooms.tsx:141-147 | a delete with the given filter exactly when confirmed, otherwise no write |
| Backend.Extension | src/components/admin/AdminRooms.tsx:63 | the dot-free suffix after the last dot, or the whole name |
| Backend.UploadPath | src/components/admin/AdminRooms.tsx:63-64 | the path starts with the folder, and its extension is the uploaded file's extension |
| Backend.Upload | src/components/admin/AdminRooms.tsx:58-83 | a path exactly when a file was chosen; the field takes the public URL on success and keeps its value otherwise |
| AdminRooms.TrimAndDropEmpty | src/components/admin/AdminRooms.tsx:95 | no more entries than pieces, each non-empty and with no whitespace at either end |
| AdminRooms.TrimAndDropEmptyContents | src/components/admin/AdminRooms.tsx:95 | the trim of every piece that is not blank is kept, and every entry is the trim of some piece |
| AdminRooms.TrimAndDropEmptyGivesLabels | src/components/admin/AdminRooms.tsx:95 | trimming comma-free pieces and dropping empty ones leaves only non-empty, trimmed, comma-free labels |
| AdminRooms.ParseAmenities | src/components/admin/AdminRooms.tsx:95 | every parsed amenity is non-empty and equal to its own trim; an empty field gives no amenities |
| AdminRooms.ParseOfEmpty | src/components/admin/AdminRooms.tsx:95 | an empty amenities field parses to the empty list |
| AdminRooms.TrimAndDropEmptyAppend | src/components/admin/AdminRooms.tsx:95 | the clean-up of the pieces distributes over concatenation |
| AdminRooms.ParseIgnoresLeadingSpace | src/components/admin/AdminRooms.tsx:95 | a space before the text does not change the parsed amenities |
| AdminRooms.AmenitiesRoundTrip | src/components/admin/AdminRooms.tsx:136 | a list of labels shown joined with `', '` in the edit form parses back to the same list |
| AdminRooms.ParseAmenitiesIdempotent | src/components/admin/AdminRooms.tsx:95 | parsing, joining and parsing again gives the first parse |
| AdminRooms.GuestsOf | src/components/admin/AdminRooms.tsx:93 | the parsed guest count, or 2 when it does not parse or parses to zero; never zero |
| AdminRooms.RowOf | src/components/admin/AdminRooms.tsx:88-96 | empty optional text is written as null and reads back as the form text; the guest count is never zero; every amenity is a clean label |
| AdminRooms.ShownGuests | src/components/admin/AdminRooms.tsx:134 | a missing or zero guest count shows as 2, any other count as itself, and the shown count is never zero |
| AdminRooms.EditForm | src/components/admin/AdminRooms.tsx:127-139 | null text shows as `''`; the guest count shown reads back as the same count on submit; a list of labels shown in the form parses back to the same list |
| AdminRooms.Edit | src/components/admin/AdminRooms.tsx:127-139 | the dialog opens on the room's edit form and remembers the room |
| AdminRooms.SubmitAfterResetInsertsBlankRoom | src/components/admin/AdminRooms.tsx:157-168 | after a reset, a submit inserts a room with empty name and price, null description, size and image, 2 guests and no amenities |
| AdminRooms.Submit | src/components/admin/AdminRooms.tsx:98-124 | update by the edited room's id or insert, then the initial form with the dialog closed whatever the outcome; refetch only after a successful write |
| AdminRooms.DeleteRoom | src/components/admin/AdminRooms.tsx:141-147 | a delete by id only after confirmation |
| AdminRooms.UploadImage | src/components/admin/AdminRooms.tsx:58-83 | the file goes under `rooms/`; on success the form the handler captured comes back with the image field set to the public URL, so only the image field changes when nothing was typed meanwhile; on failure nothing changes |
| AdminRooms.TypingDuringUploadIsLost | src/components/admin/AdminRooms.tsx:80 | a name typed while an upload is in flight is replaced by the captured one when the upload succeeds |
| AdminRooms.EditThenSubmit | src/components/admin/AdminRooms.tsx:127-137 | opening a room and saving it unchanged writes it back by id; only a null or zero guest count becomes 2 and missing amenities become empty |
| AdminBlogs.RowOf | src/components/admin/AdminBlogs.tsx:90-99 | a publication stamp is written exactly when the post is published, and it is the save time; the author is never empty (`'Admin'` for an empty one); empty text is written as null |
| AdminBlogs.EditForm | src/components/admin/AdminBlogs.tsx:130-142 | the title passes through; the author is never empty and is the stored one unless that is null or empty; a null flag shows as unpublished; each optional text writes back as stored, a stored empty string as null |
| AdminBlogs.Edit | src/components/admin/AdminBlogs.tsx:130-141 | the dialog opens on the post's edit form and remembers the post |
| AdminBlogs.SubmitAfterResetInsertsDraft | src/components/admin/AdminBlogs.tsx:177-188 | after a reset, a submit inserts an unpublished, unstamped post with an empty title, null texts and author `'Admin'` |
| AdminBlogs.Submit | src/components/admin/AdminBlogs.tsx:101-127 | update by the edited post's id or insert, then reset and close whatever the outcome |
| AdminBlogs.DeleteBlog | src/components/admin/AdminBlogs.tsx:144-150 | a delete by id only after confirmation |
| AdminBlogs.TogglePublish | src/components/admin/AdminBlogs.tsx:160-167 | an update by id that negates the flag (null read as false) and writes a stamp exactly when the post becomes published |
| AdminBlogs.ToggleTwice | src/components/admin/AdminBlogs.tsx:163-165 | two toggles restore the null-normalised flag; the stamp is null again for an unpublished post; nothing else changes |
| AdminBlogs.EditThenSubmit | src/components/admin/AdminBlogs.tsx:130-140 | opening a post and saving it unchanged writes it back by id, with a null author as `'Admin'`, and a published post re-stamped with the save time |
| AdminBlogs.UploadImage | src/components/admin/AdminBlogs.tsx:60-85 | the file goes under `blogs/`; on success the captured form comes back with the featured-image field set to the public URL (only that field changes when nothing was typed meanwhile); on failure nothing changes |
| AdminTestimonials.RowOf | src/components/admin/AdminTestimonials.tsx:87-94 | name and comment pass through; empty optional text is written as null; the text of any integer is written as that integer, and an empty rating as null |
| AdminTestimonials.PickedRatingIsWritten | src/components/admin/AdminTestimonials.tsx:226-227 | each choice of the picker is between 1 and 5 and is written as itself |
| AdminTestimonials.ChosenRatingInRange | src/components/admin/AdminTestimonials.tsx:91 | a form holding a picker choice writes a rating between 1 and 5 |
| AdminTestimonials.EditRating | src/components/admin/AdminTestimonials.tsx:131 | a missing or zero rating is edited as 5; any other rating is kept |
| AdminTestimonials.EditForm | src/components/admin/AdminTestimonials.tsx:125-136 | name and comment pass through; null text shows as `''`; the rating shows as text |
| AdminTestimonials.FormRatingStaysAChoice | src/components/admin/AdminTestimonials.tsx:131 | the initial form and the edit of a rating in 0..5 or null hold a picker choice; a stored rating above 5 is written back unchanged |
| AdminTestimonials.Edit | src/components/admin/AdminTestimonials.tsx:125-135 | the dialog opens on the testimonial's edit form and remembers the testimonial |
| AdminTestimonials.SubmitAfterResetInsertsBlankTestimonial | src/components/admin/AdminTestimonials.tsx:154-164 | after a reset, a submit inserts a testimonial rated 5 with an empty name and comment and null location, avatar and date |
| AdminTestimonials.Submit | src/components/admin/AdminTestimonials.tsx:96-123 | update by the edited testimonial's id or insert, then reset and close whatever the outcome |
| AdminTestimonials.NewTestimonialRatedFive | src/components/admin/AdminTestimonials.tsx:34 | a new testimonial whose rating was not touched is inserted with rating 5 |
| AdminTestimonials.DeleteTestimonial | src/components/admin/AdminTestimonials.tsx:138-144 | a delete by id only after confirmation |
| AdminTestimonials.EditThenSubmit | src/components/admin/AdminTestimonials.tsx:125-134 | opening a testimonial and saving it unchanged writes it back by id; only a missing or zero rating becomes 5 |
| AdminTestimonials.RenderStars | src/components/admin/AdminTestimonials.tsx:166-173 | five stars; star i is filled exactly when there is a rating and i is below it |
| AdminTestimonials.UploadAvatar | src/components/admin/AdminTestimonials.tsx:57-82 | the file goes under `avatars/`; on success the captured form comes back with the avatar field set to the public URL (only that field changes when nothing was typed meanwhile); on failure nothing changes |
| AdminGallery.RowOf | src/components/admin/AdminGallery.tsx:87-91 | image and category pass through; an empty alt text is written as null |
| AdminGallery.Submit | src/components/admin/AdminGallery.tsx:77-101 | refused exactly when no image is set; otherwise the row is inserted, and the form resets to category `'Semua'` and the dialog closes only when the insert succeeds |
| AdminGallery.EveryAddedPhotoHasAnImage | src/components/admin/AdminGallery.tsx:80-91 | every row the panel inserts has an image |
| AdminGallery.RetryAfterFailureWritesSameRow | src/components/admin/AdminGallery.tsx:93-100 | after a failed insert the form is kept, so resubmitting inserts the same row |
| AdminGallery.CategoryStaysInPicker | src/components/admin/AdminGallery.tsx:18-29 | a form whose category comes from the picker writes a picker category, and a successful add leaves a picker category in the form |
| AdminGallery.DeletePhoto | src/components/admin/AdminGallery.tsx:103-109 | a delete by id only after confirmation |
| AdminGallery.UploadImage | src/components/admin/AdminGallery.tsx:50-75 | the file goes under `gallery/` with the file's extension; on success the captured form comes back with the image field set to the public URL (only that field changes when nothing was typed meanwhile); on failure nothing changes |
| AdminGallery.UploadEnablesSubmit | src/components/admin/AdminGallery.tsx:72-83 | after a successful upload with a non-empty URL, the submit is not refused |
| SettingsTable.LastIndex | src/components/admin/AdminSettings.tsx:41 | the position of the last row with the key, -1 exactly when no row has it |
| SettingsTable.LastValue | src/hooks/useSettings.ts:32-35 | present exactly when some row has the key, and then the value of the last such row |
| SettingsTable.LastValueSnoc | src/hooks/useSettings.ts:32-35 | an appended row overrides the earlier rows of its key and leaves other keys alone |
| SettingsTable.LastValueCons | src/components/admin/AdminSettings.tsx:41-56 | a row at the front counts only when no later row has its key |
| SettingsTable.UpdateWhere | src/components/admin/AdminSettings.tsx:65-69 | every row with the key takes the value; other rows, and the order, are untouched |
| SettingsTable.LastValueAfterUpdate | src/components/admin/AdminSettings.tsx:65-69 | after an update the key reads the new value if some row held it and stays absent otherwise; other keys read as before |
| SettingsTable.UpdatesCommute | src/components/admin/AdminSettings.tsx:77-82 | updates of two different keys give the same table in either order |
| SettingsTable.Run | src/components/admin/AdminSettings.tsx:65-71 | a settings write changes only the targeted key, and only where a row exists |
| AdminSettings.LoadRow | src/components/admin/AdminSettings.tsx:42-55 | a known key sets its field to the value or `''`, leaving the other fields; an unknown key changes nothing |
| AdminSettings.LoadRows | src/components/admin/AdminSettings.tsx:41-56 | each field ends with the value of the last row of its key, and keeps its earlier value when no row has the key |
| AdminSettings.Fetch | src/components/admin/AdminSettings.tsx:30-63 | a failed or null read leaves the fields; otherwise they are loaded from the rows |
| AdminSettings.SaveCommands | src/components/admin/AdminSettings.tsx:77-82 | exactly four updates, one per known key, each filtered by `key` and carrying that field's current text |
| AdminSettings.RunAllOtherKeys | src/components/admin/AdminSettings.tsx:77-82 | writes to other keys leave a key's value and presence unchanged |
| AdminSettings.RunAllTargetedKey | src/components/admin/AdminSettings.tsx:77-82 | if the writes to a key all carry one value, the key reads it afterwards, provided a row held it |
| AdminSettings.SaveLandsWhereRowsExist | src/components/admin/AdminSettings.tsx:74-82 | after a save, a key with a row reads the saved field; a key with no row stays absent |
| AdminSettings.RunStep | src/components/admin/AdminSettings.tsx:65-69 | one write seen from one key: the targeted key reads the new value where a row exists; others read as before |
| AdminSettings.SaveThenFetch | src/components/admin/AdminSettings.tsx:74-82 | when every key has a row, saving then reloading the panel gives back the saved fields |
| AdminSettings.SaveIntoEmptyTableIsLost | src/components/admin/AdminSettings.tsx:65-69 | into an empty table a save stores nothing, and reloading shows empty fields |
| AdminSettings.UploadBanner | src/components/admin/AdminSettings.tsx:92-120 | the file goes under `banners/hero-banner-` with the file's extension; on success only the banner field changes, to the public URL |
| UseSettings.DefaultsAreTheSettingKeys | src/hooks/useSettings.ts:11-16 | the defaults have exactly the four setting keys |
| UseSettings.DefaultFor | src/hooks/useSettings.ts:34 | a setting key gives its default; any other admitted name gives the inherited member |
| UseSettings.Resolve | src/hooks/useSettings.ts:34 | a non-empty value is shown as itself; a null or empty value falls back to the default |
| UseSettings.Assign | src/hooks/useSettings.ts:34 | an assignment creates or overwrites an own property, except through `__proto__` |
| UseSettings.Collect | src/hooks/useSettings.ts:31-36 | a key becomes a property exactly when an admitted row has it, and it then holds the resolved value of its last row |
| UseSettings.MergedKeysAreTheSettings | src/hooks/useSettings.ts:33 | with the own-property test the merged settings have exactly the four setting keys |
| UseSettings.MergedReadsLastRow | src/hooks/useSettings.ts:31-38 | each setting shows its last row's resolved value, or its default when no row has it |
| UseSettings.MergedOfNoRows | src/hooks/useSettings.ts:31-38 | no rows give exactly the defaults |
| UseSettings.PrototypeNameLeaks | src/hooks/useSettings.ts:33 | a row named `toString` or `constructor` becomes an extra property of the merged settings as written |
| UseSettings.AsWrittenAgreesOnOrdinaryKeys | src/hooks/useSettings.ts:33 | without rows named after inherited properties, the hook as written and the corrected one agree |
| UseSettings.CollectAgrees | src/hooks/useSettings.ts:32-36 | two membership tests that agree on the rows' keys build the same object |
| UseSettings.MergeAsWritten | src/hooks/useSettings.ts:31-38 | every setting key is present and holds what the corrected hook gives it; any further property is named after an inherited one |
| UseSettings.Load | src/hooks/useSettings.ts:19-40 | the hook as written: every setting key is present and shows what the intended hook shows; an extra property can only be an inherited name; a failed or null read gives the defaults |
| UseSettings.LoadIntended | src/hooks/useSettings.ts:19-40 | with the own-property test the result has exactly the four keys, and a failed or null read gives the defaults |
| SettingsFlow.SiteShowsSavedSettings | src/hooks/useSettings.ts:31-38 | after an admin save, the hook as written shows a key with a row as the saved text, or its default when the text is empty; a key without a row shows its default |
| SettingsFlow.ClearedBannerShowsNone | src/hooks/useSettings.ts:13 | clearing the banner field in the panel takes the site back to no banner |
| AdminUsers.Utf16Length | src/components/admin/AdminUsers.tsx:56 | between the number of characters and twice that; equal to it when all characters are in the Basic Multilingual Plane |
| AdminUsers.Validate | src/components/admin/AdminUsers.tsx:51-59 | accepted exactly when both fields are non-empty and the password has at least 6 code units; emptiness is reported before length |
| AdminUsers.FailureText | src/components/admin/AdminUsers.tsx:68-81 | a non-empty invocation error message, or a non-empty error text in the reply, is shown as it is; otherwise an invocation error shows "Gagal membuat admin baru" and a reply without error text "Gagal membuat admin"; never empty |
| AdminUsers.AddAdmin | src/components/admin/AdminUsers.tsx:48-85 | the backend is called exactly when validation passes; success clears and closes the dialog and refetches; a refusal or failure keeps the form |
| AdminUsers.RefusalKeepsForm | src/components/admin/AdminUsers.tsx:51-59 | a refused form is kept for correction and nothing is sent |
| AdminUsers.DeleteRole | src/components/admin/AdminUsers.tsx:87-94 | a delete filtered by `user_id` only after confirmation |
| AdminUsers.DeleteWhereUser | src/components/admin/AdminUsers.tsx:91-94 | every role row of the user goes; every other row stays, as many times as before and in order |
| AdminUsers.DeleteRemovesEveryRoleOfTheUser | src/components/admin/AdminUsers.tsx:87-94 | after a confirmed delete the user holds no role, and everyone else keeps theirs |
| TestimonialSection.StarRating | src/components/TestimonialSection.tsx:73-85 | five stars; star i is filled exactly when i < rating; a rating in 0..5 fills that many |
| TestimonialSection.FirstChar | src/components/TestimonialSection.tsx:147 | the first character of a non-empty piece, nothing for an empty one |
| TestimonialSection.InitialsOf | src/components/TestimonialSection.tsx:147 | at most one initial per piece |
| TestimonialSection.Initials | src/components/TestimonialSection.tsx:147 | every initial is a character of the name |
| TestimonialSection.InitialsOfWords | src/components/TestimonialSection.tsx:147 | non-empty words give one initial each, their first characters in order |
| TestimonialSection.InitialsOfPiecesInJoin | src/components/TestimonialSection.tsx:147 | each initial occurs in one of the pieces |
| TestimonialSection.InitialsInName | src/components/TestimonialSection.tsx:147 | each initial of the split name occurs in the name |
| TestimonialSection.PieceInJoin | src/components/TestimonialSection.tsx:147 | each piece's characters occur in the joined text |
| TestimonialSection.InitialsOfName | src/components/TestimonialSection.tsx:147 | a name of single-space-separated words shows the first letter of each word, as many as there are words |
| TestimonialSection.DoubleSpaceAddsNothing | src/components/TestimonialSection.tsx:147 | the empty piece between two spaces adds no initial |
| TestimonialSection.Dots | src/components/TestimonialSection.tsx:174-179 | one dot per slide; a dot is active exactly when it is the current slide |
| TestimonialSection.ExactlyOneActiveDot | src/components/TestimonialSection.tsx:174-179 | with the selected slide in range, the 1-based position `selectedScrollSnap() + 1` makes exactly one dot active, the selected one |
| TestimonialSection.EveryCardHasFiveStars | src/components/TestimonialSection.tsx:25-71 | each card of the section shows five filled stars |
| AdminPage.GuardOf | src/pages/Admin.tsx:18-27 | nothing while loading; no user goes to `/admin/login`; a non-administrator gets the error toast and goes to `/` |
| AdminPage.ViewOf | src/pages/Admin.tsx:35-45 | the spinner exactly while loading; the panels exactly for a signed-in administrator; nothing otherwise |
| AdminPage.ViewAgreesWithGuard | src/pages/Admin.tsx:18-45 | the panels show exactly when the guard lets the user stay after loading, and the page is blank exactly when the guard redirects |
| AdminPage.PanelOf | src/pages/Admin.tsx:69-107 | exactly the five tab values open a panel, and the default tab opens the rooms panel |
| AdminPage.EachPanelHasOneTab | src/pages/Admin.tsx:69-107 | every panel has one tab, and no two tabs open the same panel |
| AdminPage.SignOut | src/pages/Admin.tsx:29-33 | the toast and the move to `/admin/login` happen exactly when signing out completes |
| AdminPage.SignOutMatchesGuard | src/pages/Admin.tsx:18-33 | once signed out, the guard sends the session to the same login page the sign-out moved to, with no toast, and the page renders nothing |

## Left out

- Backend calls are not executed. This covers table selects, inserts, updates and deletes, storage uploads, public URLs and the `create-admin-user` function. Writes are command values, and results are parameters.
- The list fetches of each panel (`fetchRooms` and the rest) and the fetch-only hooks are left out. They only store what the backend returns.
- AdminUsers.DeleteWhereUser: the backend's `delete().eq('user_id', u)` is assumed to remove every row of that user and nothing else. The backend itself is not part of this model.
- JsText.Join: the contract states only the empty and single-piece cases; the general case is pinned down by `JsText.SplitJoin`, which splits a join back into its pieces.
- JsNumber.ParseInt: the contract pins down NaN and the decimal case; the `0x` and signed readings are stated only by `JsNumber.ParseIntOfDecimal` for the texts `toString` writes.
- SettingsTable.Run: the backend's `update().eq()` is assumed to write every row whose column matches and nothing else. The backend itself is not part of this model.
- Concurrency is left out. The four settings updates run through `Promise.all`. Here they land in order; `SettingsTable.UpdatesCommute` shows that the order does not matter. A save that fails part-way is not modelled.
- AdminRooms.RowOf: the price stays the form's text. `parseFloat`, `toString` and the currency formatting are floating point or locale code.
- The clock is a parameter. `Date.now()` is a natural number and `toISOString()` an opaque string.
- Toasts, spinners, `uploading`/`saving` flags, JSX and styling are left out. So are scroll animations and the carousel library, whose selected slide and slide count are parameters.
- `confirm()` is a boolean parameter.
- JsNumber.ParseInt: digits beyond 2^53, where a JavaScript number loses precision, are read exactly here. `IntToDecimal` does not switch to exponent notation at 10^21.
- TestimonialSection.FirstChar: takes a whole character. JavaScript's `n[0]` takes one UTF-16 code unit, which is half of a character outside the Basic Multilingual Plane.
- AdminTestimonials.FormRatingStaysAChoice: the form rating is a picker choice only for a stored rating that is null or in 0..5. The edit form shows any stored rating as it is, so a rating above 5 or below 0 is carried into the form and written back unchanged.
- AdminTestimonials.RowOf: a rating text that does not parse is written as null. `parseInt` gives NaN, which is stored as null.
- AdminPage.SignOut: the move to the login page happens only when `signOut()` completes. If it rejects, the handler stops before the toast and the navigation.
- GallerySection.Next: requires a valid selection, because the component only ever opens the lightbox at a grid position. The same holds for `GallerySection.Previous`.
- The administrator panel's user list, its join of roles and profiles, and the date formatting are left out.
- The administrator panel is not among the admin page's tabs. It is modelled on its own.
- The authentication hook is not part of this model. Its session is a parameter of `AdminPage`.
- Static pages and components are left out: footer, banner, hero, facilities, booking widget, the fixed room and blog lists, navbar, blog detail and the WhatsApp link.

## Findings

| source | as written | input that shows it | evidently intended | confidence | as-written member | corrected member |
|---|---|---|---|---|---|---|
| src/hooks/useSettings.ts:33 | `item.key in defaultSettings` also holds for names every object inherits (`toString`, `constructor`, ...), so such a row becomes an extra property of the merged settings | a settings row with key `toString` and value `x` | only the four setting keys are taken from the rows, and the merged settings have exactly those keys | not executed | UseSettings.PrototypeNameLeaks | UseSettings.MergedKeysAreTheSettings |
