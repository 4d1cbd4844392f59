/** The settings admin panel: four text fields loaded from the `settings`
    table, saved back as four key-filtered updates, and a banner upload. */
module AdminSettings {
  import opened Options
  import opened JsText
  import opened JsNumber
  import opened Backend
  import opened SettingsTable

  /** The four text fields of the panel. */
  datatype Fields = Fields(whatsappNumber: string, heroTitle: string, heroSubtitle: string, heroBannerUrl: string)

  /** Every field starts empty. */
  const EmptyFields := Fields("", "", "", "")

  /** The field that shows the setting `key`. */
  function Get(f: Fields, key: string): string
    requires IsSettingKey(key)
  {
    if key == WhatsappNumber then f.whatsappNumber
    else if key == HeroTitle then f.heroTitle
    else if key == HeroSubtitle then f.heroSubtitle
    else f.heroBannerUrl
  }

  /** One step of the `switch` over a fetched row: a known key sets its field
      to `value || ''`; any other key is ignored. */
  function LoadRow(f: Fields, row: SettingRow): (g: Fields)
    ensures !IsSettingKey(row.key) ==> g == f
    ensures IsSettingKey(row.key) ==> Get(g, row.key) == OrEmpty(row.value)
    ensures forall k :: IsSettingKey(k) && k != row.key ==> Get(g, k) == Get(f, k)
  {
    var v := OrEmpty(row.value);
    match row.key
    case "whatsapp_number" => f.(whatsappNumber := v)
    case "hero_title" => f.(heroTitle := v)
    case "hero_subtitle" => f.(heroSubtitle := v)
    case "hero_banner_url" => f.(heroBannerUrl := v)
    case _ => f
  }

  /** `data?.forEach(...)`: the rows in the order they were fetched. For
      every key the field ends with the value of the last row holding it,
      and keeps its earlier value when no row holds it. */
  function LoadRows(f: Fields, rows: seq<SettingRow>): (g: Fields)
    ensures forall k :: IsSettingKey(k) ==>
      Get(g, k) == match LastValue(rows, k) case None => Get(f, k) case Some(v) => OrEmpty(v)
    decreases |rows|
  {
    if rows == [] then f
    else
      var g := LoadRows(LoadRow(f, rows[0]), rows[1..]);
      assert rows == [rows[0]] + rows[1..];
      assert forall k :: IsSettingKey(k) ==> LastValue(rows, k) == LastValue([rows[0]] + rows[1..], k);
      forall k | IsSettingKey(k) {
        LastValueCons(rows[0], rows[1..], k);
      }
      g
  }

  /** `fetchSettings`: a failed read leaves every field as it was; otherwise
      the rows are loaded, and a `null` result counts as no rows. */
  function Fetch(f: Fields, result: Fetched<Option<seq<SettingRow>>>): (g: Fields)
    ensures result.FetchFailed? ==> g == f
    ensures result == Fetched(None) ==> g == f
    ensures result.Fetched? && result.data.Some? ==> forall k :: IsSettingKey(k) ==>
      Get(g, k) == match LastValue(result.data.value, k) case None => Get(f, k) case Some(v) => OrEmpty(v)
  {
    match result
    case FetchFailed => f
    case Fetched(data) => LoadRows(f, data.GetOr([]))
  }

  /** `handleSave`: one `update({ value }).eq('key', key)` per field, in the
      order of `Keys`. */
  function SaveCommands(f: Fields): (cs: seq<Command<ValuePatch>>)
    ensures |cs| == |Keys|
    ensures forall i :: 0 <= i < |cs| ==> cs[i].Update? && cs[i].filter == Eq("key", Keys[i])
    ensures forall i :: 0 <= i < |cs| ==> cs[i].patch == ValuePatch(Get(f, Keys[i]))
  {
    seq(|Keys|, i requires 0 <= i < |Keys| => Update(Eq("key", Keys[i]), ValuePatch(Get(f, Keys[i]))))
  }

  /** The table after the given commands have landed in order. */
  function RunAll(rows: seq<SettingRow>, cs: seq<Command<ValuePatch>>): seq<SettingRow>
    requires AreKeyUpdates(cs)
    decreases |cs|
  {
    if cs == [] then rows else RunAll(Run(rows, cs[0]), cs[1..])
  }

  predicate AreKeyUpdates(cs: seq<Command<ValuePatch>>) {
    forall i :: 0 <= i < |cs| ==> cs[i].Update? && cs[i].filter.column == "key"
  }

  /** Writes that target other keys leave `k` as it was. */
  lemma {:induction false} RunAllOtherKeys(rows: seq<SettingRow>, cs: seq<Command<ValuePatch>>, k: string)
    requires AreKeyUpdates(cs)
    requires forall i :: 0 <= i < |cs| ==> cs[i].filter.value != k
    ensures HasKey(RunAll(rows, cs), k) == HasKey(rows, k)
    ensures LastValue(RunAll(rows, cs), k) == LastValue(rows, k)
    decreases |cs|
  {
    if cs != [] {
      RunStep(rows, cs[0], k);
      RunAllOtherKeys(Run(rows, cs[0]), cs[1..], k);
    }
  }

  /** When some of the writes target `k`, and all of those write `v`, then
      `k` reads `v` afterwards, provided a row held it before. */
  lemma {:induction false} RunAllTargetedKey(rows: seq<SettingRow>, cs: seq<Command<ValuePatch>>, k: string, v: string)
    requires AreKeyUpdates(cs)
    requires exists i :: 0 <= i < |cs| && cs[i].filter.value == k
    requires forall i :: 0 <= i < |cs| && cs[i].filter.value == k ==> cs[i].patch.value == v
    ensures LastValue(RunAll(rows, cs), k) == if HasKey(rows, k) then Some(Some(v)) else None
    decreases |cs|
  {
    var r1 := Run(rows, cs[0]);
    RunStep(rows, cs[0], k);
    assert RunAll(rows, cs) == RunAll(r1, cs[1..]);
    if exists i :: 0 <= i < |cs[1..]| && cs[1..][i].filter.value == k {
      RunAllTargetedKey(r1, cs[1..], k, v);
    } else {
      assert cs[0].filter.value == k by {
        var i :| 0 <= i < |cs| && cs[i].filter.value == k;
        if i > 0 {
          assert cs[1..][i - 1].filter.value == k;
        }
      }
      RunAllOtherKeys(r1, cs[1..], k);
    }
  }

  /** After a save, a key with some row reads back as the saved field, and a
      key with no row stays absent: an update writes nothing when no row
      matches, so the saved text is lost. */
  lemma SaveLandsWhereRowsExist(rows: seq<SettingRow>, f: Fields, k: string)
    requires IsSettingKey(k)
    ensures LastValue(RunAll(rows, SaveCommands(f)), k)
            == if HasKey(rows, k) then Some(Some(Get(f, k))) else None
  {
    var cs := SaveCommands(f);
    var i :| 0 <= i < |Keys| && Keys[i] == k;
    assert cs[i].filter.value == k;
    RunAllTargetedKey(rows, cs, k, Get(f, k));
  }

  /** One write, seen from one key: the key it targets reads the new value
      when some row holds it; any other key reads as before. */
  lemma RunStep(rows: seq<SettingRow>, c: Command<ValuePatch>, k: string)
    requires c.Update? && c.filter.column == "key"
    ensures HasKey(Run(rows, c), k) == HasKey(rows, k)
    ensures LastValue(Run(rows, c), k)
            == if c.filter.value != k then LastValue(rows, k)
               else if HasKey(rows, k) then Some(Some(c.patch.value)) else None
  {
    assert LastValue(Run(rows, c), k).Some? == LastValue(rows, k).Some?;
  }

  /** Saving and then reloading the panel gives back the saved fields when
      every key has a row in the table. */
  lemma SaveThenFetch(rows: seq<SettingRow>, f: Fields, before: Fields)
    requires forall k :: IsSettingKey(k) ==> HasKey(rows, k)
    ensures Fetch(before, Fetched(Some(RunAll(rows, SaveCommands(f))))) == f
  {
    var g := Fetch(before, Fetched(Some(RunAll(rows, SaveCommands(f)))));
    forall k | IsSettingKey(k)
      ensures Get(g, k) == Get(f, k)
    {
      SaveLandsWhereRowsExist(rows, f, k);
    }
    assert Get(g, WhatsappNumber) == Get(f, WhatsappNumber);
    assert Get(g, HeroTitle) == Get(f, HeroTitle);
    assert Get(g, HeroSubtitle) == Get(f, HeroSubtitle);
    assert Get(g, HeroBannerUrl) == Get(f, HeroBannerUrl);
  }

  /** With an empty table nothing is saved: the panel reloads empty fields,
      whatever was typed. */
  lemma SaveIntoEmptyTableIsLost(f: Fields)
    ensures Fetch(EmptyFields, Fetched(Some(RunAll([], SaveCommands(f))))) == EmptyFields
  {
    var g := Fetch(EmptyFields, Fetched(Some(RunAll([], SaveCommands(f)))));
    forall k | IsSettingKey(k)
      ensures Get(g, k) == ""
    {
      SaveLandsWhereRowsExist([], f, k);
    }
    assert Get(g, WhatsappNumber) == "" && Get(g, HeroTitle) == "";
    assert Get(g, HeroSubtitle) == "" && Get(g, HeroBannerUrl) == "";
  }

  /** The folder and name prefix of an uploaded banner,
      `banners/hero-banner-<timestamp>.<ext>`. */
  const BannerPrefix := "banners/hero-banner-"

  /** `handleBannerUpload`: on success the banner field takes the public URL
      of the file stored under the banner path; nothing else changes. */
  function UploadBanner(f: Fields, file: Option<string>, stamp: nat, outcome: UploadOutcome): (r: (Option<string>, Fields))
    ensures r.1 == f.(heroBannerUrl := r.1.heroBannerUrl)
    ensures file.Some? ==> r.0.Some? && |r.0.value| > |BannerPrefix| && r.0.value[..|BannerPrefix|] == BannerPrefix
                           && Extension(r.0.value) == Extension(file.value)
    ensures file.None? ==> r == (None, f)
    ensures file.Some? && outcome.Stored? ==> r.1.heroBannerUrl == outcome.publicUrl
    ensures outcome.StoreFailed? ==> r.1 == f
  {
    var (path, url) := Upload(BannerPrefix, stamp, file, outcome, f.heroBannerUrl);
    (path, f.(heroBannerUrl := url))
  }
}
