/** The settings admin panel and the public site share the `settings` table:
    what the site shows after the administrator saves. */
module SettingsFlow {
  import opened Options
  import opened Backend
  import opened SettingsTable
  import opened AdminSettings
  import opened UseSettings

  /** After a save, when the site reads the table back, a key with a row
      shows the saved text, and its default when the saved text is empty; a
      key with no row shows its default, whatever was typed for it. */
  lemma SiteShowsSavedSettings(rows: seq<SettingRow>, f: Fields, k: string)
    requires IsSettingKey(k)
    ensures var shown := Load(Fetched(Some(RunAll(rows, SaveCommands(f)))))[k];
            && (HasKey(rows, k) && Get(f, k) != "" ==> shown == Text(Get(f, k)))
            && (HasKey(rows, k) && Get(f, k) == "" ==> shown == Defaults[k])
            && (!HasKey(rows, k) ==> shown == Defaults[k])
  {
    SaveLandsWhereRowsExist(rows, f, k);
    MergedReadsLastRow(RunAll(rows, SaveCommands(f)), k);
    DefaultsAreTheSettingKeys();
    assert k in Defaults;
  }

  /** Clearing the banner field in the panel takes the site back to no
      banner, the default. */
  lemma ClearedBannerShowsNone(rows: seq<SettingRow>, f: Fields)
    requires f.heroBannerUrl == ""
    ensures Load(Fetched(Some(RunAll(rows, SaveCommands(f)))))[HeroBannerUrl] == Null
  {
    assert Get(f, HeroBannerUrl) == "";
    assert Defaults[HeroBannerUrl] == Null;
    SiteShowsSavedSettings(rows, f, HeroBannerUrl);
  }
}
