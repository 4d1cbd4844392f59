/** The `settings` table: key/value rows, read by the settings admin panel and
    by the public site, and written by `update({ value }).eq('key', key)`.
    Nothing in the schema makes a key unique, so a table may hold several
    rows for one key, or none. */
module SettingsTable {
  import opened Options
  import opened Backend

  datatype SettingRow = SettingRow(key: string, value: Option<string>)

  /** The patch `{ value }` of an update. */
  datatype ValuePatch = ValuePatch(value: string)

  const WhatsappNumber := "whatsapp_number"
  const HeroTitle := "hero_title"
  const HeroSubtitle := "hero_subtitle"
  const HeroBannerUrl := "hero_banner_url"

  /** The four keys the site knows, in the order the admin panel saves them. */
  const Keys: seq<string> := [WhatsappNumber, HeroTitle, HeroSubtitle, HeroBannerUrl]

  predicate IsSettingKey(key: string) {
    key in Keys
  }

  predicate HasKey(rows: seq<SettingRow>, key: string) {
    exists i :: 0 <= i < |rows| && rows[i].key == key
  }

  /** The position of the last row with `key`, or -1 when no row has it. */
  function LastIndex(rows: seq<SettingRow>, key: string): (i: int)
    ensures -1 <= i < |rows|
    ensures i == -1 <==> !HasKey(rows, key)
    ensures i >= 0 ==> rows[i].key == key
    ensures forall j :: i < j < |rows| ==> rows[j].key != key
  {
    if rows == [] then -1
    else if rows[|rows| - 1].key == key then |rows| - 1
    else
      var i := LastIndex(rows[..|rows| - 1], key);
      assert forall j :: 0 <= j < |rows| - 1 ==> rows[j] == rows[..|rows| - 1][j];
      i
  }

  /** What a `forEach` over the rows leaves behind for `key` when each row
      overwrites the one before: the value of the LAST row with that key, or
      `None` when no row has it. */
  function LastValue(rows: seq<SettingRow>, key: string): (r: Option<Option<string>>)
    ensures r.Some? <==> HasKey(rows, key)
    ensures r.Some? ==> rows[LastIndex(rows, key)] == SettingRow(key, r.value)
  {
    var i := LastIndex(rows, key);
    if i < 0 then None else Some(rows[i].value)
  }

  /** A row appended at the end overrides the earlier rows of its key. */
  lemma LastValueSnoc(init: seq<SettingRow>, row: SettingRow, key: string)
    ensures LastValue(init + [row], key) == if row.key == key then Some(row.value) else LastValue(init, key)
  {
    assert (init + [row])[..|init|] == init;
  }

  /** Seen from the front: a later row with the key hides the first row. */
  lemma {:induction false} LastValueCons(row: SettingRow, rest: seq<SettingRow>, key: string)
    ensures LastValue([row] + rest, key)
            == if LastValue(rest, key).Some? then LastValue(rest, key)
               else if row.key == key then Some(row.value) else None
  {
    if rest != [] {
      var all := [row] + rest;
      assert all[..|all| - 1] == [row] + rest[..|rest| - 1];
      assert all[|all| - 1] == rest[|rest| - 1];
      LastValueCons(row, rest[..|rest| - 1], key);
    }
  }

  /** `update({ value }).eq('key', key)`: every row with the key takes the
      value; every other row, and the order of the rows, is untouched. */
  function UpdateWhere(rows: seq<SettingRow>, key: string, value: string): (r: seq<SettingRow>)
    ensures |r| == |rows|
    ensures forall i :: 0 <= i < |rows| ==> r[i].key == rows[i].key
    ensures forall i :: 0 <= i < |rows| && rows[i].key == key ==> r[i].value == Some(value)
    ensures forall i :: 0 <= i < |rows| && rows[i].key != key ==> r[i] == rows[i]
  {
    seq(|rows|, i requires 0 <= i < |rows| => if rows[i].key == key then rows[i].(value := Some(value)) else rows[i])
  }

  /** After the update, the key reads back as the new value when some row
      holds it, and stays absent otherwise; every other key reads as before. */
  lemma {:induction false} LastValueAfterUpdate(rows: seq<SettingRow>, key: string, value: string, other: string)
    ensures LastValue(UpdateWhere(rows, key, value), key) == if HasKey(rows, key) then Some(Some(value)) else None
    ensures other != key ==> LastValue(UpdateWhere(rows, key, value), other) == LastValue(rows, other)
  {
    if rows != [] {
      var init := rows[..|rows| - 1];
      var updated := UpdateWhere(rows, key, value);
      assert updated[..|updated| - 1] == UpdateWhere(init, key, value);
      LastValueAfterUpdate(init, key, value, other);
    }
  }

  /** Updates of two different keys touch disjoint rows, so the order in
      which they land does not matter. */
  lemma UpdatesCommute(rows: seq<SettingRow>, k1: string, v1: string, k2: string, v2: string)
    requires k1 != k2
    ensures UpdateWhere(UpdateWhere(rows, k1, v1), k2, v2) == UpdateWhere(UpdateWhere(rows, k2, v2), k1, v1)
  {
  }

  /** A settings write, as the admin panel issues it. */
  function Run(rows: seq<SettingRow>, c: Command<ValuePatch>): (r: seq<SettingRow>)
    requires c.Update? && c.filter.column == "key"
    ensures |r| == |rows|
    ensures forall other :: other != c.filter.value ==> LastValue(r, other) == LastValue(rows, other)
    ensures LastValue(r, c.filter.value) == if HasKey(rows, c.filter.value) then Some(Some(c.patch.value)) else None
  {
    var r := UpdateWhere(rows, c.filter.value, c.patch.value);
    forall other | other != c.filter.value
      ensures LastValue(r, other) == LastValue(rows, other)
    {
      LastValueAfterUpdate(rows, c.filter.value, c.patch.value, other);
    }
    LastValueAfterUpdate(rows, c.filter.value, c.patch.value, c.filter.value);
    r
  }
}
