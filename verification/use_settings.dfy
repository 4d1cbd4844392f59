/** The `useSettings` hook of the public site: the settings rows are merged
    over built-in defaults, the last row of a key winning and an empty value
    falling back to the default.

    The settings object is modelled as its own properties, a map from
    property name to value. The membership test of the hook, `key in
    defaultSettings`, also holds for the names the object inherits from
    `Object.prototype`; `MergeAsWritten` keeps that behaviour, and `Merged`
    admits only the four setting keys. */
module UseSettings {
  import opened Options
  import opened Backend
  import opened SettingsTable

  /** A property value: text, `null`, or one of the functions (or, for
      `__proto__`, the object) that every object inherits. */
  datatype Value = Text(text: string) | Null | Inherited(name: string)

  /** The own properties of an object. */
  type Object = map<string, Value>

  /** `defaultSettings` */
  const Defaults: Object := map[
    WhatsappNumber := Text("6282221016393"),
    HeroBannerUrl := Null,
    HeroTitle := Text("Selamat Datang di Andelir Hotel"),
    HeroSubtitle := Text("Pengalaman menginap mewah di jantung kota Bandung dengan pelayanan terbaik.")]

  /** The accessor through which assignment changes an object's prototype
      instead of creating an own property. */
  const ProtoKey := "__proto__"

  /** The properties every plain object inherits from `Object.prototype`. */
  const PrototypeNames: set<string> := {
    "constructor", "hasOwnProperty", "isPrototypeOf", "propertyIsEnumerable",
    "toLocaleString", "toString", "valueOf", ProtoKey,
    "__defineGetter__", "__defineSetter__", "__lookupGetter__", "__lookupSetter__"}

  lemma DefaultsAreTheSettingKeys()
    ensures forall k :: k in Defaults <==> IsSettingKey(k)
  {
  }

  /** `key in defaultSettings` as the hook evaluates it: own and inherited
      properties alike. */
  predicate InAsWritten(key: string) {
    key in Defaults || key in PrototypeNames
  }

  /** The corrected test: own properties only, i.e. the four setting keys. */
  predicate IsOwnSetting(key: string) {
    key in Defaults
  }

  /** `defaultSettings[key]` for an admitted key. */
  function DefaultFor(key: string): (v: Value)
    ensures key in Defaults ==> v == Defaults[key]
    ensures key !in Defaults ==> v.Inherited?
  {
    if key in Defaults then Defaults[key] else Inherited(key)
  }

  /** `item.value || defaultSettings[key]` */
  function Resolve(key: string, value: Option<string>): (v: Value)
    ensures value.Some? && value.value != "" ==> v == Text(value.value)
    ensures value == None || value == Some("") ==> v == DefaultFor(key)
  {
    if value.Some? && value.value != "" then Text(value.value) else DefaultFor(key)
  }

  /** `settingsMap[key] = v`: an own property is created or overwritten,
      except through `__proto__`, which creates none. */
  function Assign(obj: Object, key: string, v: Value): (r: Object)
    ensures key == ProtoKey ==> r == obj
    ensures key != ProtoKey ==> r == obj[key := v]
  {
    if key == ProtoKey then obj else obj[key := v]
  }

  /** Whether `k` ends up set by the rows: some row has it, the test admits
      it, and it is not the prototype accessor. */
  predicate Sets(rows: seq<SettingRow>, admits: string -> bool, k: string) {
    admits(k) && k != ProtoKey && LastValue(rows, k).Some?
  }

  /** One iteration of the `forEach` that builds `settingsMap`. */
  function Step(obj: Object, row: SettingRow, admits: string -> bool): Object {
    if admits(row.key) then Assign(obj, row.key, Resolve(row.key, row.value)) else obj
  }

  /** The `forEach` that builds `settingsMap`, with the membership test as a
      parameter; the rows are taken in order, so the last row is the last
      step. A key ends up as an own property exactly when it was one already
      or an admitted row has it, and then holds the resolved value of the
      last such row. */
  function Collect(obj: Object, rows: seq<SettingRow>, admits: string -> bool): (r: Object)
    ensures forall k :: k in r <==> k in obj || Sets(rows, admits, k)
    ensures forall k :: Sets(rows, admits, k) ==> r[k] == Resolve(k, LastValue(rows, k).value)
    ensures forall k :: k in obj && !Sets(rows, admits, k) ==> r[k] == obj[k]
    decreases |rows|
  {
    if rows == [] then obj
    else
      var init := rows[..|rows| - 1];
      var last := rows[|rows| - 1];
      assert rows == init + [last];
      assert forall k :: LastValue(rows, k) == if last.key == k then Some(last.value) else LastValue(init, k) by {
        forall k {
          LastValueSnoc(init, last, k);
        }
      }
      Step(Collect(obj, init, admits), last, admits)
  }

  /** `{ ...defaultSettings, ...settingsMap }` */
  function Merge(rows: seq<SettingRow>, admits: string -> bool): Object {
    Defaults + Collect(map[], rows, admits)
  }

  /** The hook as written, admitting inherited names: it has every setting
      key, holding what the corrected hook holds, and any extra property is
      named after an inherited one. */
  function MergeAsWritten(rows: seq<SettingRow>): (r: Object)
    ensures Defaults.Keys <= r.Keys
    ensures forall k :: k in r ==> k in Defaults || k in PrototypeNames
    ensures forall k :: k in Defaults ==> r[k] == Merged(rows)[k]
  {
    var c := Collect(map[], rows, InAsWritten);
    var d := Collect(map[], rows, IsOwnSetting);
    assert forall k :: k in Defaults ==> Sets(rows, InAsWritten, k) == Sets(rows, IsOwnSetting, k);
    assert forall k :: k in Defaults ==> (Defaults + c)[k] == (Defaults + d)[k] by {
      forall k | k in Defaults
        ensures (Defaults + c)[k] == (Defaults + d)[k]
      {
        assert k in c <==> k in d;
      }
    }
    Merge(rows, InAsWritten)
  }

  /** The hook with the membership test it evidently intends. */
  function Merged(rows: seq<SettingRow>): Object {
    Merge(rows, IsOwnSetting)
  }

  /** The merged settings have exactly the four setting keys. */
  lemma MergedKeysAreTheSettings(rows: seq<SettingRow>)
    ensures Merged(rows).Keys == Defaults.Keys
  {
    var c := Collect(map[], rows, IsOwnSetting);
    assert forall k :: k in c ==> k in Defaults;
  }

  /** Each setting shows the value of its last row, or its default when no
      row has it or the last row's value is empty or null. */
  lemma MergedReadsLastRow(rows: seq<SettingRow>, k: string)
    requires IsSettingKey(k)
    ensures k in Merged(rows)
    ensures Merged(rows)[k] == match LastValue(rows, k)
                                case None => Defaults[k]
                                case Some(v) => Resolve(k, v)
  {
    DefaultsAreTheSettingKeys();
  }

  /** With no rows the site shows the defaults. */
  lemma MergedOfNoRows()
    ensures Merged([]) == Defaults
  {
    assert Collect(map[], [], IsOwnSetting) == map[];
    assert Defaults + map[] == Defaults;
  }

  /** A row named after an inherited property becomes an extra own property
      of the merged settings as written. */
  lemma PrototypeNameLeaks()
    ensures "toString" in MergeAsWritten([SettingRow("toString", Some("x"))])
    ensures MergeAsWritten([SettingRow("toString", Some("x"))])["toString"] == Text("x")
    ensures "constructor" in MergeAsWritten([SettingRow("constructor", None)])
    ensures MergeAsWritten([SettingRow("constructor", None)]).Keys != Defaults.Keys
  {
    var rows := [SettingRow("toString", Some("x"))];
    assert HasKey(rows, "toString") by { assert rows[0].key == "toString"; }
    assert InAsWritten("toString");
    var rows2 := [SettingRow("constructor", None)];
    assert HasKey(rows2, "constructor") by { assert rows2[0].key == "constructor"; }
    assert InAsWritten("constructor");
    assert "constructor" !in Defaults;
  }

  /** As long as no row is named after an inherited property, the hook as
      written and the corrected one agree. */
  lemma AsWrittenAgreesOnOrdinaryKeys(rows: seq<SettingRow>)
    requires forall i :: 0 <= i < |rows| ==> rows[i].key !in PrototypeNames
    ensures MergeAsWritten(rows) == Merged(rows)
  {
    CollectAgrees(map[], rows, InAsWritten, IsOwnSetting);
  }

  /** Two membership tests that agree on every key of the rows collect the
      same object. */
  lemma {:induction false} CollectAgrees(obj: Object, rows: seq<SettingRow>, a: string -> bool, b: string -> bool)
    requires forall i :: 0 <= i < |rows| ==> a(rows[i].key) == b(rows[i].key)
    ensures Collect(obj, rows, a) == Collect(obj, rows, b)
    decreases |rows|
  {
    if rows != [] {
      CollectAgrees(obj, rows[..|rows| - 1], a, b);
    }
  }

  /** The effect of the hook as written: the defaults until the read
      returns, and when it fails; the merged rows otherwise, a `null` result
      counting as no rows. On the four setting keys it shows what the
      corrected hook shows; any further property is an inherited name. */
  function Load(result: Fetched<Option<seq<SettingRow>>>): (s: Object)
    ensures Defaults.Keys <= s.Keys
    ensures forall k :: k in s ==> k in Defaults || k in PrototypeNames
    ensures forall k :: k in Defaults ==> s[k] == LoadIntended(result)[k]
    ensures result.FetchFailed? || result == Fetched(None) ==> s == Defaults
  {
    match result
    case FetchFailed => Defaults
    case Fetched(data) =>
      assert data.None? ==> MergeAsWritten(data.GetOr([])) == Defaults by {
        if data.None? {
          assert Collect(map[], [], InAsWritten) == map[];
          assert Defaults + map[] == Defaults;
        }
      }
      MergeAsWritten(data.GetOr([]))
  }

  /** The hook with the corrected membership test: exactly the four setting
      keys, the defaults when the read fails or returns `null`. */
  function LoadIntended(result: Fetched<Option<seq<SettingRow>>>): (s: Object)
    ensures s.Keys == Defaults.Keys
    ensures result.FetchFailed? || result == Fetched(None) ==> s == Defaults
  {
    match result
    case FetchFailed => Defaults
    case Fetched(data) =>
      MergedKeysAreTheSettings(data.GetOr([]));
      MergedOfNoRows();
      Merged(data.GetOr([]))
  }
}
