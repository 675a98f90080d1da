/** The settings rules of SettingsUtil.hpp: where the settings file lives,
    which file is loaded, the defaults, the bounded read of the file, how the
    parsed JSON object updates the settings, and the exact text
    `BuildPrettySettingsJson` writes.  Environment, file system and JSON
    library calls are parameters: `appData` is the `APPDATA` variable,
    `pathExists` answers `fs::exists` without error, `open` yields a file's bytes
    (`None` when `CreateFileW` fails), `parse` is the UTF-8 decoding and
    `JsonObject::Parse` together, and `stringify` is
    `JsonValue::CreateStringValue(..).Stringify()`. */
module SettingsUtil {
  import opened Bytes
  import opened Results
  import opened Seqs

  const CONFIG_NAME: string := "AudioPlaybackConnector.json"
  const APPDATA_DIR_NAME: string := "AudioPlaybackConnector"
  const BUFFER_SIZE: nat := 4096
  const MAX_CONFIG_SIZE: nat := 1024 * 1024

  // ---------------------------------------------------------------------
  // Paths.

  /** A file system path, as its components. */
  type Path = seq<string>

  /** `remove_filename()`: the directory part. */
  function RemoveFilename(p: Path): Path
  {
    if p == [] then [] else p[..|p| - 1]
  }

  /** `GetLegacySettingsPath`: the file next to the executable. */
  function LegacySettingsPath(modulePath: Path): Path
  {
    RemoveFilename(modulePath) + [CONFIG_NAME]
  }

  /** `APPDATA` is usable: set and not the empty string. */
  predicate AppDataUsable(appData: Option<string>)
  {
    appData.Some? && appData.value != ""
  }

  /** `GetSettingsPath`: under `APPDATA` when it is usable, otherwise next
      to the executable.  Either way the file is `CONFIG_NAME`. */
  function GetSettingsPath(appData: Option<string>, modulePath: Path): (r: Path)
    ensures |r| >= 1 && r[|r| - 1] == CONFIG_NAME
    ensures AppDataUsable(appData) ==> r == [appData.value, APPDATA_DIR_NAME, CONFIG_NAME]
    ensures !AppDataUsable(appData) ==> r == LegacySettingsPath(modulePath)
  {
    if appData.Some? && appData.value != [] then [appData.value] + [APPDATA_DIR_NAME] + [CONFIG_NAME]
    else LegacySettingsPath(modulePath)
  }

  /** An empty `APPDATA` counts as unset, and a usable one makes the
      executable's location irrelevant. */
  lemma AppDataRule(appData: Option<string>, modulePath: Path, otherModulePath: Path)
    ensures GetSettingsPath(Some(""), modulePath) == GetSettingsPath(None, modulePath)
    ensures AppDataUsable(appData) ==>
      GetSettingsPath(appData, modulePath) == GetSettingsPath(appData, otherModulePath)
    ensures !AppDataUsable(appData) ==>
      GetSettingsPath(appData, modulePath) == LegacySettingsPath(modulePath)
  {
  }

  /** `ResolveSettingsLoadPath`: the preferred path if it exists, else the
      legacy path if it exists, else the preferred path. */
  function ResolveSettingsLoadPath(appData: Option<string>, modulePath: Path, pathExists: Path -> bool): (r: Path)
    ensures r == GetSettingsPath(appData, modulePath) || r == LegacySettingsPath(modulePath)
    ensures pathExists(GetSettingsPath(appData, modulePath)) ==> r == GetSettingsPath(appData, modulePath)
    ensures pathExists(GetSettingsPath(appData, modulePath)) || pathExists(LegacySettingsPath(modulePath)) ==> pathExists(r)
    ensures !pathExists(GetSettingsPath(appData, modulePath)) && !pathExists(LegacySettingsPath(modulePath)) ==>
      r == GetSettingsPath(appData, modulePath)
  {
    var preferred := GetSettingsPath(appData, modulePath);
    if pathExists(preferred) then preferred
    else
      var legacy := LegacySettingsPath(modulePath);
      if pathExists(legacy) then legacy else preferred
  }

  // ---------------------------------------------------------------------
  // The settings.

  /** The three settings, as a value. */
  datatype SettingsValue = SettingsValue(reconnect: bool, showNotification: bool, lastDevices: seq<string>)

  /** What `DefaultSettings` sets. */
  const DEFAULTS: SettingsValue := SettingsValue(false, true, [])

  /** A JSON value as far as the loader looks at it. */
  datatype Json = JBool(b: bool) | JString(s: string) | JArray(items: seq<Json>) | JOther

  type JsonObject = map<string, Json>

  /** The strings of a JSON array, in order; other items are skipped. */
  function StringItems(items: seq<Json>): (r: seq<string>)
    ensures |r| <= |items|
  {
    if items == [] then []
    else
      var init := StringItems(items[..|items| - 1]);
      if items[|items| - 1].JString? then init + [items[|items| - 1].s] else init
  }

  /** Exactly the string items are kept, and an all-string array is kept
      whole and in order. */
  lemma {:induction false} StringItemsSpec(items: seq<Json>)
    ensures forall s :: s in StringItems(items) <==> JString(s) in items
    ensures (forall i :: 0 <= i < |items| ==> items[i].JString?) ==> |StringItems(items)| == |items|
    ensures (forall i :: 0 <= i < |items| ==> items[i].JString?) ==>
      forall i :: 0 <= i < |items| ==> StringItems(items)[i] == items[i].s
  {
    if items != [] {
      var init := items[..|items| - 1];
      StringItemsSpec(init);
      assert items == init + [items[|items| - 1]];
    }
  }

  /** The strings of a concatenation are the strings of each part, in
      order: every string item is kept once, where it stands, and a single
      item contributes its string or nothing. */
  lemma {:induction false} StringItemsAppend(a: seq<Json>, b: seq<Json>)
    ensures StringItems(a + b) == StringItems(a) + StringItems(b)
    ensures |b| == 1 ==> StringItems(b) == if b[0].JString? then [b[0].s] else []
    decreases |b|
  {
    if b == [] {
      assert a + b == a;
    } else {
      var init := b[..|b| - 1];
      StringItemsAppend(a, init);
      assert (a + b)[..|a + b| - 1] == a + init;
      if |b| == 1 {
        assert init == [];
      }
    }
  }

  /** The three field names of the settings object. */
  const RECONNECT: string := "reconnect"
  const SHOW_NOTIFICATION: string := "showNotification"
  const LAST_DEVICES: string := "lastDevices"

  /** The settings after the parsed object has been applied to the
      defaults.  Each lookup that throws ends the update there, and what
      was assigned before it stays: `reconnect` must be a boolean;
      `showNotification` is optional but must be a boolean when present;
      `lastDevices` must be an array, of which the strings are taken. */
  function ApplyJson(obj: JsonObject): (r: SettingsValue)
    ensures !(RECONNECT in obj && obj[RECONNECT].JBool?) ==> r == DEFAULTS
    ensures RECONNECT in obj && obj[RECONNECT].JBool? ==> r.reconnect == obj[RECONNECT].b
    ensures SHOW_NOTIFICATION in obj && obj[SHOW_NOTIFICATION].JBool? && RECONNECT in obj && obj[RECONNECT].JBool? ==>
      r.showNotification == obj[SHOW_NOTIFICATION].b
    ensures !(SHOW_NOTIFICATION in obj && obj[SHOW_NOTIFICATION].JBool?) ==> r.showNotification
    ensures SHOW_NOTIFICATION in obj && !obj[SHOW_NOTIFICATION].JBool? ==> r.lastDevices == []
    ensures r.lastDevices != [] ==> (LAST_DEVICES in obj && obj[LAST_DEVICES].JArray?
      && r.lastDevices == StringItems(obj[LAST_DEVICES].items))
  {
    if !(RECONNECT in obj && obj[RECONNECT].JBool?) then DEFAULTS
    else
      var s1 := DEFAULTS.(reconnect := obj[RECONNECT].b);
      if SHOW_NOTIFICATION in obj && !obj[SHOW_NOTIFICATION].JBool? then s1
      else
        var s2 := if SHOW_NOTIFICATION in obj then s1.(showNotification := obj[SHOW_NOTIFICATION].b) else s1;
        if !(LAST_DEVICES in obj && obj[LAST_DEVICES].JArray?) then s2
        else s2.(lastDevices := StringItems(obj[LAST_DEVICES].items))
  }

  /** A well-formed object sets every setting from its fields. */
  lemma WellFormedObject(obj: JsonObject)
    requires RECONNECT in obj && obj[RECONNECT].JBool?
    requires SHOW_NOTIFICATION !in obj || obj[SHOW_NOTIFICATION].JBool?
    requires LAST_DEVICES in obj && obj[LAST_DEVICES].JArray?
    ensures ApplyJson(obj) == SettingsValue(
      obj[RECONNECT].b,
      if SHOW_NOTIFICATION in obj then obj[SHOW_NOTIFICATION].b else true,
      StringItems(obj[LAST_DEVICES].items))
  {
  }

  // ---------------------------------------------------------------------
  // Reading the file.

  datatype ReadOutcome = Content(bytes: seq<Byte>) | TooLarge

  /** What the read loop yields for a file: its bytes when it is smaller
      than `MAX_CONFIG_SIZE`, and `E_BOUNDS` otherwise. */
  function ConfigRead(file: seq<Byte>): (r: ReadOutcome)
    ensures r.Content? <==> |file| < MAX_CONFIG_SIZE
    ensures r.Content? ==> r.bytes == file
  {
    if |file| >= MAX_CONFIG_SIZE then TooLarge else Content(file)
  }

  /** The read loop of `LoadSettings`.  Each `ReadFile` asks for
      `min(BUFFER_SIZE, MAX_CONFIG_SIZE - size)` bytes and gets as many as
      the file has left, up to that; a read of zero bytes ends the loop, and
      a buffer that has reached `MAX_CONFIG_SIZE` throws `E_BOUNDS`. */
  method ReadConfig(file: seq<Byte>) returns (outcome: ReadOutcome)
    ensures outcome == ConfigRead(file)
  {
    var data: seq<Byte> := [];
    while true
      invariant |data| <= MAX_CONFIG_SIZE && |data| <= |file|
      invariant data == file[..|data|]
      decreases MAX_CONFIG_SIZE - |data|
    {
      var size := |data|;
      if size >= MAX_CONFIG_SIZE {
        return TooLarge;
      }
      var bytesToRead := if BUFFER_SIZE < MAX_CONFIG_SIZE - size then BUFFER_SIZE else MAX_CONFIG_SIZE - size;
      var read := if bytesToRead < |file| - size then bytesToRead else |file| - size;
      data := data + file[size..size + read];
      if read == 0 {
        assert data == file;
        return Content(data);
      }
    }
  }

  /** The settings `LoadSettings` leaves: the defaults, updated from the
      file that `ResolveSettingsLoadPath` picks when it opens, is small
      enough and parses. */
  function LoadedSettings(appData: Option<string>, modulePath: Path, pathExists: Path -> bool,
                          open: Path -> Option<seq<Byte>>, parse: seq<Byte> -> Option<JsonObject>): SettingsValue
  {
    match open(ResolveSettingsLoadPath(appData, modulePath, pathExists))
    case None => DEFAULTS
    case Some(file) =>
      match ConfigRead(file)
      case TooLarge => DEFAULTS
      case Content(bytes) =>
        match parse(bytes)
        case None => DEFAULTS
        case Some(obj) => ApplyJson(obj)
  }

  /** A file that cannot be opened, is 1 MiB or larger, or does not parse
      leaves the defaults. */
  lemma LoadFailureGivesDefaults(appData: Option<string>, modulePath: Path, pathExists: Path -> bool,
                                 open: Path -> Option<seq<Byte>>, parse: seq<Byte> -> Option<JsonObject>)
    ensures var file := open(ResolveSettingsLoadPath(appData, modulePath, pathExists));
      file.None? || |file.value| >= MAX_CONFIG_SIZE || parse(file.value).None? ==>
      LoadedSettings(appData, modulePath, pathExists, open, parse) == DEFAULTS
  {
  }

  // ---------------------------------------------------------------------
  // The text of the settings file.

  const OPEN_BRACE: string := "{\n"
  const RECONNECT_KEY: string := "  \"reconnect\": "
  const FIELD_END: string := ",\n"
  const SHOW_NOTIFICATION_KEY: string := "  \"showNotification\": "
  const LAST_DEVICES_KEY: string := "  \"lastDevices\": ["
  const DEVICE_INDENT: string := "    "
  const BRACKET_INDENT: string := "  "
  const CLOSE_BRACKET: string := "]\n"
  const CLOSE_BRACE: string := "}\n"

  function BoolText(b: bool): string
  {
    if b then "true" else "false"
  }

  /** Everything up to the opening bracket of the device list. */
  function PrettyHead(reconnect: bool, showNotification: bool): string
  {
    OPEN_BRACE + RECONNECT_KEY + BoolText(reconnect) + FIELD_END
      + SHOW_NOTIFICATION_KEY + BoolText(showNotification) + FIELD_END
      + LAST_DEVICES_KEY
  }

  /** The line the loop writes for device `i`. */
  function DeviceLine(ids: seq<string>, stringify: string -> string, i: nat): string
    requires i < |ids|
  {
    DEVICE_INDENT + stringify(ids[i]) + (if i + 1 < |ids| then "," else "") + "\n"
  }

  /** The lines of the first `k` devices. */
  function DeviceLines(ids: seq<string>, stringify: string -> string, k: nat): string
    requires k <= |ids|
  {
    if k == 0 then "" else DeviceLines(ids, stringify, k - 1) + DeviceLine(ids, stringify, k - 1)
  }

  /** The text `BuildPrettySettingsJson` returns. */
  function PrettyJson(reconnect: bool, showNotification: bool, ids: seq<string>, stringify: string -> string): string
  {
    PrettyHead(reconnect, showNotification) + PrettyTail(ids, stringify)
  }

  /** The device items indented by four spaces and joined by ",\n": the
      device list written the way a reader describes it. */
  function Joined(ids: seq<string>, stringify: string -> string): string
    requires ids != []
  {
    if |ids| == 1 then DEVICE_INDENT + stringify(ids[0])
    else Joined(ids[..|ids| - 1], stringify) + FIELD_END + DEVICE_INDENT + stringify(ids[|ids| - 1])
  }

  /** The loop's lines are the joined items, followed by the separator or,
      after the last item, the newline. */
  lemma {:induction false} DeviceLinesJoined(ids: seq<string>, stringify: string -> string, k: nat)
    requires 1 <= k <= |ids|
    ensures DeviceLines(ids, stringify, k) == Joined(ids[..k], stringify) + (if k < |ids| then ",\n" else "\n")
  {
    if k == 1 {
      assert DeviceLines(ids, stringify, 0) == "";
    } else {
      DeviceLinesJoined(ids, stringify, k - 1);
      assert ids[..k][..k - 1] == ids[..k - 1];
    }
  }

  /** The text after the head: the device list and the closing brace. */
  function PrettyTail(ids: seq<string>, stringify: string -> string): string
  {
    (if ids == [] then "" else "\n") + DeviceLines(ids, stringify, |ids|)
      + (if ids == [] then "" else BRACKET_INDENT) + CLOSE_BRACKET + CLOSE_BRACE
  }

  /** The settings file opens the object on a line of its own, and then
      holds both flags as the literals `true`/`false` and the opening of the
      device list. */
  lemma PrettyJsonFrame(reconnect: bool, showNotification: bool, ids: seq<string>, stringify: string -> string)
    ensures PrettyHead(reconnect, showNotification) <= PrettyJson(reconnect, showNotification, ids, stringify)
    ensures var json := PrettyJson(reconnect, showNotification, ids, stringify);
      |json| >= 6 && json[0] == '{' && json[1] == '\n'
  {
    var head := PrettyHead(reconnect, showNotification);
    var json := head + PrettyTail(ids, stringify);
    assert head[0] == '{' && head[1] == '\n';
    assert json[..|head|] == head;
  }

  /** The settings file ends with the closing bracket and brace, each on a
      line of its own. */
  lemma PrettyJsonEnd(reconnect: bool, showNotification: bool, ids: seq<string>, stringify: string -> string)
    ensures var json := PrettyJson(reconnect, showNotification, ids, stringify);
      && |json| >= 4
      && json[|json| - 4] == ']' && json[|json| - 3] == '\n'
      && json[|json| - 2] == '}' && json[|json| - 1] == '\n'
  {
    var tail := PrettyTail(ids, stringify);
    var n := |tail|;
    assert tail[n - 4] == ']' && tail[n - 3] == '\n' && tail[n - 2] == '}' && tail[n - 1] == '\n';
  }

  /** No devices gives `"lastDevices": []`.  Otherwise each device is on
      its own line, indented four spaces, with a comma after every device
      but the last, and the bracket is indented two spaces on a line of its
      own. */
  lemma PrettyJsonDevices(ids: seq<string>, stringify: string -> string)
    ensures ids == [] ==> PrettyTail(ids, stringify) == "]\n}\n"
    ensures ids != [] ==> PrettyTail(ids, stringify) == "\n" + Joined(ids, stringify) + "\n  ]\n}\n"
  {
    if ids != [] {
      DeviceLinesJoined(ids, stringify, |ids|);
      assert ids[..|ids|] == ids;
      var j := Joined(ids, stringify);
      assert PrettyTail(ids, stringify) == "\n" + (j + "\n") + BRACKET_INDENT + CLOSE_BRACKET + CLOSE_BRACE;
    }
  }

  // ---------------------------------------------------------------------
  // The globals.

  /** `g_reconnect`, `g_showNotification` and `g_lastDevices`. */
  class Settings {
    var reconnect: bool
    var showNotification: bool
    var lastDevices: seq<string>

    function Value(): SettingsValue
      reads this
    {
      SettingsValue(reconnect, showNotification, lastDevices)
    }

    constructor (initial: SettingsValue)
      ensures Value() == initial
    {
      reconnect := initial.reconnect;
      showNotification := initial.showNotification;
      lastDevices := initial.lastDevices;
    }

    /** `DefaultSettings`. */
    method DefaultSettings()
      modifies this
      ensures Value() == DEFAULTS
    {
      reconnect := false;
      showNotification := true;
      lastDevices := [];
    }

    /** `BuildPrettySettingsJson(lastDeviceIds)`, with the flags taken from
        the globals. */
    method BuildPrettySettingsJson(lastDeviceIds: seq<string>, stringify: string -> string) returns (json: string)
      ensures json == PrettyJson(reconnect, showNotification, lastDeviceIds, stringify)
    {
      json := OPEN_BRACE;
      json := json + RECONNECT_KEY;
      json := json + BoolText(reconnect);
      json := json + FIELD_END;
      json := json + SHOW_NOTIFICATION_KEY;
      json := json + BoolText(showNotification);
      json := json + FIELD_END;
      json := json + LAST_DEVICES_KEY;
      assert json == PrettyHead(reconnect, showNotification);
      json := AppendTail(json, lastDeviceIds, stringify);
    }

    /** The device list and the closing brace. */
    static method AppendTail(written: string, ids: seq<string>, stringify: string -> string) returns (json: string)
      ensures json == written + PrettyTail(ids, stringify)
    {
      json := written;
      if ids != [] {
        json := json + "\n";
      }
      json := AppendDeviceLines(json, ids, stringify);
      if ids != [] {
        json := json + BRACKET_INDENT;
      }
      json := json + CLOSE_BRACKET;
      json := json + CLOSE_BRACE;
    }

    /** The loop of `BuildPrettySettingsJson` over the device ids. */
    static method AppendDeviceLines(written: string, ids: seq<string>, stringify: string -> string) returns (json: string)
      ensures json == written + DeviceLines(ids, stringify, |ids|)
    {
      json := written;
      for i := 0 to |ids|
        invariant json == written + DeviceLines(ids, stringify, i)
      {
        ghost var before := json;
        json := json + DEVICE_INDENT;
        json := json + stringify(ids[i]);
        if i + 1 < |ids| {
          json := json + ",";
        }
        json := json + "\n";
        assert json == before + DeviceLine(ids, stringify, i);
      }
    }

    /** `LoadSettings`: defaults first, then the file, with every failure
        caught and the settings left as far as they got. */
    method LoadSettings(appData: Option<string>, modulePath: Path, pathExists: Path -> bool,
                        open: Path -> Option<seq<Byte>>, parse: seq<Byte> -> Option<JsonObject>)
      modifies this
      ensures Value() == LoadedSettings(appData, modulePath, pathExists, open, parse)
    {
      DefaultSettings();
      var settingsPath := ResolveSettingsLoadPath(appData, modulePath, pathExists);
      var file := open(settingsPath);
      if file.None? {
        return;
      }
      var outcome := ReadConfig(file.value);
      if outcome.TooLarge? {
        return;
      }
      var parsed := parse(outcome.bytes);
      if parsed.None? {
        return;
      }
      ApplyObject(parsed.value);
    }

    /** The lookups on the parsed object, starting from the defaults; a
        lookup that throws leaves what was assigned before it. */
    method ApplyObject(obj: JsonObject)
      requires Value() == DEFAULTS
      modifies this
      ensures Value() == ApplyJson(obj)
    {
      if !(RECONNECT in obj && obj[RECONNECT].JBool?) {
        return;
      }
      reconnect := obj[RECONNECT].b;
      if SHOW_NOTIFICATION in obj {
        if !obj[SHOW_NOTIFICATION].JBool? {
          return;
        }
        showNotification := obj[SHOW_NOTIFICATION].b;
      }
      if !(LAST_DEVICES in obj && obj[LAST_DEVICES].JArray?) {
        return;
      }
      var items := obj[LAST_DEVICES].items;
      for i := 0 to |items|
        invariant lastDevices == StringItems(items[..i])
        invariant reconnect == obj[RECONNECT].b
        invariant showNotification == (SHOW_NOTIFICATION !in obj || obj[SHOW_NOTIFICATION].b)
      {
        assert items[..i + 1][..i] == items[..i];
        if items[i].JString? {
          lastDevices := lastDevices + [items[i].s];
        }
      }
      assert items[..|items|] == items;
    }
  }
}
