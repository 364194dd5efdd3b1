/**
 * The converter's settings and `newMikrotikScript`, which fills in defaults.
 * The converter value is never changed after it is built.
 */
module MikrotikConfig {

  const TYPE_MIKROTIK_SCRIPT_OUT := "mikrotikGeoIPScript"
  const DESC_MIKROTIK_SCRIPT_OUT := "Convert data to mikrotik script format"
  const DEFAULT_ACLIST_NAME := "CN"
  const DEFAULT_OUTPUT_NAME := "mikrotik-acl.rsc"
  /** `filepath.Join("./", "output", "mikrotik")` with a `/` separator; `Join` drops the `./`. */
  const DEFAULT_OUTPUT_DIR := "output/mikrotik"

  /** The `onlyIPType` values that select one family (`lib.IPv4`, `lib.IPv6`). */
  const IPV4 := "ipv4"
  const IPV6 := "ipv6"

  /** The `mikrotikScriptOut` record. */
  datatype Converter = Converter(
    typeName: string,
    action: string,
    description: string,
    outputName: string,
    outputDir: string,
    want: seq<string>,
    overwrite: seq<string>,
    acListName: string,
    onlyIPType: string)

  /** The JSON options after decoding; an absent field is the empty value. */
  datatype RawConfig = RawConfig(
    outputName: string,
    outputDir: string,
    want: seq<string>,
    onlyIPType: string,
    acListName: string)

  /** What decoding an empty or absent JSON input leaves behind. */
  const EMPTY_RAW_CONFIG := RawConfig("", "", [], "", "")

  function OrDefault(value: string, default: string): (r: string)
    ensures value != "" ==> r == value
    ensures value == "" ==> r == default
  {
    if value == "" then default else value
  }

  /**
   * `newMikrotikScript` after a successful decode: empty output name, output
   * directory and list name take their defaults; the wanted list and the IP
   * type are copied; the overwrite list is never set.
   */
  function NewMikrotikScript(action: string, raw: RawConfig): (o: Converter)
    ensures o.typeName == TYPE_MIKROTIK_SCRIPT_OUT && o.description == DESC_MIKROTIK_SCRIPT_OUT
    ensures o.action == action
    ensures o.outputName != "" && o.outputDir != "" && o.acListName != ""
    ensures raw.outputName != "" ==> o.outputName == raw.outputName
    ensures raw.outputDir != "" ==> o.outputDir == raw.outputDir
    ensures raw.acListName != "" ==> o.acListName == raw.acListName
    ensures raw.outputName == "" ==> o.outputName == DEFAULT_OUTPUT_NAME
    ensures raw.outputDir == "" ==> o.outputDir == DEFAULT_OUTPUT_DIR
    ensures raw.acListName == "" ==> o.acListName == DEFAULT_ACLIST_NAME
    ensures o.want == raw.want && o.onlyIPType == raw.onlyIPType
    ensures o.overwrite == []
  {
    Converter(
      typeName := TYPE_MIKROTIK_SCRIPT_OUT,
      action := action,
      description := DESC_MIKROTIK_SCRIPT_OUT,
      outputName := OrDefault(raw.outputName, DEFAULT_OUTPUT_NAME),
      outputDir := OrDefault(raw.outputDir, DEFAULT_OUTPUT_DIR),
      want := raw.want,
      overwrite := [],
      acListName := OrDefault(raw.acListName, DEFAULT_ACLIST_NAME),
      onlyIPType := raw.onlyIPType)
  }

  /** No JSON input yields every default. */
  lemma EmptyInputDefaults(action: string)
    ensures NewMikrotikScript(action, EMPTY_RAW_CONFIG)
         == Converter(TYPE_MIKROTIK_SCRIPT_OUT, action, DESC_MIKROTIK_SCRIPT_OUT, DEFAULT_OUTPUT_NAME,
                      DEFAULT_OUTPUT_DIR, [], [], DEFAULT_ACLIST_NAME, "")
  {
  }

  /** Defaulting is idempotent: feeding a built converter's settings back in rebuilds it. */
  lemma DefaultingIdempotent(action: string, raw: RawConfig)
    ensures var o := NewMikrotikScript(action, raw);
            NewMikrotikScript(action, RawConfig(o.outputName, o.outputDir, o.want, o.onlyIPType, o.acListName)) == o
  {
  }
}
