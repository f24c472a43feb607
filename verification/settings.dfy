/**
  The extension's stored configuration object, shared by the background
  script (which owns it in `chrome.storage`) and the content script (which
  keeps a copy). It is a JavaScript object, so it is modelled as a map from
  key to value; `Object.assign(config, patch)` is then a map union in which the
  patch wins.
 */
module Settings {
  import opened Common

  datatype Stats = Stats(textFiltered: int, imagesFiltered: int)

  /** One history entry; `recovered` starts false. */
  datatype Entry = Entry(timestamp: string, content: string, replacement: string, recovered: bool)

  /** The per-domain history, with one list per kind. */
  datatype Bucket = Bucket(text: seq<Entry>, images: seq<Entry>)

  /** The JSON values the configuration holds. `VObject` is any other object. */
  datatype Value =
    | VNull
    | VBool(b: bool)
    | VNum(n: int)
    | VStr(s: string)
    | VStats(stats: Stats)
    | VHistory(history: map<string, Bucket>)
    | VObject

  type Config = map<string, Value>

  /** JavaScript truthiness of a value. */
  predicate ValueTruthy(v: Value) {
    match v
    case VNull => false
    case VBool(b) => b
    case VNum(n) => n != 0
    case VStr(s) => s != ""
    case _ => true
  }

  /** `config[key]` is truthy; a missing key reads as `undefined`. */
  predicate Truthy(c: Config, key: string) {
    key in c && ValueTruthy(c[key])
  }

  /** `Object.assign(config, patch)`: the patch's keys overwrite, every other key is kept. */
  function Merge(c: Config, patch: Config): (r: Config)
    ensures r.Keys == c.Keys + patch.Keys
    ensures forall k :: k in patch ==> r[k] == patch[k]
    ensures forall k :: k in c && k !in patch ==> r[k] == c[k]
  {
    c + patch
  }

  /** Merging the same patch twice is merging it once; merging nothing changes nothing. */
  lemma MergeIdempotent(c: Config, patch: Config)
    ensures Merge(Merge(c, patch), patch) == Merge(c, patch)
    ensures Merge(c, map[]) == c
  {
  }

  /** The background script's `DEFAULT_CONFIG`. */
  const DefaultConfig: Config := map[
    "apiUrl" := VStr(""),
    "isConfigured" := VBool(false),
    "enabled" := VBool(true),
    "filterText" := VBool(true),
    "filterImages" := VBool(true),
    "stats" := VStats(Stats(0, 0)),
    "history" := VHistory(map[])
  ]

  /** The content script's configuration before storage has been read. */
  const ContentDefault: Config := map[
    "enabled" := VBool(true),
    "filterText" := VBool(true),
    "filterImages" := VBool(true),
    "apiUrl" := VStr("")
  ]
}
