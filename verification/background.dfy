/**
  The background script's store (browser-extension/background.js): the
  configuration saved under the `config` key of `chrome.storage.local`, with
  its statistics counters and per-domain history.

  Each handler reads the stored configuration, changes it and writes it back.
  A handler that would throw (no stored configuration, or a missing `stats` or
  `history` object) never reaches its write, so the store is left as it was.
 */
module Background {
  import opened Common
  import opened Settings

  /** The `config` key of the storage area: absent until first written. */
  type Store = Option<Config>

  /** The stored statistics, when the stored configuration has them. */
  function StatsOf(st: Store): Option<Stats> {
    if st.Some? && "stats" in st.value && st.value["stats"].VStats? then Some(st.value["stats"].stats) else None
  }

  /** The stored history, when the stored configuration has it. */
  function HistoryOf(st: Store): Option<map<string, Bucket>> {
    if st.Some? && "history" in st.value && st.value["history"].VHistory? then Some(st.value["history"].history) else None
  }

  /** `history[domain][key]`: the `text` and `images` keys name the two lists. */
  function ListOf(b: Bucket, key: string): Option<seq<Entry>> {
    if key == "text" then Some(b.text) else if key == "images" then Some(b.images) else None
  }

  /** The entry `history[domain][key][i]`, if it exists. */
  function EntryAt(st: Store, domain: string, key: string, i: int): Option<Entry> {
    var h := HistoryOf(st);
    if h.None? || domain !in h.value then None
    else
      var l := ListOf(h.value[domain], key);
      if l.None? || !(0 <= i < |l.value|) then None else Some(l.value[i])
  }

  /** On installation the defaults are written only when nothing is stored. */
  function OnInstalled(st: Store): (r: Store)
    ensures st.None? ==> r == Some(DefaultConfig)
    ensures st.Some? ==> r == st
    ensures r.Some?
  {
    if st.None? then Some(DefaultConfig) else st
  }

  /** `updateStats(type)`: one counter goes up by one, according to `type`. */
  function UpdateStats(st: Store, kind: string): (r: Store)
    ensures StatsOf(st).None? ==> r == st
    ensures kind != "text" && kind != "image" ==> r == st
    ensures StatsOf(st).Some? && kind == "text" ==>
      StatsOf(r) == Some(StatsOf(st).value.(textFiltered := StatsOf(st).value.textFiltered + 1))
    ensures StatsOf(st).Some? && kind == "image" ==>
      StatsOf(r) == Some(StatsOf(st).value.(imagesFiltered := StatsOf(st).value.imagesFiltered + 1))
    ensures r.Some? ==> st.Some? && r.value.Keys == st.value.Keys
    ensures r.Some? ==> forall k :: k in st.value && k != "stats" ==> r.value[k] == st.value[k]
  {
    match StatsOf(st)
    case None => st
    case Some(s) =>
      if kind == "text" then Some(st.value["stats" := VStats(s.(textFiltered := s.textFiltered + 1))])
      else if kind == "image" then Some(st.value["stats" := VStats(s.(imagesFiltered := s.imagesFiltered + 1))])
      else st
  }

  /** The bucket a domain has, or the empty one `addToHistory` creates for it. */
  function BucketOr(h: map<string, Bucket>, domain: string): Bucket {
    if domain in h then h[domain] else Bucket([], [])
  }

  /** `addToHistory`: the bucket of `domain` is created if new, and the entry appended to the list of its kind. */
  function AddToHistory(st: Store, domain: string, kind: string, content: string, replacement: string, timestamp: string): (r: Store)
    ensures HistoryOf(st).None? ==> r == st
    ensures HistoryOf(st).Some? <==> HistoryOf(r).Some?
    ensures HistoryOf(st).Some? ==>
      var h := HistoryOf(st).value;
      var h' := HistoryOf(r).value;
      var b := BucketOr(h, domain);
      var e := Entry(timestamp, content, replacement, false);
      && h'.Keys == h.Keys + {domain}
      && (forall d :: d in h && d != domain ==> h'[d] == h[d])
      && h'[domain].text == b.text + (if kind == "text" then [e] else [])
      && h'[domain].images == b.images + (if kind == "image" then [e] else [])
    ensures r.Some? ==> st.Some? && forall k :: k in st.value && k != "history" ==> k in r.value && r.value[k] == st.value[k]
  {
    match HistoryOf(st)
    case None => st
    case Some(h) =>
      var b := BucketOr(h, domain);
      var e := Entry(timestamp, content, replacement, false);
      var b' :=
        if kind == "text" then b.(text := b.text + [e])
        else if kind == "image" then b.(images := b.images + [e])
        else b;
      Some(st.value["history" := VHistory(h[domain := b'])])
  }

  function SetRecovered(b: Bucket, key: string, i: int): Bucket
    requires ListOf(b, key).Some? && 0 <= i < |ListOf(b, key).value|
  {
    if key == "text" then b.(text := b.text[i := b.text[i].(recovered := true)])
    else b.(images := b.images[i := b.images[i].(recovered := true)])
  }

  /**
    The history half of the `recoverContent` message: the entry
    `history[domain][key][i]` is marked recovered when it exists, and nothing
    is written otherwise.
   */
  function MarkRecovered(st: Store, domain: string, key: string, i: int): (r: Store)
    ensures EntryAt(st, domain, key, i).None? ==> r == st
    ensures EntryAt(st, domain, key, i).Some? ==>
      EntryAt(r, domain, key, i) == Some(EntryAt(st, domain, key, i).value.(recovered := true))
    ensures forall d, k, j :: (d, k, j) != (domain, key, i) ==> EntryAt(r, d, k, j) == EntryAt(st, d, k, j)
    ensures r.Some? ==> st.Some? && forall k :: k in st.value && k != "history" ==> k in r.value && r.value[k] == st.value[k]
  {
    if EntryAt(st, domain, key, i).None? then st
    else
      var h := HistoryOf(st).value;
      Some(st.value["history" := VHistory(h[domain := SetRecovered(h[domain], key, i)])])
  }

  /** The `updateConfig` message: a shallow merge into the stored configuration. */
  function UpdateConfig(st: Store, patch: Config): (r: Store)
    ensures st.None? ==> r == st
    ensures st.Some? ==> r == Some(Merge(st.value, patch))
  {
    if st.None? then st else Some(Merge(st.value, patch))
  }

  // ---------------------------------------------------------------------------
  // The recovered flag is never reset

  predicate RecoveredAt(st: Store, domain: string, key: string, i: int) {
    EntryAt(st, domain, key, i).Some? && EntryAt(st, domain, key, i).value.recovered
  }

  /** Every entry marked recovered in `a` is still there, still marked, in `b`. */
  ghost predicate RecoveredKept(a: Store, b: Store) {
    forall d, k, i :: RecoveredAt(a, d, k, i) ==> RecoveredAt(b, d, k, i)
  }

  lemma AddToHistoryKeepsRecovered(st: Store, domain: string, kind: string, content: string, replacement: string, timestamp: string)
    ensures RecoveredKept(st, AddToHistory(st, domain, kind, content, replacement, timestamp))
  {
    var r := AddToHistory(st, domain, kind, content, replacement, timestamp);
    forall d, k, i | RecoveredAt(st, d, k, i)
      ensures RecoveredAt(r, d, k, i)
    {
      var h := HistoryOf(st).value;
      var h' := HistoryOf(r).value;
      if d == domain {
        assert BucketOr(h, domain) == h[domain];
        var l := ListOf(h[d], k).value;
        var l' := ListOf(h'[d], k).value;
        assert l' == l || (|l'| == |l| + 1 && l'[..|l|] == l);
        assert l'[i] == l[i];
      }
    }
  }

  lemma MarkRecoveredKeepsRecovered(st: Store, domain: string, key: string, i: int)
    ensures RecoveredKept(st, MarkRecovered(st, domain, key, i))
  {
    var r := MarkRecovered(st, domain, key, i);
    forall d, k, j | RecoveredAt(st, d, k, j)
      ensures RecoveredAt(r, d, k, j)
    {
    }
  }

  lemma UpdateStatsKeepsRecovered(st: Store, kind: string)
    ensures RecoveredKept(st, UpdateStats(st, kind))
  {
  }

  /** A configuration update keeps the flags unless it replaces the whole history. */
  lemma UpdateConfigKeepsRecovered(st: Store, patch: Config)
    requires "history" !in patch
    ensures RecoveredKept(st, UpdateConfig(st, patch))
  {
  }
}
