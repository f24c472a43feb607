/**
  The content script's driver (browser-extension/content.js): `init`, the
  message listener, `startFiltering`, and the mutation observer's decision
  to rescan.
 */
module Content {
  import opened Common
  import opened Settings
  import opened Page
  import opened Redaction
  import opened TextScan
  import opened ImageScan

  /** The two scans `startFiltering` and the observer run, each only when its switch is on. */
  function Scans(st: Client, text: bool, images: bool, be: Backend): (r: Client)
    ensures Grows(st, r) && (Wf(st) ==> Wf(r))
    ensures !text ==> r.doc.texts == st.doc.texts
    ensures text ==> forall n :: 0 <= n < |st.doc.texts| ==>
      r.doc.texts[n] == st.doc.texts[n].(value := NodeResult(st.config, be, st.doc.texts[n]))
    ensures !images ==> r.doc.images == st.doc.images && r.doc.wrappers == st.doc.wrappers
    ensures images ==> forall j :: 0 <= j < |st.doc.images| ==>
      ImageEnds(st.config, be, j, st.doc.images[j], r.doc.images[j])
    ensures !text && !images ==> r == st
  {
    var s1 := if text then FilterTextContent(st, be) else st;
    var r := if images then FilterImageContent(s1, be) else s1;
    GrowsTrans(st, s1, r);
    r
  }

  /**
    `startFiltering`: nothing when disabled; otherwise both ledgers are
    emptied and the enabled scans run from scratch.
   */
  function StartFiltering(st: Client, be: Backend): (r: Client)
    ensures !Enabled(st.config) ==> r == st
    ensures Enabled(st.config) ==>
      && Wf(r) && r.config == st.config
      && r == Scans(st.(ledger := EmptyLedger), TextOn(st.config), ImagesOn(st.config), be)
      && (TextOn(st.config) ==> forall n :: 0 <= n < |st.doc.texts| ==>
            r.doc.texts[n].value == NodeResult(st.config, be, st.doc.texts[n]))
      && (!TextOn(st.config) ==> r.doc.texts == st.doc.texts)
      && (ImagesOn(st.config) ==> forall j :: 0 <= j < |st.doc.images| ==>
            ImageEnds(st.config, be, j, st.doc.images[j], r.doc.images[j]))
      && (!ImagesOn(st.config) ==> r.doc.images == st.doc.images)
  {
    if !Enabled(st.config) then st
    else
      var s0 := st.(ledger := EmptyLedger);
      assert Wf(s0);
      Scans(s0, TextOn(st.config), ImagesOn(st.config), be)
  }

  /** What a rescan leaves in the ledger does not depend on the ledger it started from. */
  lemma {:induction false} StartFilteringForgetsLedger(st: Client, old_: Ledger, be: Backend)
    requires Enabled(st.config)
    ensures StartFiltering(st.(ledger := old_), be) == StartFiltering(st, be)
    ensures StartFiltering(st, be).ledger.text == StartFiltering(st.(ledger := EmptyLedger), be).ledger.text
  {
    assert st.(ledger := old_).(ledger := EmptyLedger) == st.(ledger := EmptyLedger);
  }

  // ---------------------------------------------------------------------------
  // The mutation observer

  /**
    A node of a mutation's `addedNodes`: whether it is an element, how many
    `img` elements `querySelectorAll` finds below it (descendants only, so an
    added `img` counts none), and its `textContent`.
   */
  datatype Added = Added(isElement: bool, imagesBelow: nat, textContent: string)

  /** A mutation record: whether it is of type `childList`, and its added nodes. */
  datatype Mutation = Mutation(childList: bool, added: seq<Added>)

  datatype Triggers = Triggers(text: bool, images: bool)

  predicate AddsText(n: Added) { n.isElement && !Blank(n.textContent) }
  predicate AddsImages(n: Added) { n.isElement && n.imagesBelow > 0 }

  /** The flags the observer callback raises for a list of added nodes. */
  function AddedTriggers(cfg: Config, nodes: seq<Added>): (r: Triggers)
    ensures r.text <==> TextOn(cfg) && exists j :: 0 <= j < |nodes| && AddsText(nodes[j])
    ensures r.images <==> ImagesOn(cfg) && exists j :: 0 <= j < |nodes| && AddsImages(nodes[j])
    decreases |nodes|
  {
    if nodes == [] then Triggers(false, false)
    else
      var rest := AddedTriggers(cfg, nodes[1..]);
      var n := nodes[0];
      assert forall j :: 1 <= j < |nodes| ==> nodes[j] == nodes[1..][j - 1];
      assert forall j :: 0 <= j < |nodes| - 1 ==> nodes[1..][j] == nodes[j + 1];
      Triggers(
        rest.text || (TextOn(cfg) && AddsText(n)),
        rest.images || (ImagesOn(cfg) && AddsImages(n)))
  }

  /** Some `childList` mutation added a node of the kind `adds` picks. */
  predicate SomeAddsText(muts: seq<Mutation>) {
    exists i, j :: 0 <= i < |muts| && muts[i].childList && 0 <= j < |muts[i].added| && AddsText(muts[i].added[j])
  }

  predicate SomeAddsImages(muts: seq<Mutation>) {
    exists i, j :: 0 <= i < |muts| && muts[i].childList && 0 <= j < |muts[i].added| && AddsImages(muts[i].added[j])
  }

  /**
    The observer's decision: rescan text when the text filter is on and some
    added element has non-blank text; rescan images when the image filter is
    on and some added element contains an `img`.
   */
  function ObserverTriggers(cfg: Config, muts: seq<Mutation>): (r: Triggers)
    ensures r.text <==> TextOn(cfg) && SomeAddsText(muts)
    ensures r.images <==> ImagesOn(cfg) && SomeAddsImages(muts)
    decreases |muts|
  {
    if muts == [] then Triggers(false, false)
    else
      var rest := ObserverTriggers(cfg, muts[1..]);
      var here := if muts[0].childList then AddedTriggers(cfg, muts[0].added) else Triggers(false, false);
      assert forall i :: 1 <= i < |muts| ==> muts[i] == muts[1..][i - 1];
      assert forall i :: 0 <= i < |muts| - 1 ==> muts[1..][i] == muts[i + 1];
      Triggers(rest.text || here.text, rest.images || here.images)
  }

  /** An `img` inserted on its own has no `img` below it, so it never starts an image rescan. */
  lemma {:induction false} BareImageIgnored(cfg: Config, text: string)
    ensures !ObserverTriggers(cfg, [Mutation(true, [Added(true, 0, text)])]).images
  {
    var muts := [Mutation(true, [Added(true, 0, text)])];
    assert !SomeAddsImages(muts) by {
      forall i, j | 0 <= i < |muts| && muts[i].childList && 0 <= j < |muts[i].added|
        ensures !AddsImages(muts[i].added[j])
      {
        assert muts[i].added[j] == Added(true, 0, text);
      }
    }
  }

  /**
    The observer callback. The page's own change is given as nodes appended
    to the document. A triggered text rescan leaves every node, old or new,
    with its resulting value; a triggered image rescan leaves every image as
    `ImageEnds` says; a kind not triggered is untouched. The rescans do not
    empty the ledger, so every record made before is kept.
   */
  function ObserverCallback(st: Client, newTexts: seq<TextNode>, newImages: seq<Image>, muts: seq<Mutation>, be: Backend): (r: Client)
    ensures var grown := st.(doc := st.doc.(texts := st.doc.texts + newTexts, images := st.doc.images + newImages));
      var t := ObserverTriggers(st.config, muts);
      && Grows(grown, r) && (Wf(st) ==> Wf(r))
      && IsPrefix(st.ledger.text, r.ledger.text) && IsPrefix(st.ledger.images, r.ledger.images)
      && (t.text ==> forall n :: 0 <= n < |grown.doc.texts| ==>
            r.doc.texts[n] == grown.doc.texts[n].(value := NodeResult(st.config, be, grown.doc.texts[n])))
      && (!t.text ==> r.doc.texts == grown.doc.texts)
      && (t.images ==> forall j :: 0 <= j < |grown.doc.images| ==>
            ImageEnds(st.config, be, j, grown.doc.images[j], r.doc.images[j]))
      && (!t.images ==> r.doc.images == grown.doc.images && r.doc.wrappers == grown.doc.wrappers)
      && (!t.text && !t.images ==> r == grown)
  {
    var grown := st.(doc := st.doc.(texts := st.doc.texts + newTexts, images := st.doc.images + newImages));
    var t := ObserverTriggers(st.config, muts);
    Scans(grown, t.text, t.images, be)
  }

  // ---------------------------------------------------------------------------
  // Start-up and messages

  /**
    `init`: the stored configuration replaces the defaults when there is
    one, and filtering starts only when it is both configured and enabled.
   */
  function Init(stored: Option<Config>, doc: Doc, be: Backend): (r: Client)
    ensures Wf(r)
    ensures stored.None? ==> r == Client(ContentDefault, doc, EmptyLedger, [])
    ensures stored.Some? ==> r.config == stored.value
    ensures stored.Some? && !(Truthy(stored.value, "isConfigured") && Enabled(stored.value)) ==>
      r == Client(stored.value, doc, EmptyLedger, [])
    ensures stored.Some? && Truthy(stored.value, "isConfigured") && Enabled(stored.value) ==>
      r == StartFiltering(Client(stored.value, doc, EmptyLedger, []), be)
  {
    var st := Client(if stored.Some? then stored.value else ContentDefault, doc, EmptyLedger, []);
    if stored.Some? && Truthy(stored.value, "isConfigured") && Enabled(stored.value) then StartFiltering(st, be)
    else st
  }

  datatype Message =
    | RefreshFilters
    | UpdateConfig(patch: Config)
    | RecoverContent(kind: string, entryIndex: int)
    | OtherMessage

  /** The listener's effect, and whether it reached `sendResponse` (a failed unwrap throws before it). */
  datatype Handled = Handled(client: Client, responded: bool)

  /** The `chrome.runtime.onMessage` listener. */
  function HandleMessage(st: Client, msg: Message, be: Backend): (r: Handled)
    requires Wf(st)
    ensures Wf(r.client)
    ensures msg.RefreshFilters? ==> r == Handled(StartFiltering(st, be), true)
    ensures msg.UpdateConfig? ==>
      r == Handled(StartFiltering(st.(config := Merge(st.config, msg.patch)), be), true)
    ensures msg.RecoverContent? ==>
      var rec := Recover(st, msg.kind, msg.entryIndex);
      r == Handled(rec.client, !rec.outcome.NullParent?)
    ensures msg.OtherMessage? ==> r == Handled(st, true)
  {
    match msg
    case RefreshFilters => Handled(StartFiltering(st, be), true)
    case UpdateConfig(patch) => Handled(StartFiltering(st.(config := Merge(st.config, patch)), be), true)
    case RecoverContent(kind, index) =>
      var rec := Recover(st, kind, index);
      Handled(rec.client, !rec.outcome.NullParent?)
    case OtherMessage => Handled(st, true)
  }

  /**
    `refreshFilters` checks only `enabled`: a page whose stored configuration
    says it is not set up is still scanned on the next refresh.
   */
  lemma RefreshIgnoresSetup(stored: Config, doc: Doc, be: Backend)
    requires !Truthy(stored, "isConfigured") && Enabled(stored)
    ensures Init(Some(stored), doc, be) == Client(stored, doc, EmptyLedger, [])
    ensures HandleMessage(Init(Some(stored), doc, be), RefreshFilters, be).client
            == Scans(Client(stored, doc, EmptyLedger, []), TextOn(stored), ImagesOn(stored), be)
  {
  }

  /**
    Turning filtering off through `updateConfig` returns before any scan and
    undoes nothing on the page. It does not disconnect an observer set up by
    an earlier run: see `ObserverIgnoresEnabled`.
   */
  lemma DisableKeepsPage(st: Client, patch: Config, be: Backend)
    requires Wf(st) && !Enabled(Merge(st.config, patch))
    ensures HandleMessage(st, UpdateConfig(patch), be).client == st.(config := Merge(st.config, patch))
  {
  }

  /**
    The observer's callback reads `filterText` and `filterImages` but never
    `enabled`: with filtering turned off, an added element holding the word
    "explicit" is still masked.
   */
  lemma ObserverIgnoresEnabled(st: Client, be: Backend)
    requires !Enabled(st.config) && TextOn(st.config)
    ensures var r := ObserverCallback(st, [TextNode("explicit", "P")], [],
                                      [Mutation(true, [Added(true, 0, "explicit")])], be);
      r.doc.texts[|st.doc.texts|].value == "********"
  {
    var node := TextNode("explicit", "P");
    var muts := [Mutation(true, [Added(true, 0, "explicit")])];
    assert AddsText(muts[0].added[0]) by {
      assert !IsJsSpace("explicit"[0]);
    }
    assert ObserverTriggers(st.config, muts).text;
    ExplicitNodeMasked(st.config, be);
    var grown := st.(doc := st.doc.(texts := st.doc.texts + [node], images := st.doc.images + []));
    assert grown.doc.texts[|st.doc.texts|] == node;
    var r := ObserverCallback(st, [node], [], muts, be);
    assert r.doc.texts[|st.doc.texts|] == node.(value := NodeResult(st.config, be, node));
  }
}
