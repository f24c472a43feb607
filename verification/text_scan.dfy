/**
  The content script's text scan (browser-extension/content.js): the tree
  walker's filter, the skipped parents, the local-versus-backend routing of
  `checkAndFilterText`, and the reply handling of `checkTextWithBackend`.

  The scan is characterised pointwise: after `FilterTextContent` every text
  node holds `NodeResult` of its old value, however the nodes are batched.
 */
module TextScan {
  import opened Common
  import opened Page
  import Lexical
  import opened Redaction
  import opened Batching

  /** Text under these parents is never filtered. */
  const SkippedParents: set<string> := {"SCRIPT", "STYLE", "NOSCRIPT"}

  const TextBatchSize: nat := 50

  /** A node the local filter left alone must be longer than this, in UTF-16 code units, to go to the backend. */
  const MinBackendLength: nat := 10

  /** The tree walker's accepted nodes: those whose value is not blank, in document order. */
  function CollectTextNodes(texts: seq<TextNode>): (r: seq<nat>)
    ensures forall i :: 0 <= i < |r| ==> r[i] < |texts| && !Blank(texts[r[i]].value)
    ensures forall n :: 0 <= n < |texts| && !Blank(texts[n].value) ==> n in r
    ensures forall i, j :: 0 <= i < j < |r| ==> r[i] < r[j]
  {
    if texts == [] then []
    else
      var init := CollectTextNodes(texts[..|texts| - 1]);
      if Blank(texts[|texts| - 1].value) then init else init + [|texts| - 1]
  }

  /** Where `checkAndFilterText` sends a text. */
  datatype Route = Skip | LocalMask(filtered: string) | AskBackend

  /**
    `checkAndFilterText` up to the request: blank text is skipped, a local
    match is masked at once, and otherwise only a text longer than ten
    UTF-16 code units goes to the backend, and only when `apiUrl` is set.
   */
  function RouteText(cfg: Settings.Config, text: string): (r: Route)
    ensures Blank(text) ==> r == Skip
    ensures !Blank(text) && Lexical.AnyOccurs(text, Lexical.ExplicitWords) ==>
      r == LocalMask(Lexical.ApplyBasicFilter(text))
    ensures r.AskBackend? <==>
      !Blank(text) && !Lexical.AnyOccurs(text, Lexical.ExplicitWords) && Utf16Len(text) > MinBackendLength && ApiSet(cfg)
    ensures r.LocalMask? ==> r.filtered != text && |r.filtered| == |text|
  {
    Lexical.BasicFilterIdentity(text);
    Lexical.BasicFilterShape(text);
    if text == "" || Blank(text) then Skip
    else
      var f := Lexical.ApplyBasicFilter(text);
      if f != text then LocalMask(f)
      // `checkTextWithBackend` returns at once when `apiUrl` is not set
      else if Utf16Len(text) > MinBackendLength && ApiSet(cfg) then AskBackend
      else Skip
  }

  /**
    Length is counted in code units: six characters outside the Basic
    Multilingual Plane are twelve, so such a text goes to the backend.
   */
  lemma AstralTextGoesToBackend(cfg: Settings.Config)
    requires ApiSet(cfg)
    ensures RouteText(cfg, "\U{1F642}\U{1F642}\U{1F642}\U{1F642}\U{1F642}\U{1F642}").AskBackend?
  {
    var e := '\U{1F642}';
    var s := [e, e, e, e, e, e];
    assert !Blank(s) by { assert !IsJsSpace(s[0]); }
    Lexical.NoWordCharNoWord(s);
    assert Utf16Len([e]) == 2;
    assert Utf16Len([e, e]) == 4 by { assert [e, e][1..] == [e]; }
    assert Utf16Len([e, e, e]) == 6 by { assert [e, e, e][1..] == [e, e]; }
    assert Utf16Len([e, e, e, e]) == 8 by { assert [e, e, e, e][1..] == [e, e, e]; }
    assert Utf16Len([e, e, e, e, e]) == 10 by { assert [e, e, e, e, e][1..] == [e, e, e, e]; }
    assert Utf16Len(s) == 12 by { assert s[1..] == [e, e, e, e, e]; }
  }

  /** A backend reply is applied only when it is explicit and differs from the text that was sent. */
  predicate Applies(sent: string, reply: Option<TextReply>) {
    reply.Some? && reply.value.hasExplicitContent && reply.value.filtered != sent
  }

  /** The value a node's text ends with once its check is done (its parent not skipped). */
  function NodeValue(cfg: Settings.Config, be: Backend, text: string): string {
    match RouteText(cfg, text)
    case Skip => text
    case LocalMask(f) => f
    case AskBackend => if Applies(text, be.text(text)) then be.text(text).value.filtered else text
  }

  /** The value a node ends with, its parent taken into account. */
  function NodeResult(cfg: Settings.Config, be: Backend, t: TextNode): string {
    if t.parentTag in SkippedParents then t.value else NodeValue(cfg, be, t.value)
  }

  /**
    `checkAndFilterText` with the backend's reply applied at once. The node
    changes exactly when a redaction is recorded for it, and then it holds
    `NodeValue` of its old text.
   */
  function CheckAndFilterText(st: Client, node: nat, be: Backend): (r: Client)
    requires node < |st.doc.texts|
    ensures var text := st.doc.texts[node].value;
      var v := NodeValue(st.config, be, text);
      && (v == text ==> r == st)
      && (v != text ==> r == ApplyTextRedaction(st, node, v))
  {
    var text := st.doc.texts[node].value;
    match RouteText(st.config, text)
    case Skip => st
    case LocalMask(f) => ApplyTextRedaction(st, node, f)
    case AskBackend =>
      var reply := be.text(text);
      if Applies(text, reply) then ApplyTextRedaction(st, node, reply.value.filtered) else st
  }

  /** One item of `processTextNodesBatch`; an id outside the document is left alone. */
  function ProcessTextNode(st: Client, node: nat, be: Backend): (r: Client)
    ensures node < |st.doc.texts| && st.doc.texts[node].parentTag in SkippedParents ==> r == st
    ensures node >= |st.doc.texts| ==> r == st
  {
    if node >= |st.doc.texts| || st.doc.texts[node].parentTag in SkippedParents then st
    else CheckAndFilterText(st, node, be)
  }

  function TextStep(be: Backend): (Client, nat) -> Client {
    (st: Client, node: nat) => ProcessTextNode(st, node, be)
  }

  /** What one text step does to the whole state. */
  lemma TextStepEffect(st: Client, node: nat, be: Backend)
    requires node < |st.doc.texts|
    ensures var r := TextStep(be)(st, node);
      && Grows(st, r) && (Wf(st) ==> Wf(r))
      && r.doc.images == st.doc.images && r.doc.wrappers == st.doc.wrappers
      && r.doc.texts == st.doc.texts[node := st.doc.texts[node].(value := NodeResult(st.config, be, st.doc.texts[node]))]
  {
    var r := TextStep(be)(st, node);
    var t := st.doc.texts[node];
    if t.parentTag !in SkippedParents {
      var v := NodeValue(st.config, be, t.value);
      if v == t.value {
        assert st.doc.texts[node := t.(value := v)] == st.doc.texts;
      } else {
        assert r == ApplyTextRedaction(st, node, v);
        assert r.doc.texts == st.doc.texts[node := t.(value := v)];
      }
    } else {
      assert st.doc.texts[node := t] == st.doc.texts;
    }
  }

  /** Strictly increasing ids: each appears once. */
  predicate Increasing(ids: seq<nat>) {
    forall i, j :: 0 <= i < j < |ids| ==> ids[i] < ids[j]
  }

  /**
    A pass over distinct ids of the document leaves every listed node with
    `NodeResult` of its old value and every other node as it was, and only
    adds to the ledger and the reports.
   */
  lemma {:induction false} TextPass(st: Client, ids: seq<nat>, be: Backend)
    requires Increasing(ids) && forall i :: 0 <= i < |ids| ==> ids[i] < |st.doc.texts|
    ensures var r := Sequential(st, ids, TextStep(be));
      && Grows(st, r) && (Wf(st) ==> Wf(r))
      && r.doc.images == st.doc.images && r.doc.wrappers == st.doc.wrappers
      && (forall n :: 0 <= n < |st.doc.texts| ==>
           r.doc.texts[n] == (if n in ids then st.doc.texts[n].(value := NodeResult(st.config, be, st.doc.texts[n])) else st.doc.texts[n]))
      && ((forall i :: 0 <= i < |ids| ==> NodeResult(st.config, be, st.doc.texts[ids[i]]) == st.doc.texts[ids[i]].value) ==> r == st)
    decreases |ids|
  {
    if ids != [] {
      var s1 := TextStep(be)(st, ids[0]);
      TextStepEffect(st, ids[0], be);
      var r := Sequential(s1, ids[1..], TextStep(be));
      TextPass(s1, ids[1..], be);
      GrowsTrans(st, s1, r);
      if forall i :: 0 <= i < |ids| ==> NodeResult(st.config, be, st.doc.texts[ids[i]]) == st.doc.texts[ids[i]].value {
        assert NodeResult(st.config, be, st.doc.texts[ids[0]]) == st.doc.texts[ids[0]].value;
        assert s1 == st;
        assert forall i :: 0 <= i < |ids[1..]| ==> ids[1..][i] == ids[i + 1];
      }
      forall n | 0 <= n < |st.doc.texts|
        ensures r.doc.texts[n] == (if n in ids then st.doc.texts[n].(value := NodeResult(st.config, be, st.doc.texts[n])) else st.doc.texts[n])
      {
        if n == ids[0] {
          assert n !in ids[1..];
        } else {
          assert s1.doc.texts[n] == st.doc.texts[n];
          assert n in ids <==> n in ids[1..];
        }
      }
    }
  }

  /**
    `filterTextContent`: collect the non-blank nodes, then run the batches
    of fifty. Every node ends with `NodeResult` of its old value; nothing
    else in the document changes and the ledger only grows.
   */
  function FilterTextContent(st: Client, be: Backend): (r: Client)
    ensures Grows(st, r) && (Wf(st) ==> Wf(r))
    ensures r.doc.images == st.doc.images && r.doc.wrappers == st.doc.wrappers
    ensures forall n :: 0 <= n < |st.doc.texts| ==>
      r.doc.texts[n] == st.doc.texts[n].(value := NodeResult(st.config, be, st.doc.texts[n]))
    ensures (forall n :: 0 <= n < |st.doc.texts| ==> NodeResult(st.config, be, st.doc.texts[n]) == st.doc.texts[n].value) ==> r == st
  {
    var ids := CollectTextNodes(st.doc.texts);
    BatchesAreSequential(st, ids, 0, TextBatchSize, TextStep(be));
    assert ids[0..] == ids;
    TextPass(st, ids, be);
    var r := Batches(st, ids, 0, TextBatchSize, TextStep(be));
    assert forall n | 0 <= n < |st.doc.texts| && n !in ids :: NodeResult(st.config, be, st.doc.texts[n]) == st.doc.texts[n].value;
    r
  }

  // ---------------------------------------------------------------------------
  // Rescanning with the local filter only

  /** White space holds no word, so a blank text never matches. */
  lemma BlankHasNoWord(text: string)
    requires Blank(text)
    ensures !Lexical.AnyOccurs(text, Lexical.ExplicitWords)
  {
    assert forall k :: 0 <= k < |text| ==> IsJsSpace(text[k]);
    Lexical.NoWordCharNoWord(text);
  }

  /** Without `apiUrl` a node's text becomes exactly the local mask of it. */
  lemma LocalNodeValue(cfg: Settings.Config, be: Backend, text: string)
    requires !ApiSet(cfg)
    ensures NodeValue(cfg, be, text) == Lexical.ApplyBasicFilter(text)
  {
    Lexical.BasicFilterIdentity(text);
    if Blank(text) {
      BlankHasNoWord(text);
    }
  }

  /** A node outside SCRIPT, STYLE and NOSCRIPT holding just "explicit" ends masked whole, whatever the backend. */
  lemma ExplicitNodeMasked(cfg: Settings.Config, be: Backend)
    ensures NodeResult(cfg, be, TextNode("explicit", "P")) == "********"
  {
    Lexical.ExplicitIsMasked();
    assert !IsJsSpace("explicit"[0]);
  }

  /** Without `apiUrl`, every node a text scan leaves behind is already its own result. */
  lemma ScannedIsQuiet(st: Client, be: Backend)
    requires !ApiSet(st.config)
    ensures var r := FilterTextContent(st, be);
      forall n :: 0 <= n < |r.doc.texts| ==> NodeResult(r.config, be, r.doc.texts[n]) == r.doc.texts[n].value
  {
    var r := FilterTextContent(st, be);
    forall n | 0 <= n < |r.doc.texts|
      ensures NodeResult(r.config, be, r.doc.texts[n]) == r.doc.texts[n].value
    {
      var t := st.doc.texts[n];
      if t.parentTag !in SkippedParents {
        LocalNodeValue(st.config, be, t.value);
        LocalNodeValue(st.config, be, r.doc.texts[n].value);
        Lexical.BasicFilterIdempotent(t.value);
      }
    }
  }

  /**
    Without `apiUrl`, scanning an already scanned document changes nothing:
    no node is masked again and no report is queued twice.
   */
  lemma TextRescanQuiet(st: Client, be: Backend)
    requires !ApiSet(st.config)
    ensures FilterTextContent(FilterTextContent(st, be), be) == FilterTextContent(st, be)
  {
    ScannedIsQuiet(st, be);
  }
}
