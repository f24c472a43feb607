/**
  The state the content script (browser-extension/content.js) works on: an
  abstraction of the document, the recovery ledger `filteredElements`, the
  configuration copy, and the reports sent to the background script.

  Text nodes and images are identified by their position in document order.
  An image is always attached somewhere (a slot of a page element, or of a
  wrapper the filter created); a wrapper can be detached, which is what
  recovering an image does to it.
 */
module Page {
  import opened Common
  import opened Settings

  /** A text node: its `nodeValue` and the tag name of its parent element. */
  datatype TextNode = TextNode(value: string, parentTag: string)

  /** A parent an image can sit in: an element of the page, or a wrapper `div` made by the filter. */
  datatype Container = Element(id: nat) | Wrapper(id: nat)

  /** A position among the children of a container. */
  datatype Slot = Slot(parent: Container, pos: int)

  /**
    An `img` element: its rendered size, `src`, `style` attribute, the
    `socio-io-filtered` class, the `data-socioio-processed` flag, and where
    it sits.
   */
  datatype Image = Image(
    width: nat, height: nat, src: string, style: string,
    filtered: bool, processed: bool, slot: Slot)

  /** The document: text nodes and images in document order, and the wrappers created so far (`None` once removed). */
  datatype Doc = Doc(texts: seq<TextNode>, images: seq<Image>, wrappers: seq<Option<Slot>>)

  /** A ledger entry for a masked text node. */
  datatype TextRecord = TextRecord(node: nat, original: string, filtered: string, index: int)

  /** A ledger entry for a blurred image and the wrapper put around it. */
  datatype ImageRecord = ImageRecord(img: nat, wrapper: nat, originalSrc: string, originalStyle: string, index: int)

  /** `filteredElements`: one list per kind. */
  datatype Ledger = Ledger(text: seq<TextRecord>, images: seq<ImageRecord>)

  const EmptyLedger: Ledger := Ledger([], [])

  /** One `reportFilteredContent(type, original, filtered)` call: an `updateStats` and an `addToHistory` message. */
  datatype Report = Report(kind: string, original: string, replacement: string)

  /** The two fields the script reads from the JSON a `/filter/text` request returns. */
  datatype TextReply = TextReply(hasExplicitContent: bool, filtered: string)

  /**
    How the image check of one image ends: drawing or encoding the canvas
    throws, `toBlob` yields no blob, the server answers with a `shouldFilter`
    verdict, or the request fails (network error or non-2xx status).
   */
  datatype ImageOutcome = CanvasError | NoBlob | Replied(shouldFilter: bool) | RequestFailed

  /**
    The backend as the content script sees it: the reply to a text (`None`
    when the request or the JSON parse fails) and the outcome of checking an
    image, by position.
   */
  datatype Backend = Backend(text: string -> Option<TextReply>, image: nat -> ImageOutcome)

  /** The content script's state. */
  datatype Client = Client(config: Config, doc: Doc, ledger: Ledger, outbox: seq<Report>)

  // ---------------------------------------------------------------------------
  // Configuration as the content script reads it

  predicate Enabled(c: Config) { Truthy(c, "enabled") }
  predicate TextOn(c: Config) { Truthy(c, "filterText") }
  predicate ImagesOn(c: Config) { Truthy(c, "filterImages") }
  /** `config.apiUrl` is set (truthy). */
  predicate ApiSet(c: Config) { Truthy(c, "apiUrl") }

  // ---------------------------------------------------------------------------
  // Strings

  /** A character `String.prototype.trim` removes (white space and line terminators). */
  predicate IsJsSpace(c: char) {
    ('\U{9}' <= c <= '\U{D}') || c == ' ' || c == '\U{A0}' || c == '\U{1680}'
    || ('\U{2000}' <= c <= '\U{200A}') || c == '\U{2028}' || c == '\U{2029}'
    || c == '\U{202F}' || c == '\U{205F}' || c == '\U{3000}' || c == '\U{FEFF}'
  }

  /** `s.trim().length === 0`. */
  predicate Blank(s: string) {
    forall i :: 0 <= i < |s| ==> IsJsSpace(s[i])
  }

  /**
    `s.length`: JavaScript counts UTF-16 code units, so a character outside
    the Basic Multilingual Plane (a surrogate pair) counts twice.
   */
  function Utf16Len(s: string): (r: nat)
    ensures |s| <= r <= 2 * |s|
    ensures (forall k :: 0 <= k < |s| ==> s[k] < '\U{10000}') ==> r == |s|
    ensures |s| == 1 ==> r == (if s[0] < '\U{10000}' then 1 else 2)
  {
    if s == [] then 0
    else
      assert forall k :: 1 <= k < |s| ==> s[1..][k - 1] == s[k];
      (if s[0] < '\U{10000}' then 1 else 2) + Utf16Len(s[1..])
  }

  /** Code units add up over concatenation: each character counts on its own. */
  lemma {:induction false} Utf16LenAppend(a: string, b: string)
    ensures Utf16Len(a + b) == Utf16Len(a) + Utf16Len(b)
    decreases |a|
  {
    if a == [] {
      assert a + b == b;
    } else {
      assert (a + b)[1..] == a[1..] + b;
      Utf16LenAppend(a[1..], b);
    }
  }

  predicate StartsWith(s: string, prefix: string) {
    |prefix| <= |s| && s[..|prefix|] == prefix
  }

  predicate IsPrefix<T(==)>(a: seq<T>, b: seq<T>) {
    |a| <= |b| && b[..|a|] == a
  }

  // ---------------------------------------------------------------------------
  // Well-formedness

  /** Every ledger entry sits at the position its `index` names, and refers to existing nodes. */
  predicate LedgerOk(l: Ledger, d: Doc) {
    && (forall i :: 0 <= i < |l.text| ==> l.text[i].index == i && l.text[i].node < |d.texts|)
    && (forall i :: 0 <= i < |l.images| ==> l.images[i].index == i && l.images[i].img < |d.images| && l.images[i].wrapper < |d.wrappers|)
  }

  predicate Wf(st: Client) {
    LedgerOk(st.ledger, st.doc)
  }

  /** `b` is `a` after operations that only add: same nodes, more wrappers, longer ledger and outbox. */
  predicate Grows(a: Client, b: Client) {
    && |b.doc.texts| == |a.doc.texts|
    && |b.doc.images| == |a.doc.images|
    && |a.doc.wrappers| <= |b.doc.wrappers|
    && IsPrefix(a.ledger.text, b.ledger.text)
    && IsPrefix(a.ledger.images, b.ledger.images)
    && IsPrefix(a.outbox, b.outbox)
    && b.config == a.config
  }

  lemma GrowsTrans(a: Client, b: Client, c: Client)
    requires Grows(a, b) && Grows(b, c)
    ensures Grows(a, c)
  {
    assert c.ledger.text[..|b.ledger.text|][..|a.ledger.text|] == c.ledger.text[..|a.ledger.text|];
    assert c.ledger.images[..|b.ledger.images|][..|a.ledger.images|] == c.ledger.images[..|a.ledger.images|];
    assert c.outbox[..|b.outbox|][..|a.outbox|] == c.outbox[..|a.outbox|];
  }
}
