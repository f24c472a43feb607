/**
  The two redactions of the content script and their undo: masking a text
  node, blurring and wrapping an image, and `recoverFilteredContent`
  (browser-extension/content.js). Each redaction appends a ledger record at
  the ledger's current length and queues one report.
 */
module Redaction {
  import opened Common
  import opened Page

  /** The `style` attribute after `img.style.filter = 'blur(25px)'`. */
  function Blurred(style: string): string {
    style + (if style == "" then "" else " ") + "filter: blur(25px);"
  }

  /** The effect of `reportFilteredContent(kind, original, replacement)` on the client: one queued report. */
  function Report1(st: Client, kind: string, original: string, replacement: string): Client {
    st.(outbox := st.outbox + [Report(kind, original, replacement)])
  }

  /** A text node's value is replaced by `filtered`; the prior value goes to the ledger and the report. */
  function ApplyTextRedaction(st: Client, node: nat, filtered: string): (r: Client)
    requires node < |st.doc.texts|
    ensures |r.doc.texts| == |st.doc.texts|
    ensures r.doc.texts[node].value == filtered
    ensures forall n :: 0 <= n < |st.doc.texts| && n != node ==> r.doc.texts[n] == st.doc.texts[n]
    ensures r.doc.texts[node].parentTag == st.doc.texts[node].parentTag
    ensures r.doc.images == st.doc.images && r.doc.wrappers == st.doc.wrappers
    ensures r.ledger.images == st.ledger.images
    ensures r.ledger.text == st.ledger.text + [TextRecord(node, st.doc.texts[node].value, filtered, |st.ledger.text|)]
    ensures r.outbox == st.outbox + [Report("text", st.doc.texts[node].value, filtered)]
    ensures Grows(st, r)
    ensures Wf(st) ==> Wf(r)
  {
    var prior := st.doc.texts[node].value;
    var doc := st.doc.(texts := st.doc.texts[node := st.doc.texts[node].(value := filtered)]);
    var ledger := st.ledger.(text := st.ledger.text + [TextRecord(node, prior, filtered, |st.ledger.text|)]);
    var r := Report1(st.(doc := doc, ledger := ledger), "text", prior, filtered);
    assert r.ledger.text[..|st.ledger.text|] == st.ledger.text;
    assert r.outbox[..|st.outbox|] == st.outbox;
    r
  }

  /**
    `applyImageFilter`: an already-filtered image is left alone; otherwise a
    new wrapper takes the image's place, the image moves into it, gets the
    filtered class and the blur, and the original `src` and style are
    recorded.
   */
  function ApplyImageFilter(st: Client, id: nat): (r: Client)
    requires id < |st.doc.images|
    ensures st.doc.images[id].filtered ==> r == st
    ensures !st.doc.images[id].filtered ==>
      var img := st.doc.images[id];
      var w := |st.doc.wrappers|;
      && r.doc.wrappers == st.doc.wrappers + [Some(img.slot)]
      && r.doc.images == st.doc.images[id := img.(filtered := true, style := Blurred(img.style), slot := Slot(Wrapper(w), 0))]
      && r.doc.texts == st.doc.texts
      && r.ledger.text == st.ledger.text
      && r.ledger.images == st.ledger.images + [ImageRecord(id, w, img.src, img.style, |st.ledger.images|)]
      && r.outbox == st.outbox + [Report("image", img.src, "blurred-image")]
    ensures r.doc.images[id].filtered
    ensures r.doc.images[id].src == st.doc.images[id].src
    ensures r.doc.images[id].processed == st.doc.images[id].processed
    ensures Grows(st, r)
    ensures Wf(st) ==> Wf(r)
  {
    var img := st.doc.images[id];
    if img.filtered then st
    else
      var w := |st.doc.wrappers|;
      var doc := st.doc.(
        images := st.doc.images[id := img.(filtered := true, style := Blurred(img.style), slot := Slot(Wrapper(w), 0))],
        wrappers := st.doc.wrappers + [Some(img.slot)]);
      var ledger := st.ledger.(images := st.ledger.images + [ImageRecord(id, w, img.src, img.style, |st.ledger.images|)]);
      var r := Report1(st.(doc := doc, ledger := ledger), "image", img.src, "blurred-image");
      assert r.ledger.images[..|st.ledger.images|] == st.ledger.images;
      assert r.outbox[..|st.outbox|] == st.outbox;
      r
  }

  /** What a recovery request did. `NullParent` is the `TypeError` of unwrapping an image whose wrapper is already gone. */
  datatype Outcome = Restored | Ignored | NullParent

  datatype Recovery = Recovery(client: Client, outcome: Outcome)

  /** The restored image: class removed, saved style back, not yet moved. */
  function Unblurred(img: Image, rec: ImageRecord): Image {
    img.(filtered := false, style := rec.originalStyle)
  }

  /**
    `recoverFilteredContent(type, index)`: only the types `text` and `image`
    with an existing ledger entry do anything.
   */
  function Recover(st: Client, kind: string, index: int): (r: Recovery)
    requires Wf(st)
    ensures r.outcome.Ignored? <==>
      !((kind == "text" && 0 <= index < |st.ledger.text|) || (kind == "image" && 0 <= index < |st.ledger.images|))
    ensures r.outcome.Ignored? ==> r.client == st
    ensures kind == "text" && 0 <= index < |st.ledger.text| ==>
      var rec := st.ledger.text[index];
      && r.outcome.Restored?
      && r.client == st.(doc := st.doc.(texts := st.doc.texts[rec.node := st.doc.texts[rec.node].(value := rec.original)]))
    ensures kind == "image" && 0 <= index < |st.ledger.images| ==>
      var rec := st.ledger.images[index];
      var img := Unblurred(st.doc.images[rec.img], rec);
      var wslot := st.doc.wrappers[rec.wrapper];
      && r.client.ledger == st.ledger
      && r.client.outbox == st.outbox
      && r.client.doc.texts == st.doc.texts
      && (r.outcome.NullParent? <==> wslot.None?)
      && (wslot.None? ==> r.client.doc.images == st.doc.images[rec.img := img] && r.client.doc.wrappers == st.doc.wrappers)
      && (wslot.Some? ==>
            && r.outcome.Restored?
            && r.client.doc.images == st.doc.images[rec.img := img.(slot := wslot.value)]
            && r.client.doc.wrappers == st.doc.wrappers[rec.wrapper := None])
    ensures Wf(r.client)
    ensures r.client.config == st.config
  {
    if kind == "text" && 0 <= index < |st.ledger.text| then
      var rec := st.ledger.text[index];
      Recovery(st.(doc := st.doc.(texts := st.doc.texts[rec.node := st.doc.texts[rec.node].(value := rec.original)])), Restored)
    else if kind == "image" && 0 <= index < |st.ledger.images| then
      var rec := st.ledger.images[index];
      var img := Unblurred(st.doc.images[rec.img], rec);
      match st.doc.wrappers[rec.wrapper]
      case None =>
        // the class and style are restored before `parent.insertBefore` throws
        Recovery(st.(doc := st.doc.(images := st.doc.images[rec.img := img])), NullParent)
      case Some(slot) =>
        Recovery(st.(doc := st.doc.(
          images := st.doc.images[rec.img := img.(slot := slot)],
          wrappers := st.doc.wrappers[rec.wrapper := None])), Restored)
    else Recovery(st, Ignored)
  }

  // ---------------------------------------------------------------------------
  // Round trips

  /** Recovering the record a text redaction just made gives back the document as it was. */
  lemma TextRoundTrip(st: Client, node: nat, filtered: string)
    requires Wf(st) && node < |st.doc.texts|
    ensures
      var red := ApplyTextRedaction(st, node, filtered);
      var rec := Recover(red, "text", |st.ledger.text|);
      && rec.outcome.Restored?
      && rec.client.doc == st.doc
      && rec.client.ledger == red.ledger
  {
    var red := ApplyTextRedaction(st, node, filtered);
    assert red.ledger.text[|st.ledger.text|].original == st.doc.texts[node].value;
    var rec := Recover(red, "text", |st.ledger.text|);
    assert rec.client.doc.texts == st.doc.texts;
  }

  /**
    Recovering the record an image filter just made gives back every image
    exactly (class, style, position); the only trace left is the removed
    wrapper.
   */
  lemma ImageRoundTrip(st: Client, id: nat)
    requires Wf(st) && id < |st.doc.images| && !st.doc.images[id].filtered
    ensures
      var red := ApplyImageFilter(st, id);
      var rec := Recover(red, "image", |st.ledger.images|);
      && rec.outcome.Restored?
      && rec.client.doc.images == st.doc.images
      && rec.client.doc.texts == st.doc.texts
      && rec.client.doc.wrappers == st.doc.wrappers + [None]
  {
    var red := ApplyImageFilter(st, id);
    var w := |st.doc.wrappers|;
    var r := red.ledger.images[|st.ledger.images|];
    assert r == ImageRecord(id, w, st.doc.images[id].src, st.doc.images[id].style, |st.ledger.images|);
    assert red.doc.wrappers[w] == Some(st.doc.images[id].slot);
    var rec := Recover(red, "image", |st.ledger.images|);
    assert rec.client.doc.images[id] == st.doc.images[id];
    assert rec.client.doc.images == st.doc.images;
    assert rec.client.doc.wrappers == st.doc.wrappers + [None];
  }

  /** Recovering a text record twice is recovering it once. */
  lemma TextRecoverIdempotent(st: Client, index: int)
    requires Wf(st) && 0 <= index < |st.ledger.text|
    ensures Recover(Recover(st, "text", index).client, "text", index) == Recover(st, "text", index)
  {
  }

  /**
    Recovering an image record a second time finds its wrapper gone: the
    call fails half way, after restoring a class and style that are already
    restored, so the document does not change.
   */
  lemma SecondImageRecoveryFails(st: Client, index: int)
    requires Wf(st) && 0 <= index < |st.ledger.images|
    requires Recover(st, "image", index).outcome.Restored?
    ensures
      var once := Recover(st, "image", index).client;
      var twice := Recover(once, "image", index);
      twice.outcome.NullParent? && twice.client == once
  {
    var rec := st.ledger.images[index];
    var once := Recover(st, "image", index).client;
    assert once.doc.wrappers[rec.wrapper].None?;
    var twice := Recover(once, "image", index);
    assert twice.client.doc.images[rec.img] == once.doc.images[rec.img];
    assert twice.client.doc.images == once.doc.images;
  }
}
