/**
  The content script's image scan (browser-extension/content.js): the size,
  class, source and processed gates, the backend check with its local
  fallback, and the batches of ten over every `img` of the document.
 */
module ImageScan {
  import opened Common
  import opened Page
  import opened Redaction
  import opened Batching

  const ImageBatchSize: nat := 10

  /** Icons and other small images: either side under 50. */
  predicate TooSmall(img: Image) {
    img.width < 50 || img.height < 50
  }

  /** A source `checkAndFilterImage` does not look at: empty, a `data:` URL, or blank. */
  predicate BadSource(src: string) {
    src == "" || StartsWith(src, "data:") || Blank(src)
  }

  /** `performBasicImageChecks`: both sides over 100. */
  predicate Substantial(img: Image) {
    img.width > 100 && img.height > 100
  }

  /**
    `shouldFilterImageLocally`: an extreme aspect ratio (over 3, or under
    0.3) on an image with a side over 300. The ratio is compared by
    cross-multiplication; a zero height gives JavaScript's `Infinity` for a
    positive width and `NaN` for a zero one.
   */
  function ShouldFilterLocally(w: nat, h: nat): (r: bool)
    ensures h > 0 ==>
      (r <==> ((w as real) / (h as real) > 3.0 || (w as real) / (h as real) < 0.3) && (w > 300 || h > 300))
    ensures h == 0 ==> (r <==> w > 300)
  {
    var r := (w > 3 * h || 10 * w < 3 * h) && (w > 300 || h > 300);
    if h > 0 then RatioIsCrossProduct(w, h); r else r
  }

  lemma MulSign(x: real, h: real)
    requires h > 0.0
    ensures x > 0.0 <==> x * h > 0.0
    ensures x < 0.0 <==> x * h < 0.0
  {
  }

  lemma DivCompare(x: real, y: real, c: real)
    requires y > 0.0
    ensures x / y > c <==> x > c * y
    ensures x / y < c <==> x < c * y
  {
    var q := x / y;
    assert q * y == x;
    assert (q - c) * y == x - c * y;
    MulSign(q - c, y);
  }

  lemma RatioIsCrossProduct(w: nat, h: nat)
    requires h > 0
    ensures (w as real) / (h as real) > 3.0 <==> w > 3 * h
    ensures (w as real) / (h as real) < 0.3 <==> 10 * w < 3 * h
  {
    DivCompare(w as real, h as real, 3.0);
    DivCompare(w as real, h as real, 0.3);
    assert (3 * h) as real == 3.0 * (h as real);
    assert (10 * w) as real == 10.0 * (w as real);
  }

  /** The backend check ends in a blur: a positive verdict, or a failed request and the aspect-ratio fallback. */
  predicate BackendBlurs(be: Backend, id: nat, img: Image) {
    be.image(id) == Replied(true) || (be.image(id) == RequestFailed && ShouldFilterLocally(img.width, img.height))
  }

  /**
    `checkImageWithBackend`, with the outcome of the request given. A
    positive verdict blurs the image and then reports it once more; a failed
    request falls back to the local rule.
   */
  function CheckImageWithBackend(st: Client, id: nat, be: Backend): (r: Client)
    requires id < |st.doc.images|
    ensures |r.doc.images| == |st.doc.images|
    ensures !ApiSet(st.config) ==> r == st
    ensures ApiSet(st.config) && be.image(id).Replied? && be.image(id).shouldFilter ==>
      var img := st.doc.images[id];
      r.doc.images[id].filtered
      && r.outbox == st.outbox + (if img.filtered then [] else [Report("image", img.src, "blurred-image")])
                               + [Report("image", img.src, "filtered-image")]
    ensures ApiSet(st.config) && be.image(id).RequestFailed? ==>
      r == (if ShouldFilterLocally(st.doc.images[id].width, st.doc.images[id].height) then ApplyImageFilter(st, id) else st)
    ensures be.image(id) in {CanvasError, NoBlob, Replied(false)} ==> r == st
    ensures Grows(st, r) && (Wf(st) ==> Wf(r))
    ensures r.doc.texts == st.doc.texts
    ensures forall j :: 0 <= j < |st.doc.images| && j != id ==> r.doc.images[j] == st.doc.images[j]
    ensures r.doc.images[id] ==
      (if ApiSet(st.config) && BackendBlurs(be, id, st.doc.images[id]) then ApplyImageFilter(st, id).doc.images[id]
       else st.doc.images[id])
  {
    if !ApiSet(st.config) then st
    else match be.image(id)
      case CanvasError => st
      case NoBlob => st
      case Replied(shouldFilter) =>
        if shouldFilter then
          var s1 := ApplyImageFilter(st, id);
          var r := Report1(s1, "image", s1.doc.images[id].src, "filtered-image");
          assert r.outbox[..|st.outbox|] == st.outbox;
          r
        else st
      case RequestFailed =>
        if ShouldFilterLocally(st.doc.images[id].width, st.doc.images[id].height) then ApplyImageFilter(st, id) else st
  }

  /**
    `checkAndFilterImage`: a bad source or an already processed image is
    left alone; otherwise the image is marked processed before anything
    else, and only a substantial image goes on to the backend check.
   */
  function CheckAndFilterImage(st: Client, id: nat, be: Backend): (r: Client)
    requires id < |st.doc.images|
    ensures |r.doc.images| == |st.doc.images|
    ensures BadSource(st.doc.images[id].src) || st.doc.images[id].processed ==> r == st
    ensures !BadSource(st.doc.images[id].src) && !st.doc.images[id].processed ==>
      var marked := st.(doc := st.doc.(images := st.doc.images[id := st.doc.images[id].(processed := true)]));
      && r.doc.images[id].processed
      && (Substantial(st.doc.images[id]) ==> r == CheckImageWithBackend(marked, id, be))
      && (!Substantial(st.doc.images[id]) ==> r == marked)
  {
    var img := st.doc.images[id];
    if BadSource(img.src) || img.processed then st
    else
      var marked := st.(doc := st.doc.(images := st.doc.images[id := img.(processed := true)]));
      if Substantial(img) then CheckImageWithBackend(marked, id, be) else marked
  }

  /** One item of `processImagesBatch`; an id outside the document is left alone. */
  function ProcessImage(st: Client, id: nat, be: Backend): (r: Client)
    ensures id >= |st.doc.images| || TooSmall(st.doc.images[id]) || st.doc.images[id].filtered ==> r == st
  {
    if id >= |st.doc.images| then st
    else
      var img := st.doc.images[id];
      if TooSmall(img) || img.filtered then st else CheckAndFilterImage(st, id, be)
  }

  /** The image passes every gate before the processed flag: big enough, unfiltered, with a usable source. */
  predicate Eligible(img: Image) {
    !TooSmall(img) && !img.filtered && !BadSource(img.src)
  }

  /** Checking the image blurs it: it passes every gate, is new, substantial, and the backend check ends in a blur. */
  predicate Blurs(cfg: Settings.Config, be: Backend, id: nat, img: Image) {
    Eligible(img) && !img.processed && Substantial(img) && ApiSet(cfg) && BackendBlurs(be, id, img)
  }

  /**
    How image `id`, `img` before, ends after its check: blurred, moved into a
    wrapper and marked processed when `Blurs`; otherwise unchanged but for
    the processed flag, which every eligible image gets.
   */
  predicate ImageEnds(cfg: Settings.Config, be: Backend, id: nat, img: Image, after: Image) {
    if Blurs(cfg, be, id, img) then
      after == img.(processed := true, filtered := true, style := Blurred(img.style), slot := after.slot)
      && after.slot.parent.Wrapper?
    else after == img.(processed := img.processed || Eligible(img))
  }

  /** What one image step does to the whole state. */
  lemma ProcessImageEffect(st: Client, id: nat, be: Backend)
    requires id < |st.doc.images|
    ensures var r := ProcessImage(st, id, be);
      var img := st.doc.images[id];
      && Grows(st, r) && (Wf(st) ==> Wf(r))
      && r.doc.texts == st.doc.texts
      && (forall j :: 0 <= j < |st.doc.images| && j != id ==> r.doc.images[j] == st.doc.images[j])
      && ImageEnds(st.config, be, id, img, r.doc.images[id])
  {
    var img := st.doc.images[id];
    if Eligible(img) && !img.processed {
      var marked := st.(doc := st.doc.(images := st.doc.images[id := img.(processed := true)]));
      assert Grows(st, marked);
      if Substantial(img) {
        var r := CheckImageWithBackend(marked, id, be);
        GrowsTrans(st, marked, r);
      }
    }
  }

  /** Checking an image a second time does nothing, whatever the backend says the second time. */
  lemma ProcessImageTwice(st: Client, id: nat, be: Backend, be2: Backend)
    requires id < |st.doc.images|
    ensures ProcessImage(ProcessImage(st, id, be), id, be2) == ProcessImage(st, id, be)
  {
    ProcessImageEffect(st, id, be);
  }

  /** The backend is consulted only for a substantial image when `apiUrl` is set. */
  lemma BackendOnlyForSubstantial(st: Client, id: nat, be: Backend, be2: Backend)
    requires id < |st.doc.images|
    requires !(Substantial(st.doc.images[id]) && ApiSet(st.config))
    ensures ProcessImage(st, id, be) == ProcessImage(st, id, be2)
  {
  }

  function ImageStep(be: Backend): (Client, nat) -> Client {
    (st: Client, id: nat) => ProcessImage(st, id, be)
  }

  /** The ids `0 .. n - 1`: `querySelectorAll('img')` in document order. */
  function Upto(n: nat): (r: seq<nat>)
    ensures |r| == n && forall i :: 0 <= i < n ==> r[i] == i
  {
    if n == 0 then [] else Upto(n - 1) + [n - 1]
  }

  /**
    A pass over distinct images leaves each listed image as `ImageEnds` says
    and every other image and the text alone, and only adds to the ledger.
   */
  lemma {:induction false} ImagePass(st: Client, ids: seq<nat>, be: Backend)
    requires forall i, j :: 0 <= i < j < |ids| ==> ids[i] < ids[j]
    requires forall i :: 0 <= i < |ids| ==> ids[i] < |st.doc.images|
    ensures var r := Sequential(st, ids, ImageStep(be));
      && Grows(st, r) && (Wf(st) ==> Wf(r))
      && r.doc.texts == st.doc.texts
      && forall j :: 0 <= j < |st.doc.images| ==>
           var img := st.doc.images[j];
           && (j !in ids ==> r.doc.images[j] == img)
           && (j in ids ==> ImageEnds(st.config, be, j, img, r.doc.images[j]))
    decreases |ids|
  {
    if ids != [] {
      var s1 := ImageStep(be)(st, ids[0]);
      ProcessImageEffect(st, ids[0], be);
      var r := Sequential(s1, ids[1..], ImageStep(be));
      ImagePass(s1, ids[1..], be);
      GrowsTrans(st, s1, r);
      forall j | 0 <= j < |st.doc.images|
        ensures var img := st.doc.images[j];
          && (j !in ids ==> r.doc.images[j] == img)
          && (j in ids ==> ImageEnds(st.config, be, j, img, r.doc.images[j]))
      {
        if j == ids[0] {
          assert j !in ids[1..];
        } else {
          assert j in ids <==> j in ids[1..];
        }
      }
    }
  }

  /**
    `filterImageContent`: every image, in batches of ten. Afterwards each
    image ends as `ImageEnds` says: exactly the new, eligible, substantial
    images whose backend check ends in a blur are blurred, every eligible
    image is marked processed, and the text is untouched.
   */
  function FilterImageContent(st: Client, be: Backend): (r: Client)
    ensures Grows(st, r) && (Wf(st) ==> Wf(r))
    ensures r.doc.texts == st.doc.texts
    ensures forall j :: 0 <= j < |st.doc.images| ==>
      ImageEnds(st.config, be, j, st.doc.images[j], r.doc.images[j])
    ensures forall j :: 0 <= j < |st.doc.images| ==>
      (r.doc.images[j].filtered <==> st.doc.images[j].filtered || Blurs(st.config, be, j, st.doc.images[j]))
  {
    var ids := Upto(|st.doc.images|);
    BatchesAreSequential(st, ids, 0, ImageBatchSize, ImageStep(be));
    assert ids[0..] == ids;
    ImagePass(st, ids, be);
    forall j | 0 <= j < |st.doc.images|
      ensures j in ids
    {
      assert ids[j] == j;
    }
    Batches(st, ids, 0, ImageBatchSize, ImageStep(be))
  }
}
