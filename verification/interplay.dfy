/**
  How the three programs meet: the content script reading the router's
  responses, and the background store receiving the content script's
  reports and recovery requests.
 */
module Interplay {
  import opened Common
  import opened Settings
  import opened Page
  import Lexical
  import TextBackend
  import ImageBackend
  import Router
  import Background
  import opened Redaction
  import opened TextScan
  import opened ImageScan
  import Content

  // ---------------------------------------------------------------------------
  // The content script reading the router's responses

  /**
    What `checkTextWithBackend` reads from a `/filter/text` response: only a
    filter result carries `hasExplicitContent`; on an error body it is
    undefined, which acts as no reply.
   */
  function TextReplyOf(resp: Router.Response): (r: Option<TextReply>)
    ensures r.Some? <==> resp.Reply? && resp.body.TextBody?
    ensures r.Some? ==> r.value == TextReply(resp.body.text.hasExplicitContent, resp.body.text.filtered)
  {
    if resp.Reply? && resp.body.TextBody? then
      Some(TextReply(resp.body.text.hasExplicitContent, resp.body.text.filtered))
    else None
  }

  /** What `checkImageWithBackend` makes of a `/filter/image` response: anything but a 2xx is a failed request. */
  function ImageOutcomeOf(resp: Router.Response): (r: ImageOutcome)
    ensures r.RequestFailed? <==> !(resp.Reply? && resp.status == 200)
    ensures resp.Reply? && resp.status == 200 && resp.body.ImageBody? ==> r == Replied(resp.body.image.shouldFilter)
  {
    if resp.Reply? && resp.status == 200 then
      Replied(resp.body.ImageBody? && resp.body.image.shouldFilter)
    else RequestFailed
  }

  function Digit(d: nat): (c: char)
    requires d < 10
    ensures '0' <= c <= '9'
  {
    ('0' as int + d) as char
  }

  /** The number a string of decimal digits denotes, most significant first. */
  function DigitsValue(s: string): int
    decreases |s|
  {
    if s == [] then 0 else DigitsValue(s[..|s| - 1]) * 10 + (s[|s| - 1] as int - '0' as int)
  }

  /** The decimal digits of a number: they denote it, with no leading zero. */
  function NatString(n: nat): (r: string)
    ensures |r| > 0 && forall k :: 0 <= k < |r| ==> '0' <= r[k] <= '9'
    ensures DigitsValue(r) == n
    ensures r[0] == '0' <==> n == 0
    decreases n
  {
    if n < 10 then [Digit(n)]
    else
      var r := NatString(n / 10) + [Digit(n % 10)];
      assert r[..|r| - 1] == NatString(n / 10);
      r
  }

  /** `String(v)` for the configuration values, as `FormData.append` sends them. */
  function ValueString(v: Value): string {
    match v
    case VNull => "null"
    case VBool(b) => if b then "true" else "false"
    case VNum(n) => if n < 0 then "-" + NatString(-n) else NatString(n)
    case VStr(s) => s
    case _ => "[object Object]"
  }

  /**
    The `method` field the content script sends: `config.imageFilterMethod
    || 'deepai'`. Only a string setting can name one of the router's
    methods.
   */
  function RequestedMethod(cfg: Config): (r: string)
    ensures !Truthy(cfg, "imageFilterMethod") ==> r == "deepai"
    ensures Truthy(cfg, "imageFilterMethod") && r in {"auto", "vertex", "deepai"} ==>
      cfg["imageFilterMethod"] == VStr(r)
  {
    if Truthy(cfg, "imageFilterMethod") then
      var v := cfg["imageFilterMethod"];
      var r := ValueString(v);
      if v.VNum? then
        assert r[|r| - 1] != 'o' && r[|r| - 1] != 'x' && r[|r| - 1] != 'i';
        r
      else r
    else "deepai"
  }

  /**
    With no method chosen in the extension, the request asks for DeepAI. A
    server set up with Google credentials only refuses it with a 400, so the
    page falls back to the aspect-ratio rule instead of the server's verdict.
   */
  lemma DefaultMethodFallsBack(cfg: Config, env: Router.Env, bytes: seq<bv8>,
                               t: TextBackend.TextPrediction, p: ImageBackend.ImagePrediction)
    requires !Truthy(cfg, "imageFilterMethod")
    requires env.googleCredentials && !env.deepaiKey && TextBackend.PlainTerms(t)
    requires |bytes| <= Router.MaxUploadBytes
    ensures ImageOutcomeOf(Router.Route(env, Router.PostImage(Some(Router.Upload(bytes)), Some(RequestedMethod(cfg))), t, p))
            == RequestFailed
  {
  }

  /** When the method is available, the page acts on the server's explicitness verdict. */
  lemma ImageVerdictReachesPage(cfg: Config, env: Router.Env, bytes: seq<bv8>,
                                t: TextBackend.TextPrediction, p: ImageBackend.ImagePrediction)
    requires Router.ApiConfigured(env) && TextBackend.PlainTerms(t)
    requires |bytes| <= Router.MaxUploadBytes
    requires Router.MethodError(env, RequestedMethod(cfg)).None?
    ensures ImageOutcomeOf(Router.Route(env, Router.PostImage(Some(Router.Upload(bytes)), Some(RequestedMethod(cfg))), t, p))
            == Replied(ImageBackend.AnalyzeImage(p).isExplicit)
  {
    var m := RequestedMethod(cfg);
    assert Router.MethodOf(Some(m)) == m;
  }

  /** `b` is `a` with some characters replaced by the mask. */
  predicate MaskOf(a: string, b: string) {
    |b| == |a| && forall k :: 0 <= k < |a| ==> b[k] == a[k] || b[k] == Lexical.Mask
  }

  /**
    A backend answering through the router: the reply to each text is what
    the content script reads from `Route` for it, with the AI prediction the
    server would receive.
   */
  ghost predicate RouterBacked(be: Backend, env: Router.Env, ai: string -> TextBackend.TextPrediction, img: ImageBackend.ImagePrediction) {
    forall s :: TextBackend.PlainTerms(ai(s))
      && be.text(s) == TextReplyOf(Router.Route(env, Router.PostText(Router.JString(s)), ai(s), img))
  }

  /** Whatever the AI says, a node's text only ever gets characters masked: same length, nothing else changed. */
  lemma NodeValueMasks(cfg: Config, be: Backend, text: string, env: Router.Env,
                       ai: string -> TextBackend.TextPrediction, img: ImageBackend.ImagePrediction)
    requires RouterBacked(be, env, ai, img)
    ensures MaskOf(text, NodeValue(cfg, be, text))
  {
    Lexical.BasicFilterShape(text);
    assert TextBackend.PlainTerms(ai(text));
    var resp := Router.Route(env, Router.PostText(Router.JString(text)), ai(text), img);
    if RouteText(cfg, text).AskBackend? && text != "" && Router.ApiConfigured(env) {
      var res := TextBackend.FilterText(text, Router.AiEnvOf(env), ai(text));
      assert resp == Router.Reply(200, Router.TextBody(res));
      assert be.text(text) == Some(TextReply(res.hasExplicitContent, res.filtered));
    }
  }

  /** With a router-backed server, a whole text scan only masks characters of the page's text. */
  lemma TextScanOnlyMasks(st: Client, be: Backend, env: Router.Env,
                          ai: string -> TextBackend.TextPrediction, img: ImageBackend.ImagePrediction)
    requires RouterBacked(be, env, ai, img)
    ensures var r := FilterTextContent(st, be);
      forall n :: 0 <= n < |st.doc.texts| ==> MaskOf(st.doc.texts[n].value, r.doc.texts[n].value)
  {
    var r := FilterTextContent(st, be);
    forall n | 0 <= n < |st.doc.texts|
      ensures MaskOf(st.doc.texts[n].value, r.doc.texts[n].value)
    {
      NodeValueMasks(st.config, be, st.doc.texts[n].value, env, ai, img);
    }
  }

  // ---------------------------------------------------------------------------
  // The background store receiving reports and recovery requests

  /** One report reaching the background script: `updateStats`, then `addToHistory`. */
  function Deliver1(store: Background.Store, domain: string, timestamp: string, rep: Report): Background.Store {
    Background.AddToHistory(Background.UpdateStats(store, rep.kind), domain, rep.kind, rep.original, rep.replacement, timestamp)
  }

  /** Reports reaching the background script in the order they were sent. */
  function Deliver(store: Background.Store, domain: string, timestamp: string, reports: seq<Report>): Background.Store
    decreases |reports|
  {
    if reports == [] then store
    else Deliver(Deliver1(store, domain, timestamp, reports[0]), domain, timestamp, reports[1..])
  }

  /** How many reports are of a kind. */
  function Count(reports: seq<Report>, kind: string): (r: nat)
    ensures r <= |reports|
    ensures r == 0 <==> forall i :: 0 <= i < |reports| ==> reports[i].kind != kind
    ensures r == |reports| <==> forall i :: 0 <= i < |reports| ==> reports[i].kind == kind
  {
    if reports == [] then 0
    else
      assert forall i :: 1 <= i < |reports| ==> reports[1..][i - 1] == reports[i];
      (if reports[0].kind == kind then 1 else 0) + Count(reports[1..], kind)
  }

  /** Counting splits over consecutive runs of reports. */
  lemma {:induction false} CountAppend(a: seq<Report>, b: seq<Report>, kind: string)
    ensures Count(a + b, kind) == Count(a, kind) + Count(b, kind)
    decreases |a|
  {
    if a != [] {
      assert (a + b)[1..] == a[1..] + b;
      CountAppend(a[1..], b, kind);
    } else {
      assert a + b == b;
    }
  }

  /** Each report of kind `image` adds one to `imagesFiltered`, and each of kind `text` one to `textFiltered`. */
  lemma {:induction false} DeliverCounts(store: Background.Store, domain: string, timestamp: string, reports: seq<Report>)
    requires Background.StatsOf(store).Some?
    ensures var after := Background.StatsOf(Deliver(store, domain, timestamp, reports));
      && after.Some?
      && after.value.imagesFiltered == Background.StatsOf(store).value.imagesFiltered + Count(reports, "image")
      && after.value.textFiltered == Background.StatsOf(store).value.textFiltered + Count(reports, "text")
    decreases |reports|
  {
    if reports != [] {
      var rep := reports[0];
      var s1 := Background.UpdateStats(store, rep.kind);
      var s2 := Deliver1(store, domain, timestamp, rep);
      assert "stats" in s1.value;
      assert Background.StatsOf(s2) == Background.StatsOf(s1);
      DeliverCounts(s2, domain, timestamp, reports[1..]);
    }
  }

  /**
    An image the server says to filter is reported twice, once by the blur
    and once more after it, so the background counts it twice.
   */
  lemma ServerFilteredImageCountedTwice(st: Client, id: nat, be: Backend, store: Background.Store, domain: string, timestamp: string)
    requires id < |st.doc.images| && ApiSet(st.config) && be.image(id) == Replied(true) && !st.doc.images[id].filtered
    requires Background.StatsOf(store).Some?
    ensures var r := CheckImageWithBackend(st, id, be);
      var after := Deliver(store, domain, timestamp, r.outbox[|st.outbox|..]);
      && Background.StatsOf(after).Some?
      && Background.StatsOf(after).value.imagesFiltered == Background.StatsOf(store).value.imagesFiltered + 2
  {
    var r := CheckImageWithBackend(st, id, be);
    var src := st.doc.images[id].src;
    assert r.outbox[|st.outbox|..] == [Report("image", src, "blurred-image"), Report("image", src, "filtered-image")];
    DeliverCounts(store, domain, timestamp, r.outbox[|st.outbox|..]);
  }

  /**
    A recovery request carries one `type`. The page restores images for
    `image` while the history keeps them under `images`, so a request that
    restores an image never marks its history entry, and one that marks an
    image entry restores nothing.
   */
  lemma ImageRecoveryMismatch(store: Background.Store, c: Client, domain: string, kind: string, index: int)
    requires Wf(c)
    ensures kind != "text" && Recover(c, kind, index).outcome.Restored? ==>
      Background.MarkRecovered(store, domain, kind, index) == store
    ensures kind != "text" && Background.MarkRecovered(store, domain, kind, index) != store ==>
      Recover(c, kind, index).outcome.Ignored?
  {
    if kind != "text" && Background.MarkRecovered(store, domain, kind, index) != store {
      assert Background.EntryAt(store, domain, kind, index).Some?;
      assert kind == "images";
    }
  }

  /**
    For text both halves act on the index a request names: the page restores
    its ledger entry there and the background marks its history entry there.
    Whether those are the same redaction is another matter: see
    `RefreshForgetsMaskedText`.
   */
  lemma TextRecoveryMatches(store: Background.Store, c: Client, domain: string, index: int)
    requires Wf(c) && 0 <= index < |c.ledger.text|
    requires Background.EntryAt(store, domain, "text", index).Some?
    ensures Recover(c, "text", index).outcome.Restored?
    ensures Background.RecoveredAt(Background.MarkRecovered(store, domain, "text", index), domain, "text", index)
  {
  }

  /**
    The page's ledger starts again at every `startFiltering`, while the
    history only grows. Without `apiUrl`, a second start (a `refresh`) finds
    every node already masked: the page stays as it is and queues no report,
    yet its ledger is empty, so no text index restores anything any more,
    although the history still lists the first run's entries.
   */
  lemma RefreshForgetsMaskedText(st: Client, be: Backend)
    requires Enabled(st.config) && TextOn(st.config) && !ImagesOn(st.config) && !ApiSet(st.config)
    ensures var once := Content.StartFiltering(st, be);
      var twice := Content.StartFiltering(once, be);
      && twice.doc == once.doc && twice.outbox == once.outbox
      && twice.ledger.text == []
      && forall i :: Recover(twice, "text", i).outcome.Ignored?
  {
    var s0 := st.(ledger := EmptyLedger);
    var once := Content.StartFiltering(st, be);
    assert once == FilterTextContent(s0, be);
    ScannedIsQuiet(s0, be);
    var s1 := once.(ledger := EmptyLedger);
    assert Content.StartFiltering(once, be) == FilterTextContent(s1, be);
    assert FilterTextContent(s1, be) == s1;
  }
}
