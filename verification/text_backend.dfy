/**
  The backend's text verdict (backend/text_content_filteration.js): the local
  word filter with its list of found words, the rule that turns the AI
  prediction into a verdict, and `filterText`, which combines the two.

  The AI prediction is a parameter: the Vertex AI client and its protobuf
  values are outside the model.
 */
module TextBackend {
  import opened Common
  import opened Lexical

  // ---------------------------------------------------------------------------
  // applyBasicTextFilter

  /** The words of `ws` that occur in `text` as whole words, in list order. */
  function FoundWords(text: string, ws: seq<string>): seq<string> {
    if ws == [] then []
    else FoundWords(text, ws[..|ws| - 1]) + (if Occurs(text, ws[|ws| - 1]) then [ws[|ws| - 1]] else [])
  }

  lemma {:induction false} FoundWordsMembers(text: string, ws: seq<string>)
    ensures forall w :: w in FoundWords(text, ws) <==> w in ws && Occurs(text, w)
    ensures |FoundWords(text, ws)| <= |ws|
    ensures Distinct(ws) ==> Distinct(FoundWords(text, ws))
  {
    if ws != [] {
      var init := ws[..|ws| - 1];
      FoundWordsMembers(text, init);
      assert ws == init + [ws[|ws| - 1]];
      if Distinct(ws) {
        assert Distinct(init);
        assert ws[|ws| - 1] !in init;
      }
    }
  }

  /** The masked prefix of the word list no longer hides a later word. */
  lemma OccursAfterPrefix(text: string, ws: seq<string>, i: nat)
    requires CanonicalList(ws) && i < |ws|
    ensures Occurs(MaskWords(text, ws[..i]), ws[i]) <==> Occurs(text, ws[i])
  {
    assert CanonicalList(ws[..i]);
    MaskWordsMasks(text, ws[..i]);
    assert ws[i] !in ws[..i];
    OccursUnchanged(text, MaskWords(text, ws[..i]), ws[..i], ws[i]);
  }

  /**
    `applyBasicTextFilter`: for each listed word in order, `regex.test` on the
    text filtered so far decides whether the word is recorded, then the word
    is masked. The filtered text is the content script's mask, and `found`
    lists exactly the listed words that occur in the input, each once, in
    list order; it is empty exactly when the text is unchanged.
   */
  method BasicTextFilter(text: string) returns (filteredText: string, found: seq<string>)
    ensures filteredText == ApplyBasicFilter(text)
    ensures found == FoundWords(text, ExplicitWords)
    ensures forall w :: w in found <==> w in ExplicitWords && Occurs(text, w)
    ensures Distinct(found)
    ensures found == [] <==> filteredText == text
  {
    ExplicitWordsCanonical();
    filteredText := text;
    found := [];
    var i := 0;
    while i < |ExplicitWords|
      invariant 0 <= i <= |ExplicitWords|
      invariant filteredText == MaskWords(text, ExplicitWords[..i])
      invariant found == FoundWords(text, ExplicitWords[..i])
    {
      var w := ExplicitWords[i];
      OccursAfterPrefix(text, ExplicitWords, i);
      if Occurs(filteredText, w) {
        found := found + [w];
      }
      filteredText := ReplaceWord(filteredText, w);
      assert ExplicitWords[..i + 1][..i] == ExplicitWords[..i];
      i := i + 1;
    }
    assert ExplicitWords[..i] == ExplicitWords;
    FoundWordsMembers(text, ExplicitWords);
    BasicFilterIdentity(text);
    if found == [] {
      assert !AnyOccurs(text, ExplicitWords);
    } else {
      assert Occurs(text, found[0]);
    }
  }

  // ---------------------------------------------------------------------------
  // analyzeTextWithVertexAI

  /** The environment variables the AI text path needs, each set or not. */
  datatype AiEnv = AiEnv(credentials: bool, project: bool, endpoint: bool)

  /**
    What the prediction call produced: its fields, each possibly absent, or a
    thrown error (a failed call, a missing prediction, or a category that is
    not a string once the category check reaches it: a confidence above 0.7
    or an earlier explicit category ends the check before it).
   */
  datatype TextPrediction =
    | Predicted(confidence: Option<real>, categories: Option<seq<string>>, detectedTerms: Option<seq<string>>)
    | PredictionFailed

  datatype AiVerdict = AiVerdict(isExplicit: bool, confidence: real, categories: seq<string>, detectedTerms: seq<string>)

  /** The verdict used when the AI is not configured or fails. */
  const NoAi: AiVerdict := AiVerdict(false, 0.0, [], [])

  const ExplicitCategories: seq<string> := ["adult", "violence", "hate_speech", "harassment"]

  function FoldString(s: string): (r: string)
    ensures |r| == |s| && forall k :: 0 <= k < |s| ==> r[k] == Fold(s[k])
  {
    if s == [] then [] else [Fold(s[0])] + FoldString(s[1..])
  }

  /** `cat.toLowerCase()` is one of the explicit categories. */
  predicate ExplicitCategory(cat: string) {
    FoldString(cat) in ExplicitCategories
  }

  predicate AiConfigured(env: AiEnv) {
    env.credentials && env.project && env.endpoint
  }

  function AnalyzeText(env: AiEnv, p: TextPrediction): (r: AiVerdict)
    ensures !AiConfigured(env) || p.PredictionFailed? ==> r == NoAi
    ensures AiConfigured(env) && p.Predicted? ==>
      && r.confidence == (if p.confidence.Some? then p.confidence.value else 0.0)
      && r.categories == (if p.categories.Some? then p.categories.value else [])
      && r.detectedTerms == (if p.detectedTerms.Some? then p.detectedTerms.value else [])
    ensures r.isExplicit <==>
      r.confidence > 0.7 || exists i :: 0 <= i < |r.categories| && ExplicitCategory(r.categories[i])
  {
    if !AiConfigured(env) then NoAi
    else match p
      case PredictionFailed => NoAi
      case Predicted(conf, cats, terms) =>
        var confidence := NumberOr(conf, 0.0);
        var categories := cats.GetOr([]);
        var isExplicit := confidence > 0.7 || exists i :: 0 <= i < |categories| && ExplicitCategory(categories[i]);
        AiVerdict(isExplicit, confidence, categories, terms.GetOr([]))
  }

  // ---------------------------------------------------------------------------
  // filterText

  datatype TextResult = TextResult(original: string, filtered: string, hasExplicitContent: bool, ai: AiVerdict)

  /** Every AI-detected term is a plain word, so its pattern has no metacharacters. */
  predicate PlainTerms(p: TextPrediction) {
    p.Predicted? && p.detectedTerms.Some? ==>
      forall a :: 0 <= a < |p.detectedTerms.value| ==> PlainWord(p.detectedTerms.value[a])
  }

  /** The AI result is acted on only when it is explicit AND names terms. */
  predicate AiMasks(ai: AiVerdict) {
    ai.isExplicit && |ai.detectedTerms| > 0
  }

  function FilterText(text: string, env: AiEnv, p: TextPrediction): (r: TextResult)
    requires PlainTerms(p)
    ensures r.original == text
    ensures r.ai == AnalyzeText(env, p)
    ensures r.hasExplicitContent <==> AnyOccurs(text, ExplicitWords) || AiMasks(r.ai)
    ensures !AiMasks(r.ai) ==> r.filtered == ApplyBasicFilter(text)
    ensures AiMasks(r.ai) ==> r.filtered == MaskWords(ApplyBasicFilter(text), r.ai.detectedTerms)
    ensures |r.filtered| == |text|
    ensures forall k :: 0 <= k < |text| ==> r.filtered[k] in {text[k], Mask}
    ensures forall k :: 0 <= k < |text| && HitAny(text, ExplicitWords, k) ==> r.filtered[k] == Mask
    ensures r.filtered != text ==> r.hasExplicitContent
  {
    var local := ApplyBasicFilter(text);
    var found := FoundWords(text, ExplicitWords);
    var ai := AnalyzeText(env, p);
    BasicFilterMasks(text);
    BasicFilterIdentity(text);
    ExplicitWordsCanonical();
    FoundWordsMembers(text, ExplicitWords);
    assert |found| > 0 <==> AnyOccurs(text, ExplicitWords) by {
      if AnyOccurs(text, ExplicitWords) {
        var a :| 0 <= a < |ExplicitWords| && Occurs(text, ExplicitWords[a]);
        assert ExplicitWords[a] in found;
      }
      if |found| > 0 {
        assert found[0] in found;
      }
    }
    if AiMasks(ai) then
      MaskWordsOnlyMasks(local, ai.detectedTerms);
      TextResult(text, MaskWords(local, ai.detectedTerms), true, ai)
    else
      TextResult(text, local, |found| > 0, ai)
  }

  /** An explicit AI verdict that names no terms changes nothing. */
  lemma ExplicitWithoutTermsIsIgnored(text: string, env: AiEnv, conf: real, cats: seq<string>)
    requires AiConfigured(env) && conf > 0.7
    ensures FilterText(text, env, Predicted(Some(conf), Some(cats), Some([]))).filtered == ApplyBasicFilter(text)
    ensures FilterText(text, env, Predicted(Some(conf), Some(cats), Some([]))).hasExplicitContent
            == AnyOccurs(text, ExplicitWords)
    ensures FilterText(text, env, Predicted(Some(conf), Some(cats), Some([]))).ai.isExplicit
  {
  }

  /** A failing or unconfigured AI leaves only the local filter's verdict. */
  lemma NoAiMeansLocalOnly(text: string, env: AiEnv, p: TextPrediction)
    requires PlainTerms(p) && (!AiConfigured(env) || p.PredictionFailed?)
    ensures FilterText(text, env, p).filtered == ApplyBasicFilter(text)
    ensures FilterText(text, env, p).hasExplicitContent <==> FilterText(text, env, p).filtered != text
  {
    BasicFilterIdentity(text);
  }
}
