/**
  The backend's image verdict (backend/image_filteration.js): score
  defaulting, thresholds, the ordered category list, the confidence, and the
  result shapes of `analyzeImageWithVertexAI` and `filterImage`.

  The prediction is a parameter; the Vertex AI client is outside the model.
 */
module ImageBackend {
  import opened Common

  /** The score fields of a prediction, each possibly absent. */
  datatype ScoreFields = ScoreFields(
    safe: Option<real>, adult: Option<real>, violence: Option<real>,
    medical: Option<real>, racy: Option<real>)

  /** The outcome of the prediction call: scores, or an error thrown anywhere in the analysis. */
  datatype ImagePrediction = Scored(fields: ScoreFields) | AnalysisFailed

  datatype Scores = Scores(adult: real, violence: real, medical: real, racy: real)

  datatype Analysis = Analysis(
    isExplicit: bool, confidence: real, categories: seq<Category>, safeScore: real,
    scores: Scores, failed: bool)

  /** The reported categories; `Name` gives the string the JSON result carries. */
  datatype Category = Adult | Violence | Medical | Racy

  function Name(c: Category): string {
    match c
    case Adult => "adult"
    case Violence => "violence"
    case Medical => "medical"
    case Racy => "racy"
  }

  /** Position of a category in the order the analysis pushes them. */
  function Rank(c: Category): nat {
    match c
    case Adult => 0
    case Violence => 1
    case Medical => 2
    case Racy => 3
  }

  const AdultThreshold: real := 0.7
  const ViolenceThreshold: real := 0.7
  const MedicalThreshold: real := 0.7
  const RacyThreshold: real := 0.8
  const SafeThreshold: real := 0.5

  /** The explicitness rule, over the defaulted scores. */
  predicate ExplicitScores(s: Scores, safe: real) {
    s.adult > AdultThreshold || s.violence > ViolenceThreshold || s.racy > RacyThreshold || safe < SafeThreshold
  }

  function Max(a: real, b: real): (r: real)
    ensures r >= a && r >= b && (r == a || r == b)
  {
    if a >= b then a else b
  }

  /** The categories over their thresholds, each at most once, in `Rank` order. */
  function Categories(s: Scores): (r: seq<Category>)
    ensures Adult in r <==> s.adult > AdultThreshold
    ensures Violence in r <==> s.violence > ViolenceThreshold
    ensures Medical in r <==> s.medical > MedicalThreshold
    ensures Racy in r <==> s.racy > RacyThreshold
    ensures forall a, b :: 0 <= a < b < |r| ==> Rank(r[a]) < Rank(r[b])
  {
    (if s.adult > AdultThreshold then [Adult] else [])
    + (if s.violence > ViolenceThreshold then [Violence] else [])
    + (if s.medical > MedicalThreshold then [Medical] else [])
    + (if s.racy > RacyThreshold then [Racy] else [])
  }

  const FailedAnalysis: Analysis :=
    Analysis(false, 0.0, [], 1.0, Scores(0.0, 0.0, 0.0, 0.0), true)

  function AnalyzeImage(p: ImagePrediction): (r: Analysis)
    ensures p.AnalysisFailed? ==> r == FailedAnalysis
    ensures p.Scored? ==>
      && !r.failed
      && r.safeScore == (if p.fields.safe.Some? && p.fields.safe.value != 0.0 then p.fields.safe.value else 1.0)
      && r.scores.adult == (if p.fields.adult.Some? then p.fields.adult.value else 0.0)
      && r.scores.violence == (if p.fields.violence.Some? then p.fields.violence.value else 0.0)
      && r.scores.medical == (if p.fields.medical.Some? then p.fields.medical.value else 0.0)
      && r.scores.racy == (if p.fields.racy.Some? then p.fields.racy.value else 0.0)
      && (r.isExplicit <==> ExplicitScores(r.scores, r.safeScore))
      && r.confidence >= r.scores.adult && r.confidence >= r.scores.violence && r.confidence >= r.scores.racy
      && r.confidence in {r.scores.adult, r.scores.violence, r.scores.racy}
      && (Adult in r.categories <==> r.scores.adult > 0.7)
      && (Violence in r.categories <==> r.scores.violence > 0.7)
      && (Medical in r.categories <==> r.scores.medical > 0.7)
      && (Racy in r.categories <==> r.scores.racy > 0.8)
    ensures forall a, b :: 0 <= a < b < |r.categories| ==> Rank(r.categories[a]) < Rank(r.categories[b])
  {
    match p
    case AnalysisFailed => FailedAnalysis
    case Scored(f) =>
      var safe := NumberOr(f.safe, 1.0);
      var s := Scores(NumberOr(f.adult, 0.0), NumberOr(f.violence, 0.0), NumberOr(f.medical, 0.0), NumberOr(f.racy, 0.0));
      Analysis(ExplicitScores(s, safe), Max(Max(s.adult, s.violence), s.racy), Categories(s), safe, s, false)
  }

  /** The image bytes handed to `filterImage`; encoding a missing buffer throws. */
  datatype ImageBuffer = Buffer(bytes: seq<bv8>) | MissingBuffer

  datatype ImageResult = ImageResult(
    shouldFilter: bool, confidence: real, categories: seq<Category>, safeScore: real, failed: bool)

  /** The result when `filterImage` itself catches an error. */
  const OuterFailure: ImageResult := ImageResult(false, 0.0, [], 0.0, true)

  function FilterImage(buffer: ImageBuffer, p: ImagePrediction): (r: ImageResult)
    ensures buffer.MissingBuffer? ==> r == OuterFailure
    ensures buffer.Buffer? ==>
      var a := AnalyzeImage(p);
      r == ImageResult(a.isExplicit, a.confidence, a.categories, a.safeScore, false)
  {
    match buffer
    case MissingBuffer => OuterFailure
    case Buffer(_) =>
      var a := AnalyzeImage(p);
      ImageResult(a.isExplicit, a.confidence, a.categories, a.safeScore, false)
  }

  // ---------------------------------------------------------------------------
  // Properties relating predictions

  /** The medical score adds a category but never makes an image explicit or changes the confidence. */
  lemma MedicalNeverDecides(f: ScoreFields, m: Option<real>)
    ensures AnalyzeImage(Scored(f)).isExplicit == AnalyzeImage(Scored(f.(medical := m))).isExplicit
    ensures AnalyzeImage(Scored(f)).confidence == AnalyzeImage(Scored(f.(medical := m))).confidence
  {
  }

  /** A safe score of exactly 0 is read as 1.0, so it alone never makes the image explicit. */
  lemma ZeroSafeScoreIsSafe(f: ScoreFields)
    requires f.safe == Some(0.0)
    ensures AnalyzeImage(Scored(f)).safeScore == 1.0
    ensures AnalyzeImage(Scored(f)) == AnalyzeImage(Scored(f.(safe := None)))
  {
  }

  /** A failed analysis is reported as "do not filter", whatever the image. */
  lemma FailureNeverFilters(buffer: ImageBuffer)
    ensures !FilterImage(buffer, AnalysisFailed).shouldFilter
    ensures FilterImage(buffer, AnalysisFailed).categories == []
  {
  }

  /** The scenario of a prediction with only `adult: 0.9`. */
  lemma AdultOnly(bytes: seq<bv8>)
    ensures FilterImage(Buffer(bytes), Scored(ScoreFields(None, Some(0.9), None, None, None)))
            == ImageResult(true, 0.9, [Adult], 1.0, false)
  {
  }
}
