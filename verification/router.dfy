/**
  The backend router (backend/app.js) as a pure function from the
  environment flags and one request to the response: the "API configured"
  middleware, request validation on the two filter routes, and the method
  lists of the welcome and health routes.

  The two AI predictions are parameters; `filterText` and `filterImage` are
  the functions of the text and image backend modules.
 */
module Router {
  import opened Common
  import TextBackend
  import ImageBackend

  /** Which environment variables are set (non-empty). */
  datatype Env = Env(googleCredentials: bool, deepaiKey: bool, cloudProject: bool, textEndpoint: bool)

  /** A field of the parsed JSON body: absent, a string, or some other JSON value with its truthiness. */
  datatype JsonField = Absent | JString(s: string) | JOther(truthy: bool)

  /** An uploaded multipart `image` file. */
  datatype Upload = Upload(bytes: seq<bv8>)

  datatype Request =
    | GetRoot
    | PostText(text: JsonField)
    | PostImage(file: Option<Upload>, requested: Option<string>)
    | GetHealth
    | OtherPath

  datatype Body =
    | Error(message: string)
    | TextBody(text: TextBackend.TextResult)
    | ImageBody(image: ImageBackend.ImageResult)
    | Welcome(available: seq<string>, defaultMethod: string)
    | Health(imageAvailable: bool, methods: seq<string>, textAvailable: bool)

  datatype Response =
    | Reply(status: int, body: Body)
    /** `next()`: the router has no route for the request. */
    | NotHandled
    /** `next(err)`: the upload middleware rejected the file; the server's error handler answers. */
    | UploadRejected

  /** multer's `fileSize` limit. */
  const MaxUploadBytes: nat := 5 * 1024 * 1024

  const NotConfiguredMessage: string :=
    "No image filtering API configured. Please set up either Google Cloud credentials or DeepAI API key."

  /** `availableMethods`: `vertex` when credentials are set, then `deepai` when the key is set. */
  function AvailableMethods(env: Env): (r: seq<string>)
    ensures "vertex" in r <==> env.googleCredentials
    ensures "deepai" in r <==> env.deepaiKey
    ensures forall i :: 0 <= i < |r| ==> r[i] in {"vertex", "deepai"}
    ensures |r| == 2 ==> r == ["vertex", "deepai"]
    ensures |r| <= 2
  {
    (if env.googleCredentials then ["vertex"] else []) + (if env.deepaiKey then ["deepai"] else [])
  }

  /** `req.body.method || 'auto'`. */
  function MethodOf(m: Option<string>): string {
    if m.None? || m.value == "" then "auto" else m.value
  }

  /** Validation of `/filter/image` after the file check: the error message, if any. */
  function MethodError(env: Env, name: string): (r: Option<string>)
    ensures r.None? <==>
      name == "auto" || (name == "vertex" && env.googleCredentials) || (name == "deepai" && env.deepaiKey)
  {
    if name != "auto" && name != "vertex" && name != "deepai" then
      Some("Invalid method. Use 'auto', 'vertex', or 'deepai'.")
    else if name == "vertex" && !env.googleCredentials then
      Some("Google Vertex AI is not configured. Use 'deepai' or 'auto' instead.")
    else if name == "deepai" && !env.deepaiKey then
      Some("DeepAI is not configured. Use 'vertex' or 'auto' instead.")
    else None
  }

  /** The body of the welcome route. */
  function WelcomeBody(env: Env): (b: Body)
    ensures b.Welcome? && b.available == AvailableMethods(env)
    ensures b.defaultMethod == "auto" <==> |b.available| > 0
    ensures b.defaultMethod in {"auto", "none"}
  {
    var methods := AvailableMethods(env);
    Welcome(methods, if |methods| > 0 then "auto" else "none")
  }

  /** The body of the health route. */
  function HealthBody(env: Env): (b: Body)
    ensures b.Health? && b.methods == AvailableMethods(env)
    ensures b.imageAvailable <==> env.googleCredentials || env.deepaiKey
    ensures b.textAvailable <==> env.googleCredentials
  {
    var methods := AvailableMethods(env);
    Health(|methods| > 0, methods, env.googleCredentials)
  }

  predicate ApiConfigured(env: Env) {
    env.googleCredentials || env.deepaiKey
  }

  function AiEnvOf(env: Env): TextBackend.AiEnv {
    TextBackend.AiEnv(env.googleCredentials, env.cloudProject, env.textEndpoint)
  }

  /**
    One request through the router. The AI predictions are those the
    analysis would receive if it ran; terms in the text prediction are plain
    words.
   */
  function Route(env: Env, req: Request, textAi: TextBackend.TextPrediction, imageAi: ImageBackend.ImagePrediction): (r: Response)
    requires TextBackend.PlainTerms(textAi)
    ensures !ApiConfigured(env) ==> r == Reply(500, Error(NotConfiguredMessage))
    ensures ApiConfigured(env) && req.PostText? ==>
      (r.Reply? && r.status == 400 <==> req.text.Absent? || req.text == JString("") || req.text == JOther(false))
    ensures ApiConfigured(env) && req.PostText? && req.text.JString? && req.text.s != "" ==>
      r == Reply(200, TextBody(TextBackend.FilterText(req.text.s, AiEnvOf(env), textAi)))
    ensures ApiConfigured(env) && req.PostText? && (req.text.Absent? || req.text == JString("") || req.text == JOther(false)) ==>
      r == Reply(400, Error("No text provided"))
    ensures ApiConfigured(env) && req.PostText? && req.text == JOther(true) ==> r.Reply? && r.status == 500
    ensures ApiConfigured(env) && req.PostImage? && req.file.Some? && |req.file.value.bytes| > MaxUploadBytes ==>
      r == UploadRejected
    ensures ApiConfigured(env) && req.PostImage? && req.file.None? ==> r == Reply(400, Error("No image provided"))
    ensures ApiConfigured(env) && req.PostImage? && req.file.Some? && |req.file.value.bytes| <= MaxUploadBytes ==>
      (r.Reply? && r.status == 200 <==> MethodError(env, MethodOf(req.requested)).None?)
    ensures ApiConfigured(env) && req.PostImage? && req.file.Some? && |req.file.value.bytes| <= MaxUploadBytes ==>
      var e := MethodError(env, MethodOf(req.requested));
      && (e.Some? ==> r == Reply(400, Error(e.value)))
      && (e.None? ==> r == Reply(200, ImageBody(ImageBackend.FilterImage(ImageBackend.Buffer(req.file.value.bytes), imageAi))))
    ensures ApiConfigured(env) && req.GetRoot? ==> r == Reply(200, WelcomeBody(env))
    ensures ApiConfigured(env) && req.GetHealth? ==> r == Reply(200, HealthBody(env))
    ensures ApiConfigured(env) && req.OtherPath? ==> r == NotHandled
    ensures r.Reply? ==> r.status in {200, 400, 500}
  {
    if !ApiConfigured(env) then Reply(500, Error(NotConfiguredMessage))
    else match req
      case GetRoot => Reply(200, WelcomeBody(env))
      case PostText(text) =>
        (match text
         case Absent => Reply(400, Error("No text provided"))
         case JString(s) =>
           if s == "" then Reply(400, Error("No text provided"))
           else Reply(200, TextBody(TextBackend.FilterText(s, AiEnvOf(env), textAi)))
         case JOther(truthy) =>
           // a truthy non-string makes `filteredText.replace` throw inside `filterText`
           if !truthy then Reply(400, Error("No text provided"))
           else Reply(500, Error("filteredText.replace is not a function")))
      case PostImage(file, m) =>
        if file.Some? && |file.value.bytes| > MaxUploadBytes then UploadRejected
        else if file.None? then Reply(400, Error("No image provided"))
        else
          var err := MethodError(env, MethodOf(m));
          if err.Some? then Reply(400, Error(err.value))
          else Reply(200, ImageBody(ImageBackend.FilterImage(ImageBackend.Buffer(file.value.bytes), imageAi)))
      case GetHealth => Reply(200, HealthBody(env))
      case OtherPath => NotHandled
  }

  /** Once past the middleware some method is available, so the default is `auto` and image filtering is on. */
  lemma ConfiguredRoutesAdvertiseImages(env: Env, t: TextBackend.TextPrediction, i: ImageBackend.ImagePrediction)
    requires ApiConfigured(env) && TextBackend.PlainTerms(t)
    ensures Route(env, GetRoot, t, i).body.defaultMethod == "auto"
    ensures Route(env, GetHealth, t, i).body.imageAvailable
  {
  }

  /** A missing file is reported before the method is looked at. */
  lemma MissingFileFirst(env: Env, m: Option<string>, t: TextBackend.TextPrediction, i: ImageBackend.ImagePrediction)
    requires ApiConfigured(env) && TextBackend.PlainTerms(t)
    ensures Route(env, PostImage(None, m), t, i) == Reply(400, Error("No image provided"))
  {
  }
}
