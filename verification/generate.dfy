/** The image-generation endpoint: authenticate, top up the welcome bonus,
    check the balance, validate the request, call the generative model and
    spend one credit only when an image comes back. */
module Generate {
  import opened Wrappers
  import opened Schema
  import opened Text
  import Credits

  const MAX_PROMPT_LENGTH: nat := 1000
  const MAX_IMAGE_SIZE: nat := 10 * 1024 * 1024

  /** The API key value shipped in the example configuration */
  const PLACEHOLDER_KEY: string := "your_api_key_here"

  // ----- request body -----

  /** A JSON field: missing, a string, or some other JSON value (null, number, ...) */
  datatype Field = Absent | Str(s: string) | NonString

  datatype GenerateBody = GenerateBody(prompt: Field, image: Field, style: Field)

  // ----- base64 check -----

  predicate IsBase64Char(c: char) {
    ('A' <= c <= 'Z') || ('a' <= c <= 'z') || ('0' <= c <= '9') || c == '+' || c == '/'
  }

  /** Strings matched by `^[A-Za-z0-9+/]*={0,2}$`: alphabet characters,
      then at most two `=`; the length need not be a multiple of four. */
  ghost predicate MatchesBase64Pattern(s: string) {
    SplitsAt(s, 0) || SplitsAt(s, 1) || SplitsAt(s, 2)
  }

  /** `s` is alphabet characters followed by exactly `k` `=` */
  ghost predicate SplitsAt(s: string, k: nat) {
    && k <= |s|
    && (forall i :: 0 <= i < |s| - k ==> IsBase64Char(s[i]))
    && (forall i :: |s| - k <= i < |s| ==> s[i] == '=')
  }

  /** Number of `=` characters ending `s` */
  function TrailingPadding(s: string): (n: nat)
    ensures n <= |s|
    ensures forall i :: |s| - n <= i < |s| ==> s[i] == '='
    ensures n < |s| ==> s[|s| - n - 1] != '='
  {
    if |s| > 0 && s[|s| - 1] == '=' then TrailingPadding(s[..|s| - 1]) + 1 else 0
  }

  /** `isValidBase64`: non-empty and matching the pattern */
  function IsValidBase64(s: string): (ok: bool)
    ensures ok <==> |s| > 0 && MatchesBase64Pattern(s)
  {
    PaddingSplit(s);
    |s| > 0 && TrailingPadding(s) <= 2
    && forall i :: 0 <= i < |s| - TrailingPadding(s) ==> IsBase64Char(s[i])
  }

  /** The pattern's split between alphabet and padding is forced: `=` is
      not an alphabet character, so the padding is exactly the trailing `=`s. */
  lemma PaddingSplit(s: string)
    ensures MatchesBase64Pattern(s) <==>
              TrailingPadding(s) <= 2 && forall i :: 0 <= i < |s| - TrailingPadding(s) ==> IsBase64Char(s[i])
  {
    var n := TrailingPadding(s);
    if MatchesBase64Pattern(s) {
      var k: nat :| k <= 2 && SplitsAt(s, k);
      SplitIsPadding(s, k);
    }
    if n <= 2 && forall i :: 0 <= i < |s| - n ==> IsBase64Char(s[i]) {
      assert SplitsAt(s, n);
    }
  }

  lemma SplitIsPadding(s: string, k: nat)
    requires SplitsAt(s, k)
    ensures k == TrailingPadding(s)
  {
    var n := TrailingPadding(s);
    if n > 0 {
      assert s[|s| - n] == '=';
    }
  }

  /** A valid base64 string is ASCII, so its JavaScript length is its character count. */
  lemma Base64IsAscii(s: string)
    requires IsValidBase64(s)
    ensures Utf16Length(s) == |s|
  {
    var n := TrailingPadding(s);
    forall i | 0 <= i < |s| ensures s[i] as int <= 0xFFFF {
      if i < |s| - n {
        assert IsBase64Char(s[i]);
      }
    }
  }

  /** The approximate decoded size, `length * 3 / 4` in floating point, exceeds 10 MiB. */
  predicate ImageTooLarge(image: string) {
    (Utf16Length(image) as real * 3.0) / 4.0 > MAX_IMAGE_SIZE as real
  }

  /** For a valid base64 image the size check is an integer bound on its
      length: at most 13981013 characters are accepted. */
  lemma ImageSizeBound(image: string)
    requires IsValidBase64(image)
    ensures ImageTooLarge(image) <==> 3 * |image| > 4 * MAX_IMAGE_SIZE
    ensures ImageTooLarge(image) <==> |image| > 13981013
  {
    Base64IsAscii(image);
  }

  // ----- prompt and request -----

  /** `style` takes part in the prompt when it is a string with something besides whitespace */
  predicate HasStyle(style: Field) {
    style.Str? && Trim(style.s) != ""
  }

  function FinalPrompt(prompt: string, style: Field): string {
    if HasStyle(style) then "in " + Trim(style.s) + " style: " + Trim(prompt) else Trim(prompt)
  }

  /** The final prompt is the trimmed prompt, preceded by the style clause
      when a style is given; it never begins or ends with whitespace. */
  lemma FinalPromptShape(prompt: string, style: Field)
    requires Trim(prompt) != ""
    ensures var r := FinalPrompt(prompt, style);
            && |r| >= |Trim(prompt)| && r[|r| - |Trim(prompt)|..] == Trim(prompt)
            && (HasStyle(style) <==> |r| > |Trim(prompt)|)
            && (HasStyle(style) ==> r[..3] == "in " && r[3..3 + |Trim(style.s)|] == Trim(style.s))
            && !IsJsWhitespace(r[0]) && !IsJsWhitespace(r[|r| - 1])
  {
    if HasStyle(style) {
      StyledPromptShape(Trim(style.s), Trim(prompt));
    }
  }

  lemma StyledPromptShape(st: string, p: string)
    requires |p| > 0 && !IsJsWhitespace(p[|p| - 1])
    ensures var r := "in " + st + " style: " + p;
            && |r| > |p| && r[|r| - |p|..] == p
            && r[..3] == "in " && r[3..3 + |st|] == st
            && !IsJsWhitespace(r[0]) && !IsJsWhitespace(r[|r| - 1])
  {
    var a := "in " + st;
    var r := a + " style: " + p;
    assert r[|r| - |p|..] == p;
    assert r[..3] == a[..3] == "in ";
    assert r[3..3 + |st|] == a[3..] == st;
    assert r[|r| - 1] == p[|p| - 1];
  }

  datatype RequestPart = TextPart(text: string) | InlineDataPart(mimeType: string, data: string)

  /** What the endpoint sends to the model: the prompt text, then the reference image if any */
  function RequestParts(finalPrompt: string, image: Field): (parts: seq<RequestPart>)
    ensures |parts| >= 1 && parts[0] == TextPart(finalPrompt)
    ensures |parts| == 2 <==> image.Str? && image.s != ""
    ensures |parts| <= 2
    ensures |parts| == 2 ==> parts[1] == InlineDataPart("image/png", image.s)
  {
    [TextPart(finalPrompt)]
    + (if image.Str? && image.s != "" then [InlineDataPart("image/png", image.s)] else [])
  }

  /** The outcome of request validation: a 400 message, or the parts to send */
  datatype Validation = Invalid(error: string) | Valid(parts: seq<RequestPart>)

  /** The prompt and image checks; `body` is None when it is not valid JSON. */
  function ValidateBody(body: Option<GenerateBody>): (v: Validation)
    ensures v.Valid? <==>
              && body.Some?
              && body.value.prompt.Str? && Trim(body.value.prompt.s) != ""
              && Utf16Length(body.value.prompt.s) <= MAX_PROMPT_LENGTH
              && (body.value.image.Absent?
                  || (body.value.image.Str? && IsValidBase64(body.value.image.s)
                      && !ImageTooLarge(body.value.image.s)))
    ensures v.Valid? ==> v.parts == RequestParts(FinalPrompt(body.value.prompt.s, body.value.style), body.value.image)
    ensures (body.Some? && body.value.image.Str? && IsValidBase64(body.value.image.s)
             && 3 * |body.value.image.s| > 4 * MAX_IMAGE_SIZE) ==> v.Invalid?
  {
    ImageSizeBoundOf(body);
    match body
    case None => Invalid("Invalid JSON in request body.")
    case Some(GenerateBody(prompt, image, style)) =>
      if !prompt.Str? || Trim(prompt.s) == "" then
        Invalid("Prompt is required and must be a non-empty string.")
      else if Utf16Length(prompt.s) > MAX_PROMPT_LENGTH then
        Invalid("Prompt must be " + NatToString(MAX_PROMPT_LENGTH) + " characters or less.")
      else if image.NonString? || (image.Str? && !IsValidBase64(image.s)) then
        Invalid("Image must be a valid base64 encoded string.")
      else if image.Str? && ImageTooLarge(image.s) then
        Invalid("Image size must be 10MB or less.")
      else
        Valid(RequestParts(FinalPrompt(prompt.s, style), image))
  }

  lemma ImageSizeBoundOf(body: Option<GenerateBody>)
    ensures body.Some? && body.value.image.Str? && IsValidBase64(body.value.image.s)
            ==> (ImageTooLarge(body.value.image.s) <==> 3 * |body.value.image.s| > 4 * MAX_IMAGE_SIZE)
  {
    if body.Some? && body.value.image.Str? && IsValidBase64(body.value.image.s) {
      ImageSizeBound(body.value.image.s);
    }
  }

  /** What a valid request sends upstream: a non-blank prompt ending with
      the trimmed user prompt, then, exactly when an image was given, that
      image as valid base64 of at most 13981013 characters. */
  lemma ValidRequestParts(body: Option<GenerateBody>)
    requires ValidateBody(body).Valid?
    ensures var parts := ValidateBody(body).parts;
            var p := Trim(body.value.prompt.s);
            && 1 <= |parts| <= 2 && parts[0].TextPart?
            && |parts[0].text| >= |p| > 0 && parts[0].text[|parts[0].text| - |p|..] == p
            && (|parts| == 2 <==> body.value.image.Str?)
            && (|parts| == 2 ==> && parts[1] == InlineDataPart("image/png", body.value.image.s)
                                 && IsValidBase64(parts[1].data) && |parts[1].data| <= 13981013)
  {
    var b := body.value;
    FinalPromptShape(b.prompt.s, b.style);
    if b.image.Str? {
      ImageSizeBound(b.image.s);
    }
  }

  /** Where the request was sent, the endpoint reports the model's answer:
      an image only from a 2xx reply, returned as the first inline part's
      data with one credit spent; any failure keeps its status and message
      and leaves the ledger as it was after the welcome bonus. */
  lemma UpstreamOutcomeReported(l: Ledger, u: UserId, apiKey: Option<string>, body: Option<GenerateBody>,
                                upstream: Upstream, bonusId: string, consumeId: string)
    ensures var res := HandleGenerate(l, Some(u), apiKey, body, upstream, bonusId, consumeId);
            res.request.Some? ==>
            && (Interpret(upstream).Image? ==>
                  && upstream.HttpResponse? && 200 <= upstream.status <= 299
                  && res.response.status == 200
                  && res.response.image == Some(FirstInlineData(upstream.body.candidates.value[0].parts.value).value.data))
            && (Interpret(upstream).Error? ==>
                  && res.response.status == Interpret(upstream).status && res.response.status != 200
                  && res.ledger == AfterBonus(l, u, bonusId))
  {
  }

  // ----- the model's answer -----

  datatype InlineData = InlineData(mimeType: string, data: string)

  datatype ResponsePart = ResponsePart(inlineData: Option<InlineData>)

  datatype Candidate = Candidate(parts: Option<seq<ResponsePart>>)

  /** The reply body: not JSON, or JSON with an optional error message and candidates */
  datatype ReplyBody = Unparseable | Reply(errorMessage: Option<string>, candidates: Option<seq<Candidate>>)

  /** What the call to the model produced: an HTTP response, the timeout
      abort, or any other failure (network error, exception) */
  datatype Upstream = HttpResponse(status: int, body: ReplyBody) | TimedOut | CallFailed

  /** The first response part carrying inline data (`Array.prototype.find`) */
  function FirstInlineData(parts: seq<ResponsePart>): (r: Option<InlineData>)
    ensures r.None? <==> forall i :: 0 <= i < |parts| ==> parts[i].inlineData.None?
    ensures r.Some? ==> exists i :: 0 <= i < |parts| && parts[i].inlineData == r
                         && forall j :: 0 <= j < i ==> parts[j].inlineData.None?
  {
    if |parts| == 0 then None
    else if parts[0].inlineData.Some? then parts[0].inlineData
    else
      FirstInlineDataTail(parts);
      FirstInlineData(parts[1..])
  }

  lemma FirstInlineDataTail(parts: seq<ResponsePart>)
    requires |parts| > 0 && parts[0].inlineData.None?
    ensures forall r: Option<InlineData> ::
              r.Some? && (exists i :: 0 <= i < |parts[1..]| && parts[1..][i].inlineData == r
                                     && forall j :: 0 <= j < i ==> parts[1..][j].inlineData.None?)
              ==> exists i :: 0 <= i < |parts| && parts[i].inlineData == r
                              && forall j :: 0 <= j < i ==> parts[j].inlineData.None?
  {
    forall r: Option<InlineData> |
      && r.Some?
      && (exists i :: 0 <= i < |parts[1..]| && parts[1..][i].inlineData == r
                      && forall j :: 0 <= j < i ==> parts[1..][j].inlineData.None?)
      ensures exists i :: 0 <= i < |parts| && parts[i].inlineData == r
                          && forall j :: 0 <= j < i ==> parts[j].inlineData.None?
    {
      var i :| 0 <= i < |parts[1..]| && parts[1..][i].inlineData == r
               && forall j :: 0 <= j < i ==> parts[1..][j].inlineData.None?;
      assert parts[i + 1].inlineData == r;
      assert forall j :: 0 <= j < i + 1 ==> parts[j].inlineData.None? by {
        forall j | 0 <= j < i + 1 ensures parts[j].inlineData.None? {
          if j > 0 { assert parts[j] == parts[1..][j - 1]; }
        }
      }
    }
  }

  /** An image came back: an OK response whose first candidate has a part with inline data */
  predicate YieldsImage(o: Upstream) {
    && o.HttpResponse? && 200 <= o.status <= 299 && o.body.Reply?
    && o.body.candidates.Some? && |o.body.candidates.value| > 0
    && o.body.candidates.value[0].parts.Some?
    && FirstInlineData(o.body.candidates.value[0].parts.value).Some?
  }

  /** The model's answer as the endpoint reports it */
  datatype Interpretation = Image(data: string) | Error(status: int, message: string)

  function Interpret(o: Upstream): (r: Interpretation)
    ensures r.Image? <==> YieldsImage(o)
    ensures r.Error? ==> r.status in {429, 500, 504}
    ensures r.Error? && r.status == 504 <==> o.TimedOut?
    ensures r.Error? && r.status == 429 <==> o.HttpResponse? && o.status == 429
    ensures o.HttpResponse? && !(200 <= o.status <= 299) && o.status != 429 ==> r.Error? && r.status == 500
    ensures r.Image? ==> r.data == FirstInlineData(o.body.candidates.value[0].parts.value).value.data
  {
    match o
    case TimedOut => Error(504, "Request timed out. Please try again.")
    case CallFailed => Error(500, "An unexpected error occurred.")
    case HttpResponse(status, body) =>
      if !(200 <= status <= 299) then
        if status == 429 then Error(429, "Rate limit exceeded. Please try again later.")
        else if status == 401 || status == 403 then Error(500, "Invalid API key.")
        else if body.Reply? && body.errorMessage.Some? && body.errorMessage.value != "" then
          Error(500, body.errorMessage.value)
        else Error(500, "API error: " + IntToString(status))
      else
        match body
        case Unparseable => Error(500, "An unexpected error occurred.")
        case Reply(_, candidates) =>
          if candidates.None? || |candidates.value| == 0 then
            Error(500, "No response generated from the model.")
          else if candidates.value[0].parts.None? || |candidates.value[0].parts.value| == 0 then
            Error(500, "Empty response from the model.")
          else
            match FirstInlineData(candidates.value[0].parts.value)
            case None => Error(500, "No image was generated. Try a different prompt.")
            case Some(d) => Image(d.data)
  }

  // ----- the endpoint -----

  datatype ApiResponse = ApiResponse(status: int, success: bool, image: Option<string>,
                                     error: Option<string>, code: Option<string>)

  /** The response, the ledger afterwards, and the request parts sent to the
      model when the call was made */
  datatype GenerateResult = GenerateResult(response: ApiResponse, ledger: Ledger, request: Option<seq<RequestPart>>)

  function Failure(status: int, error: string, ledger: Ledger, request: Option<seq<RequestPart>>): GenerateResult {
    GenerateResult(ApiResponse(status, false, None, Some(error), None), ledger, request)
  }

  predicate ApiKeyConfigured(apiKey: Option<string>) {
    apiKey.Some? && apiKey.value != "" && apiKey.value != PLACEHOLDER_KEY
  }

  /** The ledger once the welcome bonus has been ensured for `u` */
  function AfterBonus(l: Ledger, u: UserId, bonusId: string): Ledger {
    Credits.EnsureFreeCredits(l, u, bonusId)
  }

  /** The generation `POST` handler. `user` is the authenticated user, if
      any; `apiKey` the configured key; `body` the parsed request (None when
      not JSON); `upstream` what the call to the model produced; `bonusId`
      and `consumeId` fresh ids of credit records. */
  function HandleGenerate(l: Ledger, user: Option<UserId>, apiKey: Option<string>, body: Option<GenerateBody>,
                          upstream: Upstream, bonusId: string, consumeId: string): (res: GenerateResult)
    ensures user.None? ==> res.response.status == 401 && res.ledger == l && res.request.None?
    ensures user.Some? ==>
              var l1 := AfterBonus(l, user.value, bonusId);
              && (res.response.status == 402 <==> Credits.GetUserCredits(l1, user.value) <= 0)
              && (res.response.status == 402 ==> res.response.code == Some("NO_CREDITS"))
              && (res.response.status != 200 ==> res.ledger == l1)
    ensures res.request.Some? <==>
              && user.Some? && Credits.GetUserCredits(AfterBonus(l, user.value, bonusId), user.value) > 0
              && ApiKeyConfigured(apiKey) && ValidateBody(body).Valid?
    ensures res.request.Some? ==> res.request.value == ValidateBody(body).parts
    ensures user.Some? && Credits.GetUserCredits(AfterBonus(l, user.value, bonusId), user.value) > 0
            && !ApiKeyConfigured(apiKey)
            ==> res.response.status == 500 && res.response.error == Some("API key is not configured.")
    ensures user.Some? && Credits.GetUserCredits(AfterBonus(l, user.value, bonusId), user.value) > 0
            && ApiKeyConfigured(apiKey) && ValidateBody(body).Invalid?
            ==> res.response.status == 400 && res.response.error == Some(ValidateBody(body).error)
    ensures res.request.Some? && Interpret(upstream).Error?
            ==> res.response.status == Interpret(upstream).status
                && res.response.error == Some(Interpret(upstream).message)
    ensures res.response.status == 200 <==> res.request.Some? && YieldsImage(upstream)
    ensures res.response.status == 200 ==>
              var l1 := AfterBonus(l, user.value, bonusId);
              && res.response.success && res.response.image == Some(Interpret(upstream).data)
              && Credits.ConsumeCredit(l1, user.value, consumeId).0
              && res.ledger == Credits.ConsumeCredit(l1, user.value, consumeId).1
              && Credits.GetUserCredits(res.ledger, user.value) == Credits.GetUserCredits(l1, user.value) - 1
    ensures res.response.status != 200 ==> !res.response.success
  {
    match user
    case None => Failure(401, "Please sign in to generate images.", l, None)
    case Some(u) =>
      var l1 := AfterBonus(l, u, bonusId);
      if Credits.GetUserCredits(l1, u) <= 0 then
        GenerateResult(ApiResponse(402, false, None, Some("No credits remaining. Please purchase more credits."),
                                   Some("NO_CREDITS")), l1, None)
      else if !ApiKeyConfigured(apiKey) then
        Failure(500, "API key is not configured.", l1, None)
      else
        match ValidateBody(body)
        case Invalid(e) => Failure(400, e, l1, None)
        case Valid(parts) =>
          match Interpret(upstream)
          case Error(status, e) => Failure(status, e, l1, Some(parts))
          case Image(data) =>
            var spent := Credits.ConsumeCredit(l1, u, consumeId);
            GenerateResult(ApiResponse(200, true, Some(data), None, None), spent.1, Some(parts))
  }

  /** A credit is spent only when an image is returned: on every other
      outcome the user's balance is what it was after the welcome bonus, and
      no other user's balance ever moves. */
  lemma DeductOnSuccessOnly(l: Ledger, u: UserId, apiKey: Option<string>, body: Option<GenerateBody>,
                            upstream: Upstream, bonusId: string, consumeId: string)
    ensures var res := HandleGenerate(l, Some(u), apiKey, body, upstream, bonusId, consumeId);
            var before := Credits.GetUserCredits(AfterBonus(l, u, bonusId), u);
            Credits.GetUserCredits(res.ledger, u) == (if res.response.status == 200 then before - 1 else before)
    ensures var res := HandleGenerate(l, Some(u), apiKey, body, upstream, bonusId, consumeId);
            forall v :: v != u ==> Credits.GetUserCredits(res.ledger, v) == Credits.GetUserCredits(l, v)
  {
    var l1 := AfterBonus(l, u, bonusId);
    Credits.OperationsIsolateUsers(l, u, 0, None, None, bonusId);
    forall v | v != u
      ensures Credits.GetUserCredits(l1, v) == Credits.GetUserCredits(l, v)
    {
      if Credits.GrantedTotal(l, u) == 0 {
        assert l1 == Credits.GrantCredits(l, u, Credits.FREE_CREDITS, None, Some("Welcome bonus - free credits"), bonusId);
      }
    }
  }

  /** A user who has never been granted credits gets the bonus first, so is
      never refused for lack of credits. */
  lemma NewUserNeverRefused(l: Ledger, u: UserId, apiKey: Option<string>, body: Option<GenerateBody>,
                            upstream: Upstream, bonusId: string, consumeId: string)
    requires Credits.GrantedTotal(l, u) == 0
    ensures HandleGenerate(l, Some(u), apiKey, body, upstream, bonusId, consumeId).response.status != 402
  {
  }
}
