/**
 * The decisions of the login form (browser/Login.js): which message
 * `handleSubmit` shows, when it rewrites an AWS endpoint from http:// to
 * https://, when it issues the login request, and how an uploaded
 * configuration file fills the credential fields.
 *
 * The page protocol (`location.protocol`) is a parameter; the backend call
 * itself is represented by the credentials it would be sent.
 */
module Login {
  import opened Optional
  import opened Strings
  import opened Js

  /** The form's component state. */
  datatype Form = Form(
    accessKey: string,
    secretKey: string,
    endPoint: string,
    bucketName: string,
    jsonFileName: string)

  /** The fields `web.Login` is called with. */
  datatype Credentials = Credentials(accessKey: string, secretKey: string, endPoint: string, bucketName: string)

  datatype AlertKind = Info | Danger

  datatype Alert = Alert(kind: AlertKind, message: string)

  /** The refusals handleSubmit can end with. */
  datatype Message =
    | AccessKeyEmpty
    | SecretKeyEmpty
    | EndPointEmpty
    | AwsHttpsSyntax
    | AwsHttpSyntax
    | MixedProtocol
    | AddScheme
    | BucketRequired

  /** The (non-empty) text shown for each refusal. */
  function MessageText(m: Message): string
  {
    match m
    case AccessKeyEmpty => "Access Key cannot be empty"
    case SecretKeyEmpty => "Secret Key cannot be empty"
    case EndPointEmpty => "End point cannot be empty"
    case AwsHttpsSyntax => "For AWS S3 endpoints we recommend to use the following syntax: https://s3.[region].amazonaws.com (e.g. https://s3.us-east-1.amazonaws.com)"
    case AwsHttpSyntax => "For AWS S3 endpoints we recommend to use the following syntax: http://s3.[region].amazonaws.com (e.g. http://s3.us-east-1.amazonaws.com)"
    case MixedProtocol => "A http:// server cannot be accessed via a https:// browser frontend. Replace https:// with http:// in the CANcloud URL of your browser and hit enter."
    case AddScheme => "Please add http:// or https:// in front of your endpoint"
    case BucketRequired => "Bucket Name is required"
  }

  const AutoAdjustNotice := "Auto-adjusting endpoint prefix from http:// to https:// to enable login via https:// browser URL"
  const F12Hint := " - press F12 for details"
  const AwsHint := F12Hint + ". Check your AWS S3 region and ensure that you've set up CORS correctly for your S3 bucket (as per the AWS S3 setup guide)"
  const EncryptedKeyNotice := "The S3 secretKey in the Configuration File appears to be encrypted. The S3 details have therefore not been loaded"
  const NoServerNotice := "Unable to identify S3 server details in the Configuration File"

  /** The two region-less AWS endpoints the form warns about. */
  const BareAwsHttps := "https://s3.amazonaws.com"
  const BareAwsHttp := "http://s3.amazonaws.com"

  const HttpsPage := "https:"
  const AwsSuffix := ".amazonaws.com"

  // ---------------------------------------------------------------------------
  // The awsEndpoint pattern
  // ---------------------------------------------------------------------------

  /** One character of the region part: `-`, a lower-case letter or a digit. */
  predicate IsRegionChar(c: char) {
    c == '-' || ('a' <= c <= 'z') || ('0' <= c <= '9')
  }

  predicate IsRegion(r: string) {
    forall i :: 0 <= i < |r| ==> IsRegionChar(r[i])
  }

  /** `s3.` + region + `.amazonaws.com`, read from both ends. */
  predicate IsAwsHost(h: string) {
    |h| >= 3 + |AwsSuffix|
    && IsPrefix("s3.", h)
    && IsSuffix(AwsSuffix, h)
    && IsRegion(h[3..|h| - |AwsSuffix|])
  }

  /**
   * The `awsEndpoint` regular expression, anchored at both ends. String
   * `match` resets the global pattern's position, so the test has no memory.
   */
  predicate IsAwsEndpoint(e: string) {
    (IsPrefix("http://", e) && IsAwsHost(e[7..]))
    || (IsPrefix("https://", e) && IsAwsHost(e[8..]))
  }

  /** The URL the pattern describes, assembled from its parts. */
  function AwsUrl(scheme: string, region: string): string {
    scheme + "s3." + region + AwsSuffix
  }

  /** Reference reading of the pattern: a scheme, `s3.`, a region, the AWS domain. */
  ghost predicate MatchesAwsPattern(e: string) {
    exists scheme, region ::
      (scheme == "http://" || scheme == "https://") && IsRegion(region) && e == AwsUrl(scheme, region)
  }

  /** A host assembled from a region passes the host test. */
  lemma AwsHostOfRegion(region: string)
    requires IsRegion(region)
    ensures IsAwsHost("s3." + region + AwsSuffix)
  {
    var h := "s3." + region + AwsSuffix;
    assert h[..3] == "s3.";
    assert h[|h| - |AwsSuffix|..] == AwsSuffix;
    assert h[3..|h| - |AwsSuffix|] == region;
  }

  /** A host that passes the host test is assembled from its region. */
  lemma AwsHostRegion(h: string)
    requires IsAwsHost(h)
    ensures IsRegion(h[3..|h| - |AwsSuffix|])
    ensures h == "s3." + h[3..|h| - |AwsSuffix|] + AwsSuffix
  {
    assert h == h[..3] + h[3..|h| - |AwsSuffix|] + h[|h| - |AwsSuffix|..];
  }

  /** Every URL the pattern describes passes the string test. */
  lemma AwsUrlIsAwsEndpoint(scheme: string, region: string)
    requires scheme == "http://" || scheme == "https://"
    requires IsRegion(region)
    ensures IsAwsEndpoint(AwsUrl(scheme, region))
  {
    var host := "s3." + region + AwsSuffix;
    AwsHostOfRegion(region);
    assert AwsUrl(scheme, region) == scheme + host;
    ConcatParts(scheme, host);
  }

  /** An endpoint made of a scheme and a passing host is a URL the pattern describes. */
  lemma SchemeHostIsUrl(e: string, scheme: string)
    requires scheme == "http://" || scheme == "https://"
    requires IsPrefix(scheme, e) && IsAwsHost(e[|scheme|..])
    ensures MatchesAwsPattern(e)
  {
    var h := e[|scheme|..];
    AwsHostRegion(h);
    var region := h[3..|h| - |AwsSuffix|];
    assert e == scheme + h;
    assert e == AwsUrl(scheme, region);
  }

  /** Every endpoint that passes the string test is a URL the pattern describes. */
  lemma AwsEndpointIsUrl(e: string)
    requires IsAwsEndpoint(e)
    ensures MatchesAwsPattern(e)
  {
    if IsPrefix("http://", e) && IsAwsHost(e[7..]) {
      SchemeHostIsUrl(e, "http://");
    } else {
      SchemeHostIsUrl(e, "https://");
    }
  }

  /** The string test and the pattern describe the same endpoints. */
  lemma AwsEndpointIsPattern(e: string)
    ensures IsAwsEndpoint(e) <==> MatchesAwsPattern(e)
  {
    if IsAwsEndpoint(e) {
      AwsEndpointIsUrl(e);
    }
    if MatchesAwsPattern(e) {
      var scheme, region :| (scheme == "http://" || scheme == "https://") && IsRegion(region) && e == AwsUrl(scheme, region);
      AwsUrlIsAwsEndpoint(scheme, region);
    }
  }

  /** Every AWS endpoint ends in "com", so the configuration's "com" rule never sees one. */
  lemma AwsEndpointEndsInCom(e: string)
    requires IsAwsEndpoint(e)
    ensures IsSuffix("com", e)
  {
    var h := if IsPrefix("http://", e) && IsAwsHost(e[7..]) then e[7..] else e[8..];
    assert h[|h| - |AwsSuffix|..] == AwsSuffix;
    assert e[|e| - 3..] == h[|h| - 3..];
  }

  /** The two region-less endpoints do not match the pattern. */
  lemma BareAwsEndpointsAreNotAws()
    ensures !IsAwsEndpoint(BareAwsHttp) && !IsAwsEndpoint(BareAwsHttps)
  {
    assert |BareAwsHttp[7..]| < 3 + |AwsSuffix|;
    assert !IsPrefix("https://", BareAwsHttp) by { assert BareAwsHttp[4] != "https://"[4]; }
    assert |BareAwsHttps[8..]| < 3 + |AwsSuffix|;
    assert !IsPrefix("http://", BareAwsHttps) by { assert BareAwsHttps[4] != "http://"[4]; }
  }

  // ---------------------------------------------------------------------------
  // handleSubmit
  // ---------------------------------------------------------------------------

  /** `endPoint.substring(0, 5) == "http:"`. */
  predicate HasHttpPrefix(e: string) {
    Substring(e, 0, 5) == "http:"
  }

  /** `endPoint.substring(0, 6) == "https:"`. */
  predicate HasHttpsPrefix(e: string) {
    Substring(e, 0, 6) == "https:"
  }

  lemma SchemeTests(e: string)
    ensures HasHttpPrefix(e) <==> IsPrefix("http:", e)
    ensures HasHttpsPrefix(e) <==> IsPrefix("https:", e)
  {
    SubstringPrefixTest(e, "http:");
    SubstringPrefixTest(e, "https:");
  }

  /** The branch of handleSubmit that rewrites the endpoint instead of refusing it. */
  predicate AutoAdjusts(e: string, pageProtocol: string) {
    HasHttpPrefix(e) && pageProtocol == HttpsPage && IsAwsEndpoint(e)
  }

  /** `endPoint.replace("http://", "https://")`. */
  function AdjustEndpoint(e: string): (r: string)
    ensures IsPrefix("http://", e) ==> r == "https://" + e[7..]
    ensures !Contains(e, "http://") ==> r == e
  {
    var r := ReplaceFirst(e, "http://", "https://");
    assert IsPrefix("http://", e) ==> r == "https://" + e[7..] by {
      if IsPrefix("http://", e) {
        ReplaceFirstAtStart(e, "http://", "https://");
      }
    }
    assert !Contains(e, "http://") ==> r == e by {
      if !Contains(e, "http://") {
        ReplaceFirstAbsent(e, "http://", "https://");
      }
    }
    r
  }

  /** An AWS endpoint starting `http:` starts `http://`. */
  lemma HttpAwsEndpoint(e: string)
    requires IsAwsEndpoint(e) && IsPrefix("http:", e)
    ensures IsPrefix("http://", e) && IsAwsHost(e[7..])
  {
    assert !IsPrefix("https://", e) by { assert e[4] == ':'; }
  }

  /** On an AWS http:// endpoint the rewrite swaps the scheme and keeps the rest. */
  lemma AdjustEndpointResult(e: string)
    requires IsAwsEndpoint(e) && IsPrefix("http:", e)
    ensures IsPrefix("http://", e)
    ensures AdjustEndpoint(e) == "https://" + e[7..]
    ensures IsAwsEndpoint(AdjustEndpoint(e))
    ensures IsPrefix("https:", AdjustEndpoint(e)) && !IsPrefix("http:", AdjustEndpoint(e))
  {
    HttpAwsEndpoint(e);
    ReplaceFirstAtStart(e, "http://", "https://");
    var r := "https://" + e[7..];
    ConcatParts("https://", e[7..]);
    assert r[..6] == "https:";
    assert r[4] == 's';
  }

  /**
   * Reference definition of the chosen message, most important first: the
   * bucket, then the scheme, then mixed protocols, then the region-less AWS
   * endpoints, then the keys. `None` is the empty message.
   */
  function PriorityMessage(f: Form, pageProtocol: string): Option<Message> {
    var e := f.endPoint;
    if f.bucketName == "" then Some(BucketRequired)
    else if !IsPrefix("http:", e) && !IsPrefix("https:", e) then Some(AddScheme)
    else if IsPrefix("http:", e) && pageProtocol == HttpsPage && !IsAwsEndpoint(e) then Some(MixedProtocol)
    else if e == BareAwsHttp then Some(AwsHttpSyntax)
    else if e == BareAwsHttps then Some(AwsHttpsSyntax)
    else if f.secretKey == "" then Some(SecretKeyEmpty)
    else if f.accessKey == "" then Some(AccessKeyEmpty)
    else None
  }

  /** Every check passes: handleSubmit goes on to the login request. */
  predicate FormAccepted(f: Form, pageProtocol: string) {
    var e := f.endPoint;
    && f.bucketName != ""
    && (IsPrefix("http:", e) || IsPrefix("https:", e))
    && !(IsPrefix("http:", e) && pageProtocol == HttpsPage && !IsAwsEndpoint(e))
    && e != BareAwsHttp && e != BareAwsHttps
    && f.secretKey != "" && f.accessKey != ""
  }

  /**
   * The message handleSubmit ends with: the checks run in source order and a
   * later check overwrites the message an earlier one set. `None` stands for
   * the initial empty message.
   */
  function ValidationMessage(f: Form, pageProtocol: string): (m: Option<Message>)
    ensures m == PriorityMessage(f, pageProtocol)
    ensures m.None? <==> FormAccepted(f, pageProtocol)
    ensures f.bucketName == "" ==> m == Some(BucketRequired)
    ensures f.bucketName != "" && !IsPrefix("http:", f.endPoint) && !IsPrefix("https:", f.endPoint) ==> m == Some(AddScheme)
    ensures f.bucketName != "" && IsPrefix("http:", f.endPoint) && pageProtocol == HttpsPage && !IsAwsEndpoint(f.endPoint) ==> m == Some(MixedProtocol)
    ensures m != Some(EndPointEmpty)
  {
    var e := f.endPoint;
    SchemeTests(e);
    BareAwsEndpointsAreNotAws();
    var m0 := None;
    var m1 := if f.accessKey == "" then Some(AccessKeyEmpty) else m0;
    var m2 := if f.secretKey == "" then Some(SecretKeyEmpty) else m1;
    var m3 := if e == "" then Some(EndPointEmpty) else m2;
    var m4 := if e == BareAwsHttps then Some(AwsHttpsSyntax) else m3;
    var m5 := if e == BareAwsHttp then Some(AwsHttpSyntax) else m4;
    var m6 :=
      if AutoAdjusts(e, pageProtocol) then m5
      else if HasHttpPrefix(e) && pageProtocol == HttpsPage then Some(MixedProtocol)
      else m5;
    var m7 := if !HasHttpPrefix(e) && !HasHttpsPrefix(e) then Some(AddScheme) else m6;
    var m8 := if f.bucketName == "" then Some(BucketRequired) else m7;
    m8
  }

  /** What one press of the login button leaves behind. */
  datatype Submission = Submission(form: Form, alerts: seq<Alert>, request: Option<Credentials>)

  /**
   * handleSubmit with the rewritten endpoint sent to the backend: the alerts
   * shown in order, the form state afterwards, and the login request, if any.
   */
  function Submit(f: Form, pageProtocol: string): (r: Submission)
    ensures r.request.None? <==> ValidationMessage(f, pageProtocol).Some?
    ensures r.request.None? ==>
      |r.alerts| > 0 && r.alerts[|r.alerts| - 1] == Alert(Danger, MessageText(ValidationMessage(f, pageProtocol).value))
    ensures r.request.Some? ==> r.request.value == Credentials(f.accessKey, f.secretKey, r.form.endPoint, f.bucketName)
    ensures r.request.Some? ==>
      r.alerts == (if AutoAdjusts(f.endPoint, pageProtocol) then [Alert(Info, AutoAdjustNotice)] else [])
    ensures r.request.None? ==> |r.alerts| == (if AutoAdjusts(f.endPoint, pageProtocol) then 2 else 1)
    ensures AutoAdjusts(f.endPoint, pageProtocol) ==>
      && r.form == f.(endPoint := "https://" + f.endPoint[7..])
      && |r.alerts| > 0 && r.alerts[0] == Alert(Info, AutoAdjustNotice)
    ensures !AutoAdjusts(f.endPoint, pageProtocol) ==> r.form == f && Alert(Info, AutoAdjustNotice) !in r.alerts
    ensures pageProtocol == HttpsPage && r.request.Some? ==> !IsPrefix("http:", r.request.value.endPoint)
  {
    var adjusting := AutoAdjusts(f.endPoint, pageProtocol);
    SchemeTests(f.endPoint);
    assert adjusting ==>
      && AdjustEndpoint(f.endPoint) == "https://" + f.endPoint[7..]
      && !IsPrefix("http:", AdjustEndpoint(f.endPoint))
    by {
      if adjusting {
        AdjustEndpointResult(f.endPoint);
      }
    }
    var form := if adjusting then f.(endPoint := AdjustEndpoint(f.endPoint)) else f;
    var notices := if adjusting then [Alert(Info, AutoAdjustNotice)] else [];
    match ValidationMessage(f, pageProtocol)
    case Some(message) =>
      Submission(form, notices + [Alert(Danger, MessageText(message))], None)
    case None =>
      Submission(form, notices, Some(Credentials(form.accessKey, form.secretKey, form.endPoint, form.bucketName)))
  }

  /**
   * handleSubmit as written: the rewritten endpoint is stored with a deferred
   * `setState`, so the request still carries the endpoint as typed.
   */
  function SubmitAsWritten(f: Form, pageProtocol: string): (r: Submission)
    ensures r.form == Submit(f, pageProtocol).form && r.alerts == Submit(f, pageProtocol).alerts
    ensures r.request.None? <==> ValidationMessage(f, pageProtocol).Some?
    ensures r.request.Some? ==> r.request.value == Credentials(f.accessKey, f.secretKey, f.endPoint, f.bucketName)
  {
    var s := Submit(f, pageProtocol);
    if s.request.None? then s
    else s.(request := Some(Credentials(f.accessKey, f.secretKey, f.endPoint, f.bucketName)))
  }

  /**
   * Any AWS endpoint typed with http:// on an https:// page, with the other
   * fields filled: the form is rewritten and the notice shown, yet the
   * request as written goes out over http://.
   */
  lemma StaleEndpointSent(f: Form)
    requires IsAwsEndpoint(f.endPoint) && IsPrefix("http://", f.endPoint)
    requires f.accessKey != "" && f.secretKey != "" && f.bucketName != ""
    ensures SubmitAsWritten(f, HttpsPage).form.endPoint == "https://" + f.endPoint[7..]
    ensures SubmitAsWritten(f, HttpsPage).alerts == [Alert(Info, AutoAdjustNotice)]
    ensures SubmitAsWritten(f, HttpsPage).request
         == Some(Credentials(f.accessKey, f.secretKey, f.endPoint, f.bucketName))
    ensures IsPrefix("http:", SubmitAsWritten(f, HttpsPage).request.value.endPoint)
  {
    assert IsPrefix("http:", f.endPoint) by { assert f.endPoint[..5] == f.endPoint[..7][..5]; }
    SchemeTests(f.endPoint);
    BareAwsEndpointsAreNotAws();
    assert FormAccepted(f, HttpsPage);
  }

  /** The region of the example in the findings passes the pattern. */
  lemma StaleEndpointExample()
    ensures IsAwsEndpoint(AwsUrl("http://", "eu-west-1")) && IsPrefix("http://", AwsUrl("http://", "eu-west-1"))
  {
    assert IsRegion("eu-west-1");
    AwsUrlIsAwsEndpoint("http://", "eu-west-1");
  }

  /** The alert shown when the backend refuses the login. */
  function LoginFailureMessage(endPoint: string, error: string): (m: string)
    ensures IsPrefix(error + F12Hint, m)
    ensures |m| > |error + F12Hint| <==> IsAwsEndpoint(endPoint)
    ensures IsAwsEndpoint(endPoint) ==> m == error + AwsHint
    ensures !IsAwsEndpoint(endPoint) ==> m == error + F12Hint
  {
    assert (error + AwsHint)[..|error + F12Hint|] == error + F12Hint;
    if IsAwsEndpoint(endPoint) then error + AwsHint else error + F12Hint
  }

  /**
   * The failure handler reads the endpoint after the rewrite has landed; the
   * rewrite keeps an AWS endpoint AWS, so the hint is the one the typed
   * endpoint would get.
   */
  lemma FailureHintSurvivesRewrite(f: Form, pageProtocol: string, error: string)
    ensures LoginFailureMessage(Submit(f, pageProtocol).form.endPoint, error)
         == LoginFailureMessage(f.endPoint, error)
  {
    if AutoAdjusts(f.endPoint, pageProtocol) {
      SchemeTests(f.endPoint);
      AdjustEndpointResult(f.endPoint);
    }
  }

  // ---------------------------------------------------------------------------
  // The configuration file
  // ---------------------------------------------------------------------------

  /**
   * `connect.s3.server` of a parsed configuration file. The four text fields
   * are `None` when absent or null; `port` and `keyformat` keep their JSON
   * value, being a number in the usual file.
   */
  datatype ServerSection = ServerSection(
    keyformat: JsValue,
    endpoint: Option<string>,
    port: JsValue,
    accesskey: Option<string>,
    secretkey: Option<string>,
    bucket: Option<string>)

  datatype S3Section = S3Section(server: Option<ServerSection>)

  datatype ConnectSection = ConnectSection(s3: Option<S3Section>)

  datatype ConfigFile = ConfigFile(connect: Option<ConnectSection>)

  /** `cfg.connect && cfg.connect.s3 && cfg.connect.s3.server`, or nothing. */
  function ServerOf(cfg: ConfigFile): (r: Option<ServerSection>)
    ensures r.Some? <==> cfg.connect.Some? && cfg.connect.value.s3.Some? && cfg.connect.value.s3.value.server.Some?
    ensures r.Some? ==> r.value == cfg.connect.value.s3.value.server.value
  {
    match cfg.connect
    case None => None
    case Some(c) =>
      match c.s3
      case None => None
      case Some(s3) => s3.server
  }

  /**
   * The endpoint the configuration fills in: an AWS endpoint as it is, any
   * other endpoint not ending in "com" with `:port` appended (a MinIO server),
   * and nothing otherwise.
   */
  function ConfigEndpoint(endpoint: string, port: JsValue): (r: string)
    ensures IsAwsEndpoint(endpoint) ==> r == endpoint
    ensures !IsAwsEndpoint(endpoint) && !IsSuffix("com", endpoint) ==> r == endpoint + ":" + TextOrEmpty(port)
    ensures !IsAwsEndpoint(endpoint) && IsSuffix("com", endpoint) ==> r == ""
  {
    SubstringSuffixTest(endpoint, "com");
    if IsAwsEndpoint(endpoint) then endpoint
    else if SubstringFrom(endpoint, |endpoint| - 3) != "com" then endpoint + ":" + TextOrEmpty(port)
    else ""
  }

  /** The credential fields a usable server section fills in; a missing field becomes "". */
  function FormFromServer(f: Form, s: ServerSection): (r: Form)
    ensures r.accessKey == s.accesskey.GetOr("")
    ensures r.secretKey == s.secretkey.GetOr("")
    ensures r.bucketName == s.bucket.GetOr("")
    ensures r.endPoint == ConfigEndpoint(s.endpoint.GetOr(""), s.port)
    ensures r.jsonFileName == f.jsonFileName
  {
    f.(accessKey := s.accesskey.GetOr(""), secretKey := s.secretkey.GetOr(""),
       endPoint := ConfigEndpoint(s.endpoint.GetOr(""), s.port), bucketName := s.bucket.GetOr(""))
  }

  /** The outcome of reading a configuration file into the form. */
  datatype ConfigLoad = ConfigLoad(form: Form, alert: Option<Alert>)

  /**
   * The `fileReader.onload` handler: with a server section whose key format
   * equals 0 the four credential fields are replaced; otherwise the form is
   * left alone and an info alert explains why.
   */
  function LoadConfig(f: Form, cfg: ConfigFile): (r: ConfigLoad)
    ensures r.alert.Some? <==> ServerOf(cfg).None? || !LooseEqualsZero(ServerOf(cfg).value.keyformat)
    ensures r.alert.Some? ==> r.form == f && r.alert.value.kind == Info
    ensures ServerOf(cfg).None? ==> r.alert == Some(Alert(Info, NoServerNotice))
    ensures ServerOf(cfg).Some? && !LooseEqualsZero(ServerOf(cfg).value.keyformat) ==>
      r.alert == Some(Alert(Info, EncryptedKeyNotice))
    ensures r.alert.None? ==> r.form == FormFromServer(f, ServerOf(cfg).value)
  {
    match ServerOf(cfg)
    case None => ConfigLoad(f, Some(Alert(Info, NoServerNotice)))
    case Some(s) =>
      if LooseEqualsZero(s.keyformat) then ConfigLoad(FormFromServer(f, s), None)
      else ConfigLoad(f, Some(Alert(Info, EncryptedKeyNotice)))
  }

  /** An endpoint starting with neither scheme is refused with the scheme message, given a bucket. */
  lemma SchemelessRefused(f: Form, pageProtocol: string)
    requires f.bucketName != ""
    requires !IsPrefix("http:", f.endPoint) && !IsPrefix("https:", f.endPoint)
    ensures ValidationMessage(f, pageProtocol) == Some(AddScheme)
    ensures Submit(f, pageProtocol).request.None?
  {
  }

  /** An endpoint whose first character is not `h` carries neither scheme. */
  lemma NoSchemeStart(e: string)
    requires |e| > 0 && e[0] != 'h'
    ensures !IsPrefix("http:", e) && !IsPrefix("https:", e)
  {
  }

  /** A section without an endpoint fills in ":" and the port, which the scheme check refuses. */
  lemma LoadedMissingEndpointRefused(f: Form, s: ServerSection, pageProtocol: string)
    requires s.endpoint.None?
    requires s.bucket.GetOr("") != ""
    ensures FormFromServer(f, s).endPoint == ":" + TextOrEmpty(s.port)
    ensures ValidationMessage(FormFromServer(f, s), pageProtocol) == Some(AddScheme)
  {
    var e := ":" + TextOrEmpty(s.port);
    assert !IsAwsEndpoint("") && !IsSuffix("com", "");
    assert "" + ":" + TextOrEmpty(s.port) == e;
    NoSchemeStart(e);
    SchemelessRefused(FormFromServer(f, s), pageProtocol);
  }

  /**
   * A non-AWS endpoint ending in "com" is blanked, so the loaded form is
   * refused with the scheme message whenever it names a bucket.
   */
  lemma LoadedComEndpointRefused(f: Form, s: ServerSection, pageProtocol: string)
    requires !IsAwsEndpoint(s.endpoint.GetOr(""))
    requires IsSuffix("com", s.endpoint.GetOr(""))
    requires s.bucket.GetOr("") != ""
    ensures FormFromServer(f, s).endPoint == ""
    ensures ValidationMessage(FormFromServer(f, s), pageProtocol) == Some(AddScheme)
    ensures Submit(FormFromServer(f, s), pageProtocol).request.None?
  {
    SchemelessRefused(FormFromServer(f, s), pageProtocol);
  }

  /**
   * A section naming an AWS endpoint, both keys and a bucket logs in
   * directly, whatever the page protocol: an http:// endpoint is rewritten,
   * not refused.
   */
  lemma LoadedAwsConfigLogsIn(f: Form, s: ServerSection, pageProtocol: string)
    requires IsAwsEndpoint(s.endpoint.GetOr(""))
    requires s.accesskey.GetOr("") != "" && s.secretkey.GetOr("") != "" && s.bucket.GetOr("") != ""
    ensures FormFromServer(f, s).endPoint == s.endpoint.GetOr("")
    ensures Submit(FormFromServer(f, s), pageProtocol).request.Some?
  {
    var e := s.endpoint.GetOr("");
    BareAwsEndpointsAreNotAws();
    assert IsPrefix("http:", e) || IsPrefix("https:", e) by {
      if IsPrefix("http://", e) {
        assert e[..5] == e[..7][..5];
      } else {
        assert e[..6] == e[..8][..6];
      }
    }
    assert FormAccepted(FormFromServer(f, s), pageProtocol);
  }
}
