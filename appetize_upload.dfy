/**
 * The mock Appetize.io upload client of the repository's upload tests: request
 * validation with a fixed order of checks and messages, public-key generation
 * from a counter, and the app and embed URLs built from the key.
 */
module AppetizeUpload {
  import opened Optional
  import opened Decimal

  const INVALID_TOKEN: string := "Invalid API token"
  const APK_PATH_REQUIRED: string := "APK path is required"
  const INVALID_PLATFORM: string := "Invalid platform"
  const KEY_PREFIX: string := "test_mock_"
  const APP_URL_PREFIX: string := "https://appetize.io/app/"
  const EMBED_URL_PREFIX: string := "https://appetize.io/embed/"

  /**
   * Kotlin's `Char.isWhitespace()` on the JVM: `Character.isWhitespace` or
   * `Character.isSpaceChar`, that is the ASCII controls TAB to CR and FS to US,
   * and the space, line and paragraph separators of Unicode.
   */
  predicate IsWhitespace(c: char) {
    || '\t' <= c <= '\r'
    || '\U{001C}' <= c <= '\U{001F}'
    || c == ' ' || c == '\U{00A0}' || c == '\U{1680}'
    || '\U{2000}' <= c <= '\U{200A}'
    || c == '\U{2028}' || c == '\U{2029}' || c == '\U{202F}' || c == '\U{205F}' || c == '\U{3000}'
  }

  /** Kotlin's `isBlank()`: empty or whitespace only. */
  predicate IsBlank(s: string) {
    forall i :: 0 <= i < |s| ==> IsWhitespace(s[i])
  }

  /** One non-whitespace character makes a string non-blank. */
  lemma NotBlankWitness(s: string, i: nat)
    requires i < |s| && !IsWhitespace(s[i])
    ensures !IsBlank(s)
  {
  }

  predicate IsSupportedPlatform(platform: string) {
    platform == "android" || platform == "ios"
  }

  datatype UploadRequest = UploadRequest(apkPath: string, platform: string, publicKey: Option<string>, apiToken: string)
  {
    /** `AppetizeUploadRequest.isValid`. */
    predicate IsValid() {
      !IsBlank(apkPath) && !IsBlank(apiToken) && IsSupportedPlatform(platform)
    }
  }

  /** `AppetizeUploadResponse`; the defaults of its constructor are the empty
      strings, `false` and `None` of `Failed`. */
  datatype UploadResponse = UploadResponse(
    success: bool,
    publicKey: string,
    appUrl: string,
    embedUrl: string,
    isNewApp: bool,
    errorMessage: Option<string>)

  function Failed(message: string): (r: UploadResponse)
    ensures !r.success && r.errorMessage == Some(message)
    ensures r.publicKey == r.appUrl == r.embedUrl == "" && !r.isNewApp
  {
    UploadResponse(false, "", "", "", false, Some(message))
  }

  /** `MockAppetizeApi.validateApiToken`: the token holds a non-whitespace character. */
  function ValidateApiToken(token: string): (ok: bool)
    ensures ok <==> exists i :: 0 <= i < |token| && !IsWhitespace(token[i])
  {
    !IsBlank(token)
  }

  /**
   * The early returns of `uploadApk`: the message of the first check that fails,
   * in the order token, APK path, platform; `None` when all pass.
   */
  function FirstFailure(request: UploadRequest): (e: Option<string>)
    ensures e.None? <==> request.IsValid()
    ensures IsBlank(request.apiToken) ==> e == Some(INVALID_TOKEN)
    ensures !IsBlank(request.apiToken) && IsBlank(request.apkPath) ==> e == Some(APK_PATH_REQUIRED)
    ensures !IsBlank(request.apiToken) && !IsBlank(request.apkPath) && !IsSupportedPlatform(request.platform)
            ==> e == Some(INVALID_PLATFORM)
  {
    if !ValidateApiToken(request.apiToken) then Some(INVALID_TOKEN)
    else if IsBlank(request.apkPath) then Some(APK_PATH_REQUIRED)
    else if !IsSupportedPlatform(request.platform) then Some(INVALID_PLATFORM)
    else None
  }

  /** The key `generatePublicKey` returns once the counter has been advanced to `counter`. */
  function GeneratedKey(counter: int): (key: string)
    ensures |key| > |KEY_PREFIX| && key[..|KEY_PREFIX|] == KEY_PREFIX
    ensures key[..5] == "test_"
  {
    KEY_PREFIX + IntToString(counter)
  }

  /** The response built for a request that passed every check. */
  function Uploaded(publicKey: string, isNewApp: bool): (r: UploadResponse)
    ensures r.success && r.errorMessage.None? && r.publicKey == publicKey && r.isNewApp == isNewApp
    ensures |r.appUrl| == |APP_URL_PREFIX| + |publicKey|
    ensures r.appUrl[..|APP_URL_PREFIX|] == APP_URL_PREFIX && r.appUrl[|APP_URL_PREFIX|..] == publicKey
    ensures |r.embedUrl| == |EMBED_URL_PREFIX| + |publicKey|
    ensures r.embedUrl[..|EMBED_URL_PREFIX|] == EMBED_URL_PREFIX && r.embedUrl[|EMBED_URL_PREFIX|..] == publicKey
  {
    UploadResponse(true, publicKey, APP_URL_PREFIX + publicKey, EMBED_URL_PREFIX + publicKey, isNewApp, None)
  }

  /**
   * What one `uploadApk` call returns, and the value of `idCounter` after it,
   * given the counter before it.
   */
  function Upload(request: UploadRequest, counter: Int32): (outcome: (UploadResponse, Int32))
  {
    match FirstFailure(request)
    case Some(message) => (Failed(message), counter)
    case None =>
      match request.publicKey
      case Some(key) => (Uploaded(key, false), counter)
      case None => var next := Increment(counter); (Uploaded(GeneratedKey(next), true), next)
  }

  /** An upload succeeds exactly when the request is valid; otherwise it carries the first failure's message. */
  lemma UploadSucceedsIffValid(request: UploadRequest, counter: Int32)
    ensures Upload(request, counter).0.success <==> request.IsValid()
    ensures !request.IsValid() ==> Upload(request, counter).0 == Failed(FirstFailure(request).value)
  {
  }

  /** A provided public key is returned unchanged and marks an update; no key is generated for it. */
  lemma UploadWithKeyKeepsKey(request: UploadRequest, counter: Int32)
    requires request.IsValid() && request.publicKey.Some?
    ensures Upload(request, counter) == (Uploaded(request.publicKey.value, false), counter)
  {
  }

  /** Without a public key a fresh key is generated from the advanced counter and the app is new. */
  lemma UploadWithoutKeyCreatesApp(request: UploadRequest, counter: Int32)
    requires request.IsValid() && request.publicKey.None?
    ensures Upload(request, counter) == (Uploaded(GeneratedKey(Increment(counter)), true), Increment(counter))
  {
  }

  /** The counter moves only on a successful upload that had no public key. */
  lemma CounterAdvancesOnlyForNewApps(request: UploadRequest, counter: Int32)
    ensures Upload(request, counter).1 != counter <==> request.IsValid() && request.publicKey.None?
  {
  }

  /** Keys generated from different counter values differ; in particular successive keys differ. */
  lemma GeneratedKeysDistinct(c1: int, c2: int)
    requires c1 != c2
    ensures GeneratedKey(c1) != GeneratedKey(c2)
  {
    if GeneratedKey(c1) == GeneratedKey(c2) {
      assert IntToString(c1) == GeneratedKey(c1)[|KEY_PREFIX|..] == GeneratedKey(c2)[|KEY_PREFIX|..] == IntToString(c2);
      IntToStringInjective(c1, c2);
    }
  }

  /** `MockAppetizeApi`: its only state is the key counter. */
  class MockAppetizeApi {
    var idCounter: Int32

    constructor ()
      ensures idCounter == 0
    {
      idCounter := 0;
    }

    /** `generatePublicKey`: pre-increments the counter and renders the new value. */
    method GeneratePublicKey() returns (key: string)
      modifies this
      ensures idCounter == Increment(old(idCounter))
      ensures key == GeneratedKey(idCounter)
    {
      idCounter := Increment(idCounter);
      key := KEY_PREFIX + IntToString(idCounter);
    }

    /** `uploadApk`: the checks in order, then the key and the URLs. */
    method UploadApk(request: UploadRequest) returns (response: UploadResponse)
      modifies this
      ensures (response, idCounter) == Upload(request, old(idCounter))
    {
      if !ValidateApiToken(request.apiToken) {
        return Failed(INVALID_TOKEN);
      }
      if IsBlank(request.apkPath) {
        return Failed(APK_PATH_REQUIRED);
      }
      if request.platform != "android" && request.platform != "ios" {
        return Failed(INVALID_PLATFORM);
      }
      var publicKey: string;
      if request.publicKey.Some? {
        publicKey := request.publicKey.value;
      } else {
        publicKey := GeneratePublicKey();
      }
      var isNewApp := request.publicKey.None?;
      response := UploadResponse(true, publicKey, APP_URL_PREFIX + publicKey, EMBED_URL_PREFIX + publicKey, isNewApp, None);
    }
  }
}
