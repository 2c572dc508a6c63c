/**
 * Signed playback tokens for Cloudflare Stream (src/services/cloudFlareStreamTokenService.ts).
 *
 * A token is a JWS Compact Serialization (section 7.1 of RFC 7515): the base64url
 * encodings of the JOSE header, of the claims and of the RS256 signature (section 3.3
 * of RFC 7518), joined by '.'. JSON serialisation and the RSA signer are parameters;
 * the enrollment table is the state `verifyAccess` queries.
 */
module StreamToken {
  import opened Wrappers
  import opened Base64
  import opened CourseModel

  const ACCESS_DENIED: string := "User does not have access to this course"
  const COURSE_NOT_FOUND: string := "Course not found"
  const CREDENTIALS_MISSING: string :=
    "Cloudflare Stream credentials not configured. Set CF_STREAM_KEY_ID and CF_STREAM_JWK_KEY"
  const DEFAULT_EXPIRES_IN_HOURS: int := 2
  const SECONDS_PER_HOUR: int := 60 * 60

  /** The configured signing key: its id and the base64-encoded JWK. */
  datatype TokenService = TokenService(keyId: string, jwkKey: string)

  /** The constructor: both environment values must be set and non-empty. */
  function CreateTokenService(keyIdEnv: Option<string>, jwkKeyEnv: Option<string>): (r: Result<TokenService, string>)
    ensures r.Success? <==> keyIdEnv.Some? && keyIdEnv.value != "" && jwkKeyEnv.Some? && jwkKeyEnv.value != ""
    ensures r.Success? ==> r.value.keyId == keyIdEnv.value && r.value.jwkKey == jwkKeyEnv.value
    ensures r.Failure? ==> r.error == CREDENTIALS_MISSING
  {
    if keyIdEnv.None? || keyIdEnv.value == "" || jwkKeyEnv.None? || jwkKeyEnv.value == "" then
      Failure(CREDENTIALS_MISSING)
    else Success(TokenService(keyIdEnv.value, jwkKeyEnv.value))
  }

  /** The enrollment columns the access query reads. */
  datatype EnrollmentRow = EnrollmentRow(
    userId: string, courseId: string, status: EnrollmentStatus, expiresAt: Option<int>)

  /** The enrollment table, or a database that throws on lookup. */
  datatype EnrollmentTable = Reachable(rows: seq<EnrollmentRow>) | Unreachable

  predicate ActiveFor(row: EnrollmentRow, userId: string, courseId: string) {
    row.userId == userId && row.courseId == courseId && row.status == EnrollmentStatus.ACTIVE
  }

  predicate NotExpired(row: EnrollmentRow, now: int) {
    row.expiresAt.None? || now <= row.expiresAt.value
  }

  /** `findOne` on (user, course, ACTIVE): the first matching row. */
  function FindActive(rows: seq<EnrollmentRow>, userId: string, courseId: string): (r: Option<nat>)
    ensures r.None? <==> forall k :: 0 <= k < |rows| ==> !ActiveFor(rows[k], userId, courseId)
    ensures r.Some? ==> r.value < |rows| && ActiveFor(rows[r.value], userId, courseId)
                        && forall k :: 0 <= k < r.value ==> !ActiveFor(rows[k], userId, courseId)
  {
    if rows == [] then None
    else if ActiveFor(rows[0], userId, courseId) then Some(0)
    else
      var rest := FindActive(rows[1..], userId, courseId);
      if rest.None? then None else Some(rest.value + 1)
  }

  /** `verifyAccess(userId, courseId)` at time `now` (milliseconds). */
  function VerifyAccess(table: EnrollmentTable, userId: string, courseId: string, now: int): (granted: bool)
    ensures table.Unreachable? ==> !granted
    ensures granted ==> exists k :: 0 <= k < |table.rows| && ActiveFor(table.rows[k], userId, courseId)
                                    && NotExpired(table.rows[k], now)
  {
    if table.Unreachable? then false
    else
      var found := FindActive(table.rows, userId, courseId);
      if found.None? then false
      else
        var enrollment := table.rows[found.value];
        !(enrollment.expiresAt.Some? && now > enrollment.expiresAt.value)
  }

  /** At most one enrollment per (user, course), as the table's unique constraint says. */
  predicate UniquePairs(rows: seq<EnrollmentRow>) {
    forall i, j :: 0 <= i < j < |rows| ==>
      (rows[i].userId, rows[i].courseId) != (rows[j].userId, rows[j].courseId)
  }

  /**
   * Under the unique constraint, access is granted exactly when an ACTIVE enrollment
   * for the pair exists and has not expired.
   */
  lemma VerifyAccessIff(table: EnrollmentTable, userId: string, courseId: string, now: int)
    requires table.Reachable? && UniquePairs(table.rows)
    ensures VerifyAccess(table, userId, courseId, now) <==>
              exists k :: 0 <= k < |table.rows| && ActiveFor(table.rows[k], userId, courseId)
                          && NotExpired(table.rows[k], now)
  {
    var rows := table.rows;
    var found := FindActive(rows, userId, courseId);
    if k :| 0 <= k < |rows| && ActiveFor(rows[k], userId, courseId) && NotExpired(rows[k], now) {
      assert found.Some?;
    }
  }

  /** The two JSON objects of a token. */
  datatype JoseObject =
    | Header(alg: string, kid: string)
    | Claims(sub: string, kid: string, exp: int)

  /** `generateSignedToken`'s options. */
  datatype SignedUrlOptions = SignedUrlOptions(
    videoUid: string, userId: string, courseId: string, expiresInHours: Option<int>)

  /** `exp`: whole seconds of `nowMs`, plus the lifetime (default two hours). */
  function ExpiryOf(nowMs: int, expiresInHours: Option<int>): (exp: int)
    ensures expiresInHours.None? ==> exp * 1000 > nowMs && exp * 1000 <= nowMs + 2 * 3600 * 1000
    ensures expiresInHours.Some? && expiresInHours.value > 0 ==>
              exp * 1000 > nowMs && exp * 1000 <= nowMs + expiresInHours.value * 3600 * 1000
  {
    nowMs / 1000 + expiresInHours.GetOr(DEFAULT_EXPIRES_IN_HOURS) * SECONDS_PER_HOUR
  }

  /** `objectToBase64url`: the base64url encoding of the UTF-8 JSON text of `obj`. */
  function ObjectToBase64Url(obj: JoseObject, jsonUtf8: JoseObject -> seq<byte>): (r: string)
    ensures UrlDecode(r) == Some(jsonUtf8(obj))
    ensures '.' !in r
  {
    UrlDecodeEncode(jsonUtf8(obj));
    ArrayBufferToBase64UrlHasNoDot(jsonUtf8(obj));
    ArrayBufferToBase64Url(jsonUtf8(obj))
  }

  lemma {:induction false} ArrayBufferToBase64UrlHasNoDot(b: seq<byte>)
    ensures '.' !in ArrayBufferToBase64Url(b)
    decreases |b|
  {
    EncodingHasNoDot(b, UrlSafe, false);
  }

  lemma {:induction false} EncodingHasNoDot(b: seq<byte>, alphabet: Alphabet, pad: bool)
    ensures '.' !in Encode(b, alphabet, pad)
    decreases |b|
  {
    if |b| >= 3 {
      EncodingHasNoDot(b[3..], alphabet, pad);
    }
  }

  /** The header and claims a token for `opts` carries. */
  function TokenHeader(service: TokenService): JoseObject {
    Header("RS256", service.keyId)
  }

  function TokenClaims(service: TokenService, opts: SignedUrlOptions, nowMs: int): JoseObject {
    Claims(opts.videoUid, service.keyId, ExpiryOf(nowMs, opts.expiresInHours))
  }

  /** The signing input: `base64url(header) '.' base64url(claims)`. */
  function SigningInput(service: TokenService, opts: SignedUrlOptions, nowMs: int,
                        jsonUtf8: JoseObject -> seq<byte>): string
  {
    ObjectToBase64Url(TokenHeader(service), jsonUtf8) + "."
      + ObjectToBase64Url(TokenClaims(service, opts, nowMs), jsonUtf8)
  }

  /**
   * `generateSignedToken(opts)` at `nowMs`. `sign(jwkKey, input)` stands for decoding the
   * JWK, converting it to a private key and signing `input` with RSA-SHA256; any of those
   * steps may throw.
   */
  function GenerateSignedToken(service: TokenService, table: EnrollmentTable, opts: SignedUrlOptions,
                               nowMs: int, jsonUtf8: JoseObject -> seq<byte>,
                               sign: (string, string) -> Result<seq<byte>, string>): (r: Result<string, string>)
    ensures !VerifyAccess(table, opts.userId, opts.courseId, nowMs) ==> r == Failure(ACCESS_DENIED)
    ensures r.Success? <==>
              VerifyAccess(table, opts.userId, opts.courseId, nowMs)
              && sign(service.jwkKey, SigningInput(service, opts, nowMs, jsonUtf8)).Success?
    ensures r.Success? ==>
              var signature := sign(service.jwkKey, SigningInput(service, opts, nowMs, jsonUtf8)).value;
              Segments(r.value) == [ObjectToBase64Url(TokenHeader(service), jsonUtf8),
                                    ObjectToBase64Url(TokenClaims(service, opts, nowMs), jsonUtf8),
                                    ArrayBufferToBase64Url(signature)]
  {
    if !VerifyAccess(table, opts.userId, opts.courseId, nowMs) then Failure(ACCESS_DENIED)
    else
      var unsigned := SigningInput(service, opts, nowMs, jsonUtf8);
      var signature := sign(service.jwkKey, unsigned);
      if signature.Failure? then Failure(signature.error)
      else
        var h := ObjectToBase64Url(TokenHeader(service), jsonUtf8);
        var c := ObjectToBase64Url(TokenClaims(service, opts, nowMs), jsonUtf8);
        var s := ArrayBufferToBase64Url(signature.value);
        ArrayBufferToBase64UrlHasNoDot(signature.value);
        SegmentsOfThree(h, c, s);
        Success(unsigned + "." + s)
  }

  /** `s.split('.')`. */
  function Segments(s: string): (r: seq<string>)
    ensures |r| >= 1
  {
    if s == [] then [[]]
    else
      var rest := Segments(s[1..]);
      if s[0] == '.' then [[]] + rest else [[s[0]] + rest[0]] + rest[1..]
  }

  lemma {:induction false} SegmentsNoDot(a: string, tail: string)
    requires '.' !in a
    ensures Segments(a + "." + tail) == [a] + Segments(tail)
  {
    if a == [] {
      assert a + "." + tail == ['.'] + tail;
      assert (['.'] + tail)[1..] == tail;
    } else {
      SegmentsNoDot(a[1..], tail);
      assert (a + "." + tail)[1..] == a[1..] + "." + tail;
      assert [a[0]] + a[1..] == a;
    }
  }

  lemma {:induction false} SegmentsOfNoDot(a: string)
    requires '.' !in a
    ensures Segments(a) == [a]
  {
    if a != [] {
      SegmentsOfNoDot(a[1..]);
      assert [a[0]] + a[1..] == a;
    }
  }

  /** Three dot-free parts joined by '.' split back into exactly those parts. */
  lemma SegmentsOfThree(h: string, c: string, s: string)
    requires '.' !in h && '.' !in c && '.' !in s
    ensures Segments(h + "." + c + "." + s) == [h, c, s]
  {
    SegmentsOfNoDot(s);
    SegmentsNoDot(c, s);
    SegmentsNoDot(h, c + "." + s);
    assert h + "." + c + "." + s == h + "." + (c + "." + s);
  }

  /**
   * Each segment of an issued token decodes to what it encodes: the header with
   * `alg` RS256 and the service's key id, the claims naming the video, the same key id
   * and the expiry, and the signature over the signing input.
   */
  lemma TokenSegmentsDecode(service: TokenService, table: EnrollmentTable, opts: SignedUrlOptions,
                            nowMs: int, jsonUtf8: JoseObject -> seq<byte>,
                            sign: (string, string) -> Result<seq<byte>, string>)
    requires GenerateSignedToken(service, table, opts, nowMs, jsonUtf8, sign).Success?
    ensures var parts := Segments(GenerateSignedToken(service, table, opts, nowMs, jsonUtf8, sign).value);
            && |parts| == 3
            && UrlDecode(parts[0]) == Some(jsonUtf8(Header("RS256", service.keyId)))
            && UrlDecode(parts[1]) == Some(jsonUtf8(Claims(opts.videoUid, service.keyId,
                                                           ExpiryOf(nowMs, opts.expiresInHours))))
            && UrlDecode(parts[2]) == Some(sign(service.jwkKey, SigningInput(service, opts, nowMs, jsonUtf8)).value)
  {
    var signature := sign(service.jwkKey, SigningInput(service, opts, nowMs, jsonUtf8)).value;
    UrlDecodeEncode(signature);
  }

  /** A lesson that `generateCourseVideoTokens` asks a token for. */
  predicate Eligible(lesson: CourseData) {
    lesson.videoCfUid.Some? && lesson.videoCfUid.value != "" && lesson.videoStatus == Some(READY)
  }

  function LessonOptions(lesson: CourseData, userId: string, courseId: string): SignedUrlOptions
    requires Eligible(lesson)
  {
    SignedUrlOptions(lesson.videoCfUid.value, userId, courseId, Some(2))
  }

  /** The token map after visiting `lessons` in order; failed lessons add nothing. */
  function TokenMapOf(service: TokenService, table: EnrollmentTable, userId: string, courseId: string,
                      lessons: seq<CourseData>, nowMs: int, jsonUtf8: JoseObject -> seq<byte>,
                      sign: (string, string) -> Result<seq<byte>, string>): (m: map<string, string>)
    ensures forall id :: id in m ==> exists k :: 0 <= k < |lessons| && lessons[k].id == id && Eligible(lessons[k])
    ensures |m.Keys| <= |lessons|
  {
    if lessons == [] then map[]
    else
      var last := lessons[|lessons| - 1];
      var m := TokenMapOf(service, table, userId, courseId, lessons[..|lessons| - 1], nowMs, jsonUtf8, sign);
      if !Eligible(last) then m
      else
        var token := GenerateSignedToken(service, table, LessonOptions(last, userId, courseId), nowMs, jsonUtf8, sign);
        if token.Failure? then m
        else
          assert (m[last.id := token.value]).Keys <= m.Keys + {last.id};
          m[last.id := token.value]
  }

  /**
   * `generateCourseVideoTokens(userId, courseId)`: `course` is the course lookup
   * (`None` when no course has the id).
   */
  method GenerateCourseVideoTokens(service: TokenService, table: EnrollmentTable, userId: string,
                                   courseId: string, course: Option<seq<CourseData>>, nowMs: int,
                                   jsonUtf8: JoseObject -> seq<byte>,
                                   sign: (string, string) -> Result<seq<byte>, string>)
    returns (r: Result<map<string, string>, string>)
    ensures !VerifyAccess(table, userId, courseId, nowMs) ==> r == Failure(ACCESS_DENIED)
    ensures VerifyAccess(table, userId, courseId, nowMs) && course.None? ==> r == Failure(COURSE_NOT_FOUND)
    ensures VerifyAccess(table, userId, courseId, nowMs) && course.Some? ==>
              r == Success(TokenMapOf(service, table, userId, courseId, course.value, nowMs, jsonUtf8, sign))
  {
    if !VerifyAccess(table, userId, courseId, nowMs) {
      return Failure(ACCESS_DENIED);
    }
    if course.None? {
      return Failure(COURSE_NOT_FOUND);
    }
    var lessons := course.value;
    var tokenMap: map<string, string> := map[];
    var i := 0;
    while i < |lessons|
      invariant 0 <= i <= |lessons|
      invariant tokenMap == TokenMapOf(service, table, userId, courseId, lessons[..i], nowMs, jsonUtf8, sign)
    {
      var lesson := lessons[i];
      assert lessons[..i + 1][..i] == lessons[..i] && lessons[..i + 1][i] == lesson;
      if lesson.videoCfUid.Some? && lesson.videoCfUid.value != "" && lesson.videoStatus == Some(READY) {
        var token := GenerateSignedToken(service, table, LessonOptions(lesson, userId, courseId),
                                         nowMs, jsonUtf8, sign);
        if token.Success? {
          tokenMap := tokenMap[lesson.id := token.value];
        }
      }
      i := i + 1;
    }
    assert lessons[..i] == lessons;
    return Success(tokenMap);
  }

  /** Every lesson that got a token has a video uid and is READY; none is invented. */
  lemma TokenMapKeysEligible(service: TokenService, table: EnrollmentTable, userId: string, courseId: string,
                             lessons: seq<CourseData>, nowMs: int, jsonUtf8: JoseObject -> seq<byte>,
                             sign: (string, string) -> Result<seq<byte>, string>, id: string)
    requires id in TokenMapOf(service, table, userId, courseId, lessons, nowMs, jsonUtf8, sign)
    ensures exists k :: 0 <= k < |lessons| && lessons[k].id == id && lessons[k].videoCfUid.Some?
                        && lessons[k].videoStatus == Some(READY)
  {
  }

  /**
   * When signing never fails, every eligible lesson gets a token: failures are the only
   * thing that leaves an eligible lesson out.
   */
  lemma {:induction false} TokenMapComplete(service: TokenService, table: EnrollmentTable, userId: string,
                                            courseId: string, lessons: seq<CourseData>, nowMs: int,
                                            jsonUtf8: JoseObject -> seq<byte>,
                                            sign: (string, string) -> Result<seq<byte>, string>)
    requires VerifyAccess(table, userId, courseId, nowMs)
    requires forall key, input :: sign(key, input).Success?
    ensures forall k :: 0 <= k < |lessons| && Eligible(lessons[k]) ==>
              lessons[k].id in TokenMapOf(service, table, userId, courseId, lessons, nowMs, jsonUtf8, sign)
  {
    if lessons != [] {
      var init := lessons[..|lessons| - 1];
      TokenMapComplete(service, table, userId, courseId, init, nowMs, jsonUtf8, sign);
      forall k | 0 <= k < |lessons| - 1 && Eligible(lessons[k])
        ensures lessons[k].id in TokenMapOf(service, table, userId, courseId, lessons, nowMs, jsonUtf8, sign)
      {
        assert init[k] == lessons[k];
      }
    }
  }
}
