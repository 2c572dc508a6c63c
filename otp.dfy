/**
 * One-time codes (src/utils/otp.ts): code generation, record creation, the ordered
 * validation cascade, the resend cooldown and the expiry test. The clock (`new Date()`)
 * and the random draw (`crypto.randomInt`) are parameters; times are milliseconds.
 */
module Otp {
  import opened Wrappers
  import opened JsStrings

  datatype OtpType = EmailVerification | PasswordReset

  /**
   * A date-valued field of a stored record: a `Date` object, a string read back from
   * JSON (with what `new Date(text)` makes of it: `None` for an invalid date), or nothing.
   */
  datatype DateField = Absent | Instant(ms: int) | Text(text: string, parsed: Option<int>)

  /** The OTP record kept on the user (OTPMetadata). Optional fields are `Option`s. */
  datatype OtpMetadata = OtpMetadata(
    code: Option<string>,
    otpType: Option<OtpType>,
    expiresAt: DateField,
    attempts: Option<int>,
    lastSentAt: DateField,
    verified: Option<bool>)

  /** Why `validateOTP` accepted or refused a code, in the order the checks run. */
  datatype OtpCheck = Accepted | NotFound | AlreadyUsed | TooManyAttempts | Expired | Mismatch {
    predicate Valid() { Accepted? }

    function Message(): string {
      match this
      case Accepted => "OTP verified successfully."
      case NotFound => "No OTP found. Please request a new one."
      case AlreadyUsed => "OTP has already been used."
      case TooManyAttempts => "Maximum OTP attempts exceeded. Please request a new one."
      case Expired => "OTP has expired. Please request a new one."
      case Mismatch => "Invalid OTP. Please try again."
    }
  }

  const CODE_LENGTH: nat := 6
  const CODE_RANGE: nat := 1000000
  const MAX_ATTEMPTS: int := 5
  const DEFAULT_EXPIRY_MINUTES: int := 10
  const DEFAULT_COOLDOWN_MINUTES: real := 1.0
  const MS_PER_MINUTE: int := 60 * 1000

  function Pow10(k: nat): (p: nat)
    ensures p >= 1
  {
    if k == 0 then 1 else 10 * Pow10(k - 1)
  }

  lemma {:induction false} NatToStringLength(n: nat, k: nat)
    requires n < Pow10(k) && k >= 1
    ensures |NatToString(n)| <= k
  {
    if n >= 10 {
      assert Pow10(1) == 10;
      NatToStringLength(n / 10, k - 1);
    }
  }

  lemma {:induction false} LeadingZeroValue(s: string)
    requires AllDigits(s)
    ensures AllDigits(['0'] + s) && DecimalValue(['0'] + s) == DecimalValue(s)
  {
    var z := ['0'] + s;
    if s != [] {
      LeadingZeroValue(s[..|s| - 1]);
      assert z[..|z| - 1] == ['0'] + s[..|s| - 1];
    }
  }

  lemma {:induction false} LeadingZerosValue(s: string, k: nat)
    requires AllDigits(s)
    ensures AllDigits(seq(k, _ => '0') + s)
    ensures DecimalValue(seq(k, _ => '0') + s) == DecimalValue(s)
  {
    if k > 0 {
      var zeros := seq(k, _ => '0');
      var rest := seq(k - 1, _ => '0') + s;
      LeadingZerosValue(s, k - 1);
      assert zeros + s == ['0'] + rest;
      LeadingZeroValue(rest);
    } else {
      assert seq(k, _ => '0') + s == s;
    }
  }

  /**
   * `generateOTP`: the random draw in [0, 1000000) rendered as six decimal digits, padded
   * with leading zeros; the code spells exactly the number drawn.
   */
  function GenerateOtp(draw: nat): (code: string)
    requires draw < CODE_RANGE
    ensures |code| == CODE_LENGTH && AllDigits(code)
    ensures DecimalValue(code) == draw
  {
    var digits := NatToString(draw);
    assert |digits| <= CODE_LENGTH by {
      assert Pow10(6) == CODE_RANGE;
      NatToStringLength(draw, 6);
    }
    NatToStringValue(draw);
    LeadingZerosValue(digits, CODE_LENGTH - |digits|);
    assert PadStart(digits, CODE_LENGTH, '0') == seq(CODE_LENGTH - |digits|, _ => '0') + digits;
    PadStart(digits, CODE_LENGTH, '0')
  }

  /** Two different draws never give the same code. */
  lemma GenerateOtpInjective(a: nat, b: nat)
    requires a < CODE_RANGE && b < CODE_RANGE && a != b
    ensures GenerateOtp(a) != GenerateOtp(b)
  {
  }

  /** `createOTPData(type, expiryMinutes)` at time `now` with random draw `draw`. */
  function CreateOtpData(otpType: OtpType, expiryMinutes: int, now: int, draw: nat): (r: OtpMetadata)
    requires draw < CODE_RANGE
    ensures r.code.Some? && |r.code.value| == CODE_LENGTH && AllDigits(r.code.value)
    ensures DecimalValue(r.code.value) == draw
    ensures ToDate(r.expiresAt) == Some(now + expiryMinutes * MS_PER_MINUTE)
    ensures ToDate(r.lastSentAt) == Some(now)
    ensures r.attempts == Some(0) && r.verified == Some(false) && r.otpType == Some(otpType)
  {
    OtpMetadata(
      code := Some(GenerateOtp(draw)),
      otpType := Some(otpType),
      expiresAt := Instant(now + expiryMinutes * MS_PER_MINUTE),
      attempts := Some(0),
      lastSentAt := Instant(now),
      verified := Some(false))
  }

  /** `toDate`: falsy values and unparseable strings give no date. */
  function ToDate(v: DateField): Option<int> {
    match v
    case Absent => None
    case Instant(ms) => Some(ms)
    case Text(text, parsed) => if text == "" then None else parsed
  }

  /** `isOtpExpired(otp)` at time `now`. */
  function IsOtpExpired(otp: Option<OtpMetadata>, now: int): (r: bool)
    ensures !r <==> otp.Some? && ToDate(otp.value.expiresAt).Some?
                    && now <= ToDate(otp.value.expiresAt).value
  {
    if otp.None? || otp.value.expiresAt.Absent? || (otp.value.expiresAt.Text? && otp.value.expiresAt.text == "") then true
    else
      var expiresAt := ToDate(otp.value.expiresAt);
      if expiresAt.None? then true else now > expiresAt.value
  }

  predicate IsUsed(otp: OtpMetadata) { otp.verified == Some(true) }

  function AttemptCount(otp: OtpMetadata): int { otp.attempts.GetOr(0) }

  /**
   * `validateOTP(storedOTP, providedOTP)` at time `now`: the first failing check in the
   * order missing, already used, too many attempts, expired, wrong code.
   */
  function ValidateOtp(stored: Option<OtpMetadata>, provided: string, now: int): (r: OtpCheck)
    ensures r == NotFound <==> stored.None?
    ensures r == AlreadyUsed <==> stored.Some? && IsUsed(stored.value)
    ensures r == TooManyAttempts <==>
              stored.Some? && !IsUsed(stored.value) && AttemptCount(stored.value) >= MAX_ATTEMPTS
    ensures r == Expired <==>
              stored.Some? && !IsUsed(stored.value) && AttemptCount(stored.value) < MAX_ATTEMPTS
              && IsOtpExpired(stored, now)
    ensures r == Mismatch <==>
              stored.Some? && !IsUsed(stored.value) && AttemptCount(stored.value) < MAX_ATTEMPTS
              && !IsOtpExpired(stored, now) && stored.value.code != Some(provided)
  {
    if stored.None? then NotFound
    else
      var otp := stored.value;
      if otp.verified == Some(true) then AlreadyUsed
      else if otp.attempts.GetOr(0) >= 5 then TooManyAttempts
      else
        var expiresAt := ToDate(otp.expiresAt);
        if expiresAt.None? || now > expiresAt.value then Expired
        else if otp.code != Some(provided) then Mismatch
        else Accepted
  }

  /** A code is accepted exactly when every check passes. */
  lemma ValidateOtpAcceptsIff(stored: Option<OtpMetadata>, provided: string, now: int)
    ensures ValidateOtp(stored, provided, now).Valid() <==>
              && stored.Some?
              && !IsUsed(stored.value)
              && AttemptCount(stored.value) < MAX_ATTEMPTS
              && ToDate(stored.value.expiresAt).Some?
              && now <= ToDate(stored.value.expiresAt).value
              && stored.value.code == Some(provided)
  {
  }

  /**
   * A freshly created record accepts its own code until it expires, refuses any other
   * code in that window, and reports expiry afterwards.
   */
  lemma FreshOtpLifecycle(otpType: OtpType, expiryMinutes: int, now: int, draw: nat,
                          provided: string, t: int)
    requires draw < CODE_RANGE
    ensures var otp := CreateOtpData(otpType, expiryMinutes, now, draw);
            var deadline := now + expiryMinutes * MS_PER_MINUTE;
            && (t <= deadline && provided == GenerateOtp(draw) ==> ValidateOtp(Some(otp), provided, t) == Accepted)
            && (t <= deadline && provided != GenerateOtp(draw) ==> ValidateOtp(Some(otp), provided, t) == Mismatch)
            && (t > deadline ==> ValidateOtp(Some(otp), provided, t) == Expired)
  {
  }

  /**
   * `canResendOTP(lastSentAt, cooldownMinutes)` at time `now`: allowed when no send time is
   * known, otherwise when the minutes elapsed reach the cooldown.
   */
  function CanResendOtp(lastSentAt: DateField, cooldownMinutes: real, now: int): (r: bool)
    ensures ToDate(lastSentAt).None? ==> r
  {
    var lastSent := ToDate(lastSentAt);
    if lastSent.None? then true
    else (now - lastSent.value) as real / (MS_PER_MINUTE as real) >= cooldownMinutes
  }

  /** With a whole number of minutes the cooldown is an exact millisecond comparison. */
  lemma CanResendWholeMinutes(lastSent: int, cooldownMinutes: int, now: int)
    ensures CanResendOtp(Instant(lastSent), cooldownMinutes as real, now)
            <==> now - lastSent >= cooldownMinutes * MS_PER_MINUTE
  {
    var elapsed := (now - lastSent) as real;
    var minute := MS_PER_MINUTE as real;
    assert elapsed / minute >= cooldownMinutes as real <==> elapsed >= cooldownMinutes as real * minute;
  }

  /** Once a resend is allowed it stays allowed as time goes on. */
  lemma CanResendMonotone(lastSentAt: DateField, cooldownMinutes: real, now: int, later: int)
    requires now <= later && CanResendOtp(lastSentAt, cooldownMinutes, now)
    ensures CanResendOtp(lastSentAt, cooldownMinutes, later)
  {
    var lastSent := ToDate(lastSentAt);
    if lastSent.Some? {
      var minute := MS_PER_MINUTE as real;
      assert (later - lastSent.value) as real / minute >= (now - lastSent.value) as real / minute;
    }
  }
}
