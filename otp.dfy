/**
 * One-time passwords sent by mail (auth.py, send_otp and verify_otp).
 *
 * The cache holds two keys per address: the code, alive for five minutes,
 * and a cooldown flag, alive for one minute. Expiry is modelled with an
 * explicit clock: an entry stored at time t with lifetime L is visible
 * while now < t + L, and an entry past its time reads as missing.
 * The random draw and the mail delivery are inputs.
 */
module OtpAuth {
  import opened Wrappers
  import opened Text

  /** Seconds a code stays valid. */
  const OTP_LIFETIME: int := 300
  /** Seconds during which a second request for the same address is refused. */
  const COOLDOWN: int := 60
  /** The bounds of the random draw, both included. */
  const LOWEST_CODE: nat := 100000
  const HIGHEST_CODE: nat := 999999

  const COOLDOWN_MESSAGE := "OTP already sent. Please wait before requesting again."
  const SENT_MESSAGE := "OTP sent successfully."
  const MAIL_FAILED_PREFIX := "Error sending OTP: "
  const EXPIRED_MESSAGE := "OTP expired or not found."
  const INVALID_MESSAGE := "Invalid OTP."
  const VERIFIED_MESSAGE := "OTP verified successfully."

  /** A stored code with the instant its cache entry expires. */
  datatype Entry = Entry(code: string, expiresAt: int)

  /**
   * The two cache namespaces, keyed by the address exactly as given:
   * "otp:<email>" holds an Entry, "otp_cooldown:<email>" the instant the
   * cooldown flag expires.
   */
  datatype OtpState = OtpState(otps: map<string, Entry>, cooldowns: map<string, int>)

  /** The JSON object both endpoints return: a status word and a message. */
  datatype OtpReply = OtpReply(status: string, message: string)

  /** What a cache read of "otp:<email>" returns at time `now`. */
  function Cached(s: OtpState, email: string, now: int): Option<string>
  {
    if email in s.otps && now < s.otps[email].expiresAt then Some(s.otps[email].code) else None
  }

  /**
   * Expiry is final: a code visible at `later` was visible, with the same
   * value, at every earlier instant since it was written, so once it reads
   * as missing it stays missing until the next write.
   */
  lemma ExpiryIsFinal(s: OtpState, email: string, now: int, later: int)
    requires now <= later
    ensures Cached(s, email, later).Some? ==> Cached(s, email, now) == Cached(s, email, later)
    ensures Cached(s, email, now).None? ==> Cached(s, email, later).None?
  {
  }

  /** The cooldown flag for `email` is still set at time `now`. */
  predicate InCooldown(s: OtpState, email: string, now: int)
  {
    email in s.cooldowns && now < s.cooldowns[email]
  }

  /** A code as the draw produces it: six decimal digits. */
  predicate SixDigits(code: string)
  {
    |code| == 6 && forall i :: 0 <= i < |code| ==> IsDigit(code[i])
  }

  /** Every stored code has the shape of a drawn one. */
  predicate Valid(s: OtpState)
  {
    forall email :: email in s.otps ==> SixDigits(s.otps[email].code)
  }

  /**
   * send_otp: refused while the cooldown flag is set; otherwise the code
   * and the cooldown are stored before the mail goes out, so a failed
   * delivery still leaves both in place.
   */
  function SendStep(s: OtpState, email: string, now: int, code: nat, mailError: Option<string>): (r: (OtpState, OtpReply))
    requires LOWEST_CODE <= code <= HIGHEST_CODE
    ensures r.1.status == "success" <==> !InCooldown(s, email, now) && mailError.None?
    ensures InCooldown(s, email, now) ==> r == (s, OtpReply("error", COOLDOWN_MESSAGE))
    ensures !InCooldown(s, email, now) ==>
      && Cached(r.0, email, now) == Some(DecimalString(code))
      && InCooldown(r.0, email, now)
      && r.0.otps - {email} == s.otps - {email}
      && r.0.cooldowns - {email} == s.cooldowns - {email}
    ensures !InCooldown(s, email, now) && mailError.None? ==> r.1 == OtpReply("success", SENT_MESSAGE)
    ensures !InCooldown(s, email, now) && mailError.Some? ==> r.1 == OtpReply("error", MAIL_FAILED_PREFIX + mailError.value)
  {
    if InCooldown(s, email, now) then
      (s, OtpReply("error", COOLDOWN_MESSAGE))
    else
      var stored := OtpState(s.otps[email := Entry(DecimalString(code), now + OTP_LIFETIME)],
                             s.cooldowns[email := now + COOLDOWN]);
      match mailError
      case None => (stored, OtpReply("success", SENT_MESSAGE))
      case Some(e) => (stored, OtpReply("error", MAIL_FAILED_PREFIX + e))
  }

  /**
   * verify_otp: the submitted value, stripped of surrounding whitespace,
   * must equal the live code; a match deletes the code, anything else
   * leaves the cache as it was. The cooldown is never touched.
   */
  function VerifyStep(s: OtpState, email: string, otp: string, now: int): (r: (OtpState, OtpReply))
    ensures r.1.status == "success" <==> Cached(s, email, now) == Some(Strip(otp)) && Strip(otp) != ""
    ensures r.1.status == "success" ==> r.0 == s.(otps := s.otps - {email}) && r.1.message == VERIFIED_MESSAGE
    ensures r.1.status != "success" ==> r.0 == s
    ensures (Cached(s, email, now).None? || Cached(s, email, now) == Some("")) <==> r.1.message == EXPIRED_MESSAGE
    ensures r.1.status == "success" || r.1.status == "error"
    ensures Cached(s, email, now).None? || Cached(s, email, now) == Some("") ==> r.1 == OtpReply("error", EXPIRED_MESSAGE)
    ensures Cached(s, email, now).Some? && Cached(s, email, now).value != "" && Cached(s, email, now).value != Strip(otp) ==>
      r.1 == OtpReply("error", INVALID_MESSAGE)
  {
    var cached := Cached(s, email, now);
    if cached.None? || cached.value == "" then
      (s, OtpReply("error", EXPIRED_MESSAGE))
    else if cached.value != Strip(otp) then
      (s, OtpReply("error", INVALID_MESSAGE))
    else
      (s.(otps := s.otps - {email}), OtpReply("success", VERIFIED_MESSAGE))
  }

  /** A drawn code is rendered as exactly six digits that read back as the draw. */
  lemma DrawnCodeShape(code: nat)
    requires LOWEST_CODE <= code <= HIGHEST_CODE
    ensures SixDigits(DecimalString(code))
    ensures DecimalValue(DecimalString(code)) == code
  {
    assert Pow10(5) == 100000 && Pow10(6) == 1000000;
    DecimalLength(code, 6);
    DecimalRoundTrip(code);
  }

  /**
   * A second request inside the cooldown window opened by an accepted one
   * is refused and changes nothing.
   */
  lemma ResendInsideCooldownRefused(s: OtpState, email: string, t: int, code: nat, mailError: Option<string>,
                                    t2: int, code2: nat, mailError2: Option<string>)
    requires LOWEST_CODE <= code <= HIGHEST_CODE && LOWEST_CODE <= code2 <= HIGHEST_CODE
    requires !InCooldown(s, email, t)
    requires t <= t2 < t + COOLDOWN
    ensures var after := SendStep(s, email, t, code, mailError).0;
      SendStep(after, email, t2, code2, mailError2) == (after, OtpReply("error", COOLDOWN_MESSAGE))
  {
    var after := SendStep(s, email, t, code, mailError).0;
    assert InCooldown(after, email, t2);
  }

  /** Once the cooldown has run out, a new request replaces the code. */
  lemma ResendAfterCooldownReplaces(s: OtpState, email: string, t: int, code: nat, mailError: Option<string>,
                                    t2: int, code2: nat, mailError2: Option<string>)
    requires LOWEST_CODE <= code <= HIGHEST_CODE && LOWEST_CODE <= code2 <= HIGHEST_CODE
    requires !InCooldown(s, email, t) && t + COOLDOWN <= t2
    ensures var after := SendStep(SendStep(s, email, t, code, mailError).0, email, t2, code2, mailError2).0;
      Cached(after, email, t2) == Some(DecimalString(code2))
  {
    var first := SendStep(s, email, t, code, mailError).0;
    assert !InCooldown(first, email, t2);
  }

  /** A failed delivery leaves the cache exactly as a successful one would. */
  lemma MailFailureStillStores(s: OtpState, email: string, now: int, code: nat, reason: string)
    requires LOWEST_CODE <= code <= HIGHEST_CODE
    ensures SendStep(s, email, now, code, Some(reason)).0 == SendStep(s, email, now, code, None).0
  {
  }

  /** Requests for one address leave every other address's entries alone. */
  lemma SendIsolatesAddresses(s: OtpState, email: string, now: int, code: nat, mailError: Option<string>,
                              other: string, t: int)
    requires LOWEST_CODE <= code <= HIGHEST_CODE
    requires other != email
    ensures var after := SendStep(s, email, now, code, mailError).0;
      Cached(after, other, t) == Cached(s, other, t) && (InCooldown(after, other, t) <==> InCooldown(s, other, t))
  {
    var after := SendStep(s, email, now, code, mailError).0;
    if !InCooldown(s, email, now) {
      assert other in after.otps <==> other in s.otps;
      assert other in after.otps ==> after.otps[other] == s.otps[other];
      assert other in after.cooldowns <==> other in s.cooldowns;
    }
  }

  /**
   * The code just sent verifies within its lifetime, even when the user
   * types it with surrounding whitespace.
   */
  lemma {:induction false} SentCodeVerifies(s: OtpState, email: string, t: int, code: nat, mailError: Option<string>,
                                            t2: int, before: string, after: string)
    requires LOWEST_CODE <= code <= HIGHEST_CODE
    requires !InCooldown(s, email, t)
    requires t <= t2 < t + OTP_LIFETIME
    requires AllSpace(before) && AllSpace(after)
    ensures VerifyStep(SendStep(s, email, t, code, mailError).0, email, before + DecimalString(code) + after, t2).1
         == OtpReply("success", VERIFIED_MESSAGE)
  {
    var digits := DecimalString(code);
    assert !IsSpace(digits[0]) && !IsSpace(digits[|digits| - 1]);
    StripPadded(before, digits, after);
  }

  /** Past its lifetime, with no new request in between, the code reads as missing. */
  lemma CodeExpires(s: OtpState, email: string, t: int, code: nat, mailError: Option<string>, t2: int, otp: string)
    requires LOWEST_CODE <= code <= HIGHEST_CODE
    requires !InCooldown(s, email, t)
    requires t + OTP_LIFETIME <= t2
    ensures VerifyStep(SendStep(s, email, t, code, mailError).0, email, otp, t2).1 == OtpReply("error", EXPIRED_MESSAGE)
  {
    var stored := SendStep(s, email, t, code, mailError).0;
    assert Cached(stored, email, t2).None?;
  }

  /** A code is single use: after a successful verification every further attempt finds nothing. */
  lemma VerifiedCodeIsConsumed(s: OtpState, email: string, otp: string, now: int, otp2: string, now2: int)
    requires VerifyStep(s, email, otp, now).1.status == "success"
    ensures VerifyStep(VerifyStep(s, email, otp, now).0, email, otp2, now2).1 == OtpReply("error", EXPIRED_MESSAGE)
  {
    var after := VerifyStep(s, email, otp, now).0;
    assert email !in after.otps;
  }

  /**
   * A wrong guess costs nothing: the code stays, so any later attempt
   * behaves as if the failed one had not happened.
   */
  lemma FailedAttemptIsForgotten(s: OtpState, email: string, bad: string, now: int, otp: string, now2: int)
    requires VerifyStep(s, email, bad, now).1.status != "success"
    ensures VerifyStep(VerifyStep(s, email, bad, now).0, email, otp, now2) == VerifyStep(s, email, otp, now2)
  {
  }

  /** A request keeps every stored code six digits long: the fresh one is a drawn code. */
  lemma SendPreservesValid(s: OtpState, email: string, now: int, code: nat, mailError: Option<string>)
    requires Valid(s)
    requires LOWEST_CODE <= code <= HIGHEST_CODE
    ensures Valid(SendStep(s, email, now, code, mailError).0)
  {
    DrawnCodeShape(code);
    var sent := SendStep(s, email, now, code, mailError).0;
    if !InCooldown(s, email, now) {
      forall other | other in sent.otps
        ensures SixDigits(sent.otps[other].code)
      {
        if other != email {
          assert other in s.otps - {email};
        }
      }
    }
  }

  /** A verification only ever deletes a code, so every code left is six digits long. */
  lemma VerifyPreservesValid(s: OtpState, email: string, otp: string, now: int)
    requires Valid(s)
    ensures Valid(VerifyStep(s, email, otp, now).0)
  {
  }

  /** The cache as a mutable object holding the two namespaces. */
  class OtpCache {
    var otps: map<string, Entry>
    var cooldowns: map<string, int>

    function State(): OtpState
      reads this
    {
      OtpState(otps, cooldowns)
    }

    constructor ()
      ensures State() == OtpState(map[], map[])
      ensures Valid(State())
    {
      otps := map[];
      cooldowns := map[];
    }

    /** send_otp: `code` is the random draw, `mailError` what the mailer raised, if anything. */
    method SendOtp(email: string, now: int, code: nat, mailError: Option<string>) returns (reply: OtpReply)
      requires LOWEST_CODE <= code <= HIGHEST_CODE
      requires Valid(State())
      modifies this
      ensures (State(), reply) == SendStep(old(State()), email, now, code, mailError)
      ensures Valid(State())
    {
      SendPreservesValid(State(), email, now, code, mailError);
      if email in cooldowns && now < cooldowns[email] {
        return OtpReply("error", COOLDOWN_MESSAGE);
      }
      otps := otps[email := Entry(DecimalString(code), now + OTP_LIFETIME)];
      cooldowns := cooldowns[email := now + COOLDOWN];
      match mailError {
        case None =>
          reply := OtpReply("success", SENT_MESSAGE);
        case Some(e) =>
          reply := OtpReply("error", MAIL_FAILED_PREFIX + e);
      }
    }

    /** verify_otp: `otp` is the submitted value as text. */
    method VerifyOtp(email: string, otp: string, now: int) returns (reply: OtpReply)
      requires Valid(State())
      modifies this
      ensures (State(), reply) == VerifyStep(old(State()), email, otp, now)
      ensures Valid(State())
    {
      VerifyPreservesValid(State(), email, otp, now);
      if email !in otps || now >= otps[email].expiresAt || otps[email].code == "" {
        return OtpReply("error", EXPIRED_MESSAGE);
      }
      if otps[email].code != Strip(otp) {
        return OtpReply("error", INVALID_MESSAGE);
      }
      otps := otps - {email};
      reply := OtpReply("success", VERIFIED_MESSAGE);
    }
  }
}
