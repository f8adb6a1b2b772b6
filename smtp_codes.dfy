/**
 * Reply-code classification of the SMTP client's error handler
 * (SMTP_SOFT, SMTP_HARD and the test inside smtp_check_code).
 */
module SmtpCodes {
  import opened Words

  /** C's `/` on `int` truncates toward zero; Dafny's `/` is Euclidean. */
  function CDiv(a: int, b: int): int
    requires b > 0
  {
    if a >= 0 then a / b else -((-a) / b)
  }

  /** SMTP_SOFT: the hundreds digit, by C division, is 4. */
  predicate IsSoft(code: int)
  {
    CDiv(code, 100) == 4
  }

  /** SMTP_HARD: the hundreds digit, by C division, is 5. */
  predicate IsHard(code: int)
  {
    CDiv(code, 100) == 5
  }

  lemma SoftRange(code: int)
    ensures IsSoft(code) <==> 400 <= code < 500
  {
  }

  lemma HardRange(code: int)
    ensures IsHard(code) <==> 500 <= code < 600
  {
  }

  lemma SoftHardExclusive(code: int)
    ensures !(IsSoft(code) && IsHard(code))
  {
  }

  /**
   * The condition of smtp_check_code: a code outside the 4xx/5xx classes,
   * 555 (section 6.1 of RFC 1869), or a 50z reply, which section 4.2 of
   * RFC 821 reserves for syntax errors.
   */
  predicate IsProtocolError(code: int)
  {
    (!IsSoft(code) && !IsHard(code))
    || code == 555
    || (code >= 500 && code < 510)
  }

  /** The complement of IsProtocolError, as plain code ranges. */
  lemma ProtocolErrorRange(code: int)
    ensures !IsProtocolError(code) <==>
              (400 <= code < 500 || 510 <= code < 555 || 556 <= code < 600)
  {
    SoftRange(code);
    HardRange(code);
  }

  /** Reply codes as they are classified. */
  lemma ClassificationExamples()
    ensures IsSoft(421) && IsSoft(450) && IsSoft(499)
    ensures IsHard(550) && IsHard(552) && IsHard(503)
    ensures IsHard(555) && IsHard(501) && !IsSoft(555) && !IsSoft(501)
    ensures !IsSoft(250) && !IsHard(250) && !IsSoft(354) && !IsHard(354)
    ensures IsProtocolError(555) && IsProtocolError(501) && IsProtocolError(250)
    ensures !IsProtocolError(550) && !IsProtocolError(450) && !IsProtocolError(554)
    ensures IsSoft(-450) == false && IsHard(-550) == false && IsProtocolError(-550)
  {
  }

  /**
   * MAIL_ERROR_PROTOCOL. mail_error.h is not part of this model; Postfix
   * defines the flag as bit 1, and no proof here depends on which single
   * bit it is.
   */
  const MAIL_ERROR_PROTOCOL: bv32 := 2

  function MaskAfterCheck(mask: bv32, code: int): (m: bv32)
    ensures IsProtocolError(code) ==> Covers(m, MAIL_ERROR_PROTOCOL)
    ensures !IsProtocolError(code) ==> m == mask
  {
    if IsProtocolError(code) then
      OrKeeps(mask, MAIL_ERROR_PROTOCOL);
      Or(mask, MAIL_ERROR_PROTOCOL)
    else mask
  }

  lemma MaskAfterCheckKeeps(mask: bv32, code: int)
    ensures Covers(MaskAfterCheck(mask, code), mask)
  {
    if IsProtocolError(code) {
      OrKeeps(mask, MAIL_ERROR_PROTOCOL);
    }
  }

  lemma MaskAfterCheckOnly(mask: bv32, code: int)
    ensures MaskAfterCheck(mask, code) & !MAIL_ERROR_PROTOCOL == mask & !MAIL_ERROR_PROTOCOL
  {
    if IsProtocolError(code) {
      OrOnly(mask, MAIL_ERROR_PROTOCOL);
    }
  }
}
