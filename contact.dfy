/**
 The contact form's bot filter: an ordered chain of checks over the submitted
 fields and the form's session state (rate-limit counters and the arithmetic
 captcha). The first check that fails decides the error message; a submission
 that passes every check is valid with an empty error.
 */
module ContactForm {
  import opened JsRuntime

  const RateWindowMs := 600000
  const MaxSubmissions := 5
  const MinMessageLength := 10

  const SpamKeywords: seq<string> :=
    ["viagra", "casino", "lottery", "winner", "congratulations", "click here", "free money"]

  const TooManyError := "Too many submissions. Please wait 10 minutes before trying again."
  const BotError := "Bot detected. Submission blocked."
  const CaptchaError := "Please solve the math problem correctly."
  const NameError := "Please provide a valid name."
  const LengthError := "Message must be at least 10 characters long."
  const SpamError := "Message contains suspicious content."

  /** The arithmetic question shown to the user and its expected answer. */
  datatype Captcha = Captcha(num1: int, num2: int, answer: int)

  /**
   What `FormData.get` returns for the fields the filter reads: None for a
   missing field (null), Some(text) otherwise.
   */
  datatype Form = Form(website: Option<string>, name: Option<string>, email: Option<string>, message: Option<string>)

  /** The component state the filter reads, with the clock reading `now`. */
  datatype Session = Session(now: int, lastSubmissionTime: int, submissionCount: int,
                             captchaAnswer: string, captcha: Captcha)

  datatype Validation = Validation(isValid: bool, error: string)

  /** The captcha the form generates from two dice rolls in 0..9 (`Math.floor(Math.random() * 10)`). */
  function GenerateCaptcha(roll1: int, roll2: int): (c: Captcha)
    requires 0 <= roll1 < 10 && 0 <= roll2 < 10
    ensures 1 <= c.num1 <= 10 && 1 <= c.num2 <= 10
    ensures c.answer == c.num1 + c.num2
    ensures 2 <= c.answer <= 20
  {
    var num1 := roll1 + 1;
    var num2 := roll2 + 1;
    Captcha(num1, num2, num1 + num2)
  }

  /** The captcha the component holds before its first one is generated. */
  const InitialCaptcha := Captcha(0, 0, 0)

  // ---------------------------------------------------------------------------
  // The individual checks, each true when it rejects

  predicate RateLimited(s: Session) {
    s.now - s.lastSubmissionTime < RateWindowMs && s.submissionCount >= MaxSubmissions
  }

  /** JavaScript truthiness of a field value: present and non-empty. */
  predicate Truthy(v: Option<string>) {
    v.Some? && v.value != ""
  }

  predicate HoneypotFilled(f: Form) {
    Truthy(f.website)
  }

  predicate CaptchaWrong(s: Session) {
    var userAnswer := ParseInt(s.captchaAnswer);
    userAnswer.None? || userAnswer.value != s.captcha.answer || s.captcha.answer == 0
  }

  predicate NameIsEmailUser(f: Form) {
    Truthy(f.name) && Truthy(f.email) && ToLower(f.name.value) == BeforeFirst(f.email.value, '@')
  }

  predicate MessageTooShort(f: Form) {
    !Truthy(f.message) || |f.message.value| < MinMessageLength
  }

  predicate MentionsAny(text: string, keywords: seq<string>) {
    exists k :: 0 <= k < |keywords| && Contains(text, keywords[k])
  }

  /** `spamKeywords.some(keyword => lowerMessage.includes(keyword))`, scanned in order. */
  function SomeKeyword(text: string, keywords: seq<string>): (r: bool)
    ensures r <==> MentionsAny(text, keywords)
  {
    if keywords == [] then false
    else if Contains(text, keywords[0]) then true
    else
      var r := SomeKeyword(text, keywords[1..]);
      assert forall k :: 1 <= k < |keywords| ==> keywords[k] == keywords[1..][k - 1];
      assert MentionsAny(text, keywords[1..]) ==> MentionsAny(text, keywords) by {
        if MentionsAny(text, keywords[1..]) {
          var k :| 0 <= k < |keywords[1..]| && Contains(text, keywords[1..][k]);
          assert Contains(text, keywords[k + 1]);
        }
      }
      r
  }

  predicate Spammy(f: Form)
    requires f.message.Some?
  {
    MentionsAny(ToLower(f.message.value), SpamKeywords)
  }

  // ---------------------------------------------------------------------------
  // The filter

  /** The checks in the order the filter runs them, each with its message. */
  function CheckTable(s: Session, f: Form): seq<(bool, string)>
  {
    [ (RateLimited(s), TooManyError),
      (HoneypotFilled(f), BotError),
      (CaptchaWrong(s), CaptchaError),
      (NameIsEmailUser(f), NameError),
      (MessageTooShort(f), LengthError),
      (!MessageTooShort(f) && Spammy(f), SpamError) ]
  }

  /** The message of the first rejecting entry of a check table. */
  function FirstFailure(table: seq<(bool, string)>): Option<string>
  {
    if table == [] then None
    else if table[0].0 then Some(table[0].1)
    else FirstFailure(table[1..])
  }

  lemma FirstFailureOfSix(t: seq<(bool, string)>)
    requires |t| == 6
    ensures FirstFailure(t) ==
      if t[0].0 then Some(t[0].1) else if t[1].0 then Some(t[1].1)
      else if t[2].0 then Some(t[2].1) else if t[3].0 then Some(t[3].1)
      else if t[4].0 then Some(t[4].1) else if t[5].0 then Some(t[5].1) else None
  {
    var t1 := t[1..];
    var t2 := t1[1..];
    var t3 := t2[1..];
    var t4 := t3[1..];
    var t5 := t4[1..];
    assert t1[0] == t[1] && t2[0] == t[2] && t3[0] == t[3] && t4[0] == t[4] && t5[0] == t[5];
    assert t5[1..] == [];
    assert FirstFailure(t5) == if t[5].0 then Some(t[5].1) else None;
    assert FirstFailure(t4) == if t[4].0 then Some(t[4].1) else FirstFailure(t5);
    assert FirstFailure(t3) == if t[3].0 then Some(t[3].1) else FirstFailure(t4);
    assert FirstFailure(t2) == if t[2].0 then Some(t[2].1) else FirstFailure(t3);
    assert FirstFailure(t1) == if t[1].0 then Some(t[1].1) else FirstFailure(t2);
  }

  /** `validateBotProtection`: the chain of guarded early returns. */
  function ValidateBotProtection(s: Session, f: Form): (r: Validation)
    ensures r.isValid <==> FirstFailure(CheckTable(s, f)).None?
    ensures r.isValid ==> r.error == ""
    ensures !r.isValid ==> r.error == FirstFailure(CheckTable(s, f)).value
  {
    FirstFailureOfSix(CheckTable(s, f));
    if s.now - s.lastSubmissionTime < RateWindowMs && s.submissionCount >= MaxSubmissions then
      Validation(false, TooManyError)
    else if Truthy(f.website) then
      Validation(false, BotError)
    else
      var userAnswer := ParseInt(s.captchaAnswer);
      if userAnswer.None? || userAnswer.value != s.captcha.answer || s.captcha.answer == 0 then
        Validation(false, CaptchaError)
      else if Truthy(f.name) && Truthy(f.email) && ToLower(f.name.value) == BeforeFirst(f.email.value, '@') then
        Validation(false, NameError)
      else if !Truthy(f.message) || |f.message.value| < MinMessageLength then
        Validation(false, LengthError)
      else if SomeKeyword(ToLower(f.message.value), SpamKeywords) then
        Validation(false, SpamError)
      else
        Validation(true, "")
  }

  // ---------------------------------------------------------------------------
  // Properties

  /** A submission is valid exactly when no check rejects it. */
  lemma ValidIffEveryCheckPasses(s: Session, f: Form)
    ensures ValidateBotProtection(s, f).isValid <==>
      !RateLimited(s) && !HoneypotFilled(f) && !CaptchaWrong(s) && !NameIsEmailUser(f)
      && !MessageTooShort(f) && !Spammy(f)
  {
  }

  /** Rejection by one check wins over every later check, whatever they say. */
  lemma {:induction false} EarlierCheckWins(s: Session, f: Form, k: nat)
    requires k < |CheckTable(s, f)| && CheckTable(s, f)[k].0
    requires forall j :: 0 <= j < k ==> !CheckTable(s, f)[j].0
    ensures ValidateBotProtection(s, f) == Validation(false, CheckTable(s, f)[k].1)
  {
    FirstFailureOfSix(CheckTable(s, f));
  }

  /**
   Typing the expected sum, in decimal and possibly followed by text that
   starts with neither a digit nor an 'x', passes the captcha check of any
   generated captcha.
   */
  lemma CorrectAnswerPassesCaptcha(s: Session, roll1: int, roll2: int, rest: string)
    requires 0 <= roll1 < 10 && 0 <= roll2 < 10
    requires s.captcha == GenerateCaptcha(roll1, roll2)
    requires s.captchaAnswer == NatToString(s.captcha.answer) + rest
    requires rest == [] || (!IsDecimalDigit(rest[0]) && rest[0] != 'x' && rest[0] != 'X')
    ensures !CaptchaWrong(s)
  {
    ParseIntOfDecimal(s.captcha.answer, rest);
  }

  /**
   parseInt also accepts a hexadecimal spelling: white space, an optional
   '+', "0x" or "0X" and hexadecimal digits whose value is the expected sum
   pass the captcha check.
   */
  lemma HexSumPassesCaptcha(s: Session, ws: string, sign: string, prefix: string, d: string, rest: string)
    requires s.captcha.answer > 0
    requires forall i :: 0 <= i < |ws| ==> IsJsWhiteSpace(ws[i])
    requires (sign == "" || sign == "+") && (prefix == "0x" || prefix == "0X")
    requires d != [] && forall i :: 0 <= i < |d| ==> IsHexDigit(d[i])
    requires rest == [] || !IsHexDigit(rest[0])
    requires s.captchaAnswer == ws + (sign + (prefix + (d + rest)))
    requires RadixValue(d, true) == s.captcha.answer
    ensures !CaptchaWrong(s)
  {
    ParseIntOfHexNumeral(ws, sign, prefix, d, rest);
  }

  /** An instance: "0x14" passes a captcha whose answer is 20. */
  lemma HexAnswerPassesCaptcha(s: Session)
    requires s.captcha.answer == 20 && s.captchaAnswer == "0x14"
    ensures !CaptchaWrong(s)
  {
    var text: string := "0x14";
    assert text == "" + ("" + ("0x" + ("14" + "")));
    assert RadixValue("14", true) == 20 by {
      assert "14"[..1] == "1";
    }
    HexSumPassesCaptcha(s, "", "", "0x", "14", "");
  }

  /** The expected sum after white space and a '+' passes too; after a '-' it fails. */
  lemma SignedAnswerAndCaptcha(s: Session, ws: string, sign: string, rest: string)
    requires s.captcha.answer > 0
    requires forall i :: 0 <= i < |ws| ==> IsJsWhiteSpace(ws[i])
    requires IsSign(sign)
    requires rest == [] || (!IsDecimalDigit(rest[0]) && rest[0] != 'x' && rest[0] != 'X')
    requires s.captchaAnswer == ws + (sign + (NatToString(s.captcha.answer) + rest))
    ensures CaptchaWrong(s) <==> sign == "-"
  {
    ParseIntOfSignedNat(ws, sign, s.captcha.answer, rest);
  }

  /**
   Any other number fails the captcha check: decimal digits (leading zeros
   allowed) after white space and an optional sign, ended by a character that
   is no digit, whose signed value is not the expected sum.
   */
  lemma WrongAnswerFailsCaptcha(s: Session, ws: string, sign: string, d: string, rest: string)
    requires forall i :: 0 <= i < |ws| ==> IsJsWhiteSpace(ws[i])
    requires IsSign(sign)
    requires d != [] && AllDecimalDigits(d)
    requires rest == [] || !IsDecimalDigit(rest[0])
    requires d == "0" ==> rest == [] || (rest[0] != 'x' && rest[0] != 'X')
    requires s.captchaAnswer == ws + (sign + (d + rest))
    requires (if sign == "-" then -(DecimalValue(d) as int) else DecimalValue(d)) != s.captcha.answer
    ensures CaptchaWrong(s)
  {
    ParseIntOfDecimalNumeral(ws, sign, d, rest);
  }

  /** The same for a hexadecimal answer after "0x" or "0X". */
  lemma WrongHexAnswerFailsCaptcha(s: Session, ws: string, sign: string, prefix: string, d: string, rest: string)
    requires forall i :: 0 <= i < |ws| ==> IsJsWhiteSpace(ws[i])
    requires IsSign(sign) && (prefix == "0x" || prefix == "0X")
    requires d != [] && forall i :: 0 <= i < |d| ==> IsHexDigit(d[i])
    requires rest == [] || !IsHexDigit(rest[0])
    requires s.captchaAnswer == ws + (sign + (prefix + (d + rest)))
    requires (if sign == "-" then -(RadixValue(d, true) as int) else RadixValue(d, true)) != s.captcha.answer
    ensures CaptchaWrong(s)
  {
    ParseIntOfHexNumeral(ws, sign, prefix, d, rest);
  }

  lemma BlankAnswerFailsCaptcha(s: Session)
    requires s.captchaAnswer == ""
    ensures CaptchaWrong(s)
  {
  }

  /** Before the first captcha is generated, nothing that reaches the captcha check passes it. */
  lemma InitialCaptchaRejects(s: Session, f: Form)
    requires s.captcha == InitialCaptcha
    ensures !ValidateBotProtection(s, f).isValid
  {
  }

  /** A message that mentions a spam keyword, in any ASCII case, is never valid. */
  lemma SpamIsRejected(s: Session, f: Form, k: nat)
    requires f.message.Some? && k < |SpamKeywords|
    requires Contains(ToLower(f.message.value), SpamKeywords[k])
    ensures !ValidateBotProtection(s, f).isValid
  {
  }

  /**
   The name heuristic lowercases the name but not the e-mail address, so an
   address whose user part holds an upper-case letter never trips it.
   */
  lemma UpperCaseUserPartNeverMatches(f: Form, i: nat)
    requires Truthy(f.email) && i < |BeforeFirst(f.email.value, '@')|
    requires 'A' <= BeforeFirst(f.email.value, '@')[i] <= 'Z'
    ensures !NameIsEmailUser(f)
  {
  }
}
