/**
 * The request validators: the required-field check, the email, password
 * and username shape checks, the trimming sanitizer, and the lighter
 * presence checks used by the email-sending routes.
 */
module Validation {
  import opened JsValues
  import opened TableRows

  /** What a validating middleware does with the request: pass it on, or
      answer 400 with a message key and the offending details. */
  datatype Verdict = Next | Rejected(key: string, details: seq<string>)

  // ---------------------------------------------------------------------
  // validateRequiredFields
  // ---------------------------------------------------------------------

  /** `v.toString().trim() === ''` for a truthy value: only strings and
      arrays can render blank (an array renders its one element, or `,`
      separators as soon as it has two). */
  predicate BlankText(v: JsValue)
    decreases v
  {
    match v
    case Str(s) => Trim(s) == ""
    case Arr(items) =>
      |items| == 0 ||
      (|items| == 1 && (items[0].Undefined? || items[0].Null? || BlankText(items[0])))
    case _ => false
  }

  /** A required field is missing when it is falsy (so 0 and false count)
      or renders as blank text. */
  function MissingIn(body: map<string, JsValue>): string -> bool
  {
    f => !Truthy(Get(body, f)) || BlankText(Get(body, f))
  }

  /** `validateRequiredFields`: the missing fields, in the order listed. */
  method ValidateRequiredFields(body: map<string, JsValue>, required: seq<string>) returns (v: Verdict)
    ensures var missing := Where(required, MissingIn(body));
            v == (if missing == [] then Next else Rejected("user.errors.missing_fields", missing))
  {
    var missing: seq<string> := [];
    for i := 0 to |required|
      invariant missing == Where(required[..i], MissingIn(body))
    {
      var f := required[i];
      assert required[..i + 1] == required[..i] + [f];
      WhereAppend(required[..i], f, MissingIn(body));
      var value := Get(body, f);
      if !Truthy(value) || BlankText(value) {
        assert MissingIn(body)(f);
        missing := missing + [f];
      } else {
        assert !MissingIn(body)(f);
      }
    }
    assert required[..|required|] == required;
    if |missing| > 0 {
      return Rejected("user.errors.missing_fields", missing);
    }
    return Next;
  }

  /** Zero and false are missing, and so is a string of spaces; a nested
      value is present. */
  lemma RequiredFieldExamples(f: string)
    ensures MissingIn(map[f := Num(0.0)])(f)
    ensures MissingIn(map[f := Bool(false)])(f)
    ensures MissingIn(map[f := Str("  ")])(f)
    ensures !MissingIn(map[f := Obj(map[])])(f)
  {
    SpacesTrimToNothing();
    var body := map[f := Str("  ")];
    assert Get(body, f) == Str("  ");
  }

  lemma SpacesTrimToNothing()
    ensures Trim("  ") == ""
  {
    var two := "  ";
    assert two[1..] == " " && " "[1..] == "";
    assert IsSpace(two[0]) && IsSpace(" "[0]);
    assert TrimStart(two) == TrimStart(" ");
    assert TrimStart(" ") == TrimStart("");
  }

  // ---------------------------------------------------------------------
  // validateEmail
  // ---------------------------------------------------------------------

  /** No whitespace and no `@`: the class `[^\s@]`. */
  predicate Plain(s: string)
  {
    forall i :: 0 <= i < |s| ==> !IsSpace(s[i]) && s[i] != '@'
  }

  /** `/^[^\s@]+@[^\s@]+\.[^\s@]+$/` matched with its `@` at `i` and the
      chosen `.` at `k`. */
  predicate PatternAt(s: string, i: int, k: int)
  {
    && 0 < i && i + 1 < k && k + 1 < |s|
    && s[i] == '@' && s[k] == '.'
    && Plain(s[..i]) && Plain(s[i + 1..k]) && Plain(s[k + 1..])
  }

  /** The email regex as a description of the whole string. */
  ghost predicate MatchesEmailPattern(s: string)
  {
    exists i, k :: PatternAt(s, i, k)
  }

  /** The same check read as four conditions: no whitespace, exactly one
      `@` with text before it, and a `.` inside the domain with text on both
      sides. */
  predicate EmailOk(s: string)
  {
    && (forall j :: 0 <= j < |s| ==> !IsSpace(s[j]))
    && '@' in s
    && var i := CharIndex(s, '@');
       var domain := s[i + 1..];
       && i > 0
       && '@' !in domain
       && |domain| >= 3 && '.' in domain[1..|domain| - 1]
  }

  lemma EmailOkMatchesPattern(s: string)
    requires EmailOk(s)
    ensures MatchesEmailPattern(s)
  {
    var i := CharIndex(s, '@');
    var d := s[i + 1..];
    var j := CharIndex(d[1..|d| - 1], '.') + 1;
    var k := i + 1 + j;
    assert s[k] == '.' by { assert d[1..|d| - 1][j - 1] == d[j]; }
    assert Plain(s[..i]);
    var mid := s[i + 1..k];
    forall t | 0 <= t < |mid| ensures !IsSpace(mid[t]) && mid[t] != '@' {
      assert mid[t] == d[t];
    }
    var tail := s[k + 1..];
    forall t | 0 <= t < |tail| ensures !IsSpace(tail[t]) && tail[t] != '@' {
      assert tail[t] == d[j + 1 + t];
    }
    assert PatternAt(s, i, k);
  }

  lemma PatternMatchesEmailOk(s: string, i: int, k: int)
    requires PatternAt(s, i, k)
    ensures EmailOk(s)
  {
    forall j | 0 <= j < |s| ensures !IsSpace(s[j]) {
      if j < i {
        assert s[..i][j] == s[j];
      } else if i < j < k {
        assert s[i + 1..k][j - i - 1] == s[j];
      } else if k < j {
        assert s[k + 1..][j - k - 1] == s[j];
      }
    }
    assert '@' in s by { assert s[i] == '@'; }
    var d := s[i + 1..];
    forall t | 0 <= t < |d| ensures d[t] != '@' {
      var j := i + 1 + t;
      if j < k {
        assert s[i + 1..k][j - i - 1] == s[j];
      } else if k < j {
        assert s[k + 1..][j - k - 1] == s[j];
      }
    }
    assert d[1..|d| - 1][k - i - 2] == '.';
  }

  /** The two readings of the email check agree. */
  lemma EmailOkIffPattern(s: string)
    ensures EmailOk(s) <==> MatchesEmailPattern(s)
  {
    if EmailOk(s) {
      EmailOkMatchesPattern(s);
    }
    if MatchesEmailPattern(s) {
      var i, k :| PatternAt(s, i, k);
      PatternMatchesEmailOk(s, i, k);
    }
  }

  /** `validateEmail`: a falsy email is left to the required check; any
      other value is tested as `regex.test` sees it, by its text. */
  function ValidateEmail(field: string, email: JsValue): (v: Verdict)
    ensures v.Next? <==> !Truthy(email) || MatchesEmailPattern(ToText(email))
    ensures v.Rejected? ==> v == Rejected("user.errors.invalid_email", [field])
  {
    EmailOkIffPattern(ToText(email));
    if !Truthy(email) || EmailOk(ToText(email)) then Next else Rejected("user.errors.invalid_email", [field])
  }

  /** A one-item array is tested by its text, so `["a@b.c"]` passes. */
  lemma ArrayEmailAccepted()
    ensures ValidateEmail("email", Arr([Str("a@b.c")])).Next?
  {
    var s := "a@b.c";
    var v := Arr([Str(s)]);
    assert ToText(v) == s by {
      assert ItemsText(v, 1) == "";
      assert ItemsText(v, 0) == "" + s + "";
    }
    assert PatternAt(s, 1, 3);
    PatternMatchesEmailOk(s, 1, 3);
  }

  /** Looser than the addr-spec of section 3.4.1 of RFC 5322: consecutive
      dots, which a dot-atom forbids, pass. */
  lemma AcceptsConsecutiveDots()
    ensures EmailOk("a..b@c..d")
  {
    var s := "a..b@c..d";
    assert PatternAt(s, 4, 6);
    PatternMatchesEmailOk(s, 4, 6);
  }

  /** Stricter than that addr-spec in one respect: a quoted local part with
      a space is refused. */
  lemma RejectsQuotedSpace()
    ensures !MatchesEmailPattern("\"a b\"@c.d")
  {
    var s := "\"a b\"@c.d";
    assert IsSpace(s[2]);
    EmailOkIffPattern(s);
  }

  // ---------------------------------------------------------------------
  // validatePassword
  // ---------------------------------------------------------------------

  datatype PasswordOptions = PasswordOptions(
    minLength: int, maxLength: int,
    requireUppercase: bool, requireLowercase: bool, requireNumbers: bool, requireSpecialChars: bool)

  const DefaultPasswordOptions := PasswordOptions(6, 128, false, false, false, false)

  datatype PasswordError =
    | TooShort(min: int)
    | TooLong(max: int)
    | NoUppercase
    | NoLowercase
    | NoNumber
    | NoSpecialChar

  const SpecialChars: set<char> := {'!', '@', '#', '$', '%', '^', '&', '*', '(', ')', ',', '.', '?', '"', ':', '{', '}', '|', '<', '>'}

  predicate HasUpper(s: string) { exists i :: 0 <= i < |s| && IsUpper(s[i]) }
  predicate HasLower(s: string) { exists i :: 0 <= i < |s| && IsLower(s[i]) }
  predicate HasDigit(s: string) { exists i :: 0 <= i < |s| && IsDigit(s[i]) }
  predicate HasSpecial(s: string) { exists i :: 0 <= i < |s| && s[i] in SpecialChars }

  /** `v.length`: a string's or an array's length, an object's `length`
      member, and undefined for numbers, booleans, null and undefined. */
  function LengthOf(v: JsValue): (r: JsValue)
    ensures v.Str? ==> r == Num(|v.s| as real)
    ensures v.Arr? ==> r == Num(|v.items| as real)
    ensures v.Num? || v.Bool? ==> r == Undefined
  {
    match v
    case Str(s) => Num(|s| as real)
    case Arr(items) => Num(|items| as real)
    case Obj(fields) => Get(fields, "length")
    case _ => Undefined
  }

  /** Every rule's failure for a password of the given length and text,
      in the order the rules are checked. */
  function PasswordErrors(length: JsValue, text: string, o: PasswordOptions): (errors: seq<PasswordError>)
    ensures TooShort(o.minLength) in errors <==> LessThan(length, o.minLength as real)
    ensures TooLong(o.maxLength) in errors <==> GreaterThan(length, o.maxLength as real)
    ensures NoUppercase in errors <==> o.requireUppercase && !HasUpper(text)
    ensures NoLowercase in errors <==> o.requireLowercase && !HasLower(text)
    ensures NoNumber in errors <==> o.requireNumbers && !HasDigit(text)
    ensures NoSpecialChar in errors <==> o.requireSpecialChars && !HasSpecial(text)
    ensures forall e :: e in errors ==> e in {TooShort(o.minLength), TooLong(o.maxLength), NoUppercase,
                                              NoLowercase, NoNumber, NoSpecialChar}
  {
    var e1 := Push([], LessThan(length, o.minLength as real), TooShort(o.minLength));
    var e2 := Push(e1, GreaterThan(length, o.maxLength as real), TooLong(o.maxLength));
    var e3 := Push(e2, o.requireUppercase && !HasUpper(text), NoUppercase);
    var e4 := Push(e3, o.requireLowercase && !HasLower(text), NoLowercase);
    var e5 := Push(e4, o.requireNumbers && !HasDigit(text), NoNumber);
    Push(e5, o.requireSpecialChars && !HasSpecial(text), NoSpecialChar)
  }

  /** `validatePassword`: a falsy password passes; otherwise every rule is
      checked and every failure recorded, the length rules independently of
      each other. The length compares as `<` and `>` do (an undefined
      length compares false) and the patterns test the value's text. */
  method ValidatePassword(password: JsValue, o: PasswordOptions) returns (errors: seq<PasswordError>)
    ensures !Truthy(password) ==> errors == []
    ensures Truthy(password) ==> errors == PasswordErrors(LengthOf(password), ToText(password), o)
  {
    errors := [];
    if !Truthy(password) {
      return;
    }
    var length := LengthOf(password);
    var text := ToText(password);
    if LessThan(length, o.minLength as real) {
      errors := errors + [TooShort(o.minLength)];
    }
    ghost var e1 := errors;
    assert e1 == Push([], LessThan(length, o.minLength as real), TooShort(o.minLength));
    if GreaterThan(length, o.maxLength as real) {
      errors := errors + [TooLong(o.maxLength)];
    }
    ghost var e2 := errors;
    assert e2 == Push(e1, GreaterThan(length, o.maxLength as real), TooLong(o.maxLength));
    if o.requireUppercase && !HasUpper(text) {
      errors := errors + [NoUppercase];
    }
    ghost var e3 := errors;
    assert e3 == Push(e2, o.requireUppercase && !HasUpper(text), NoUppercase);
    if o.requireLowercase && !HasLower(text) {
      errors := errors + [NoLowercase];
    }
    ghost var e4 := errors;
    assert e4 == Push(e3, o.requireLowercase && !HasLower(text), NoLowercase);
    if o.requireNumbers && !HasDigit(text) {
      errors := errors + [NoNumber];
    }
    ghost var e5 := errors;
    assert e5 == Push(e4, o.requireNumbers && !HasDigit(text), NoNumber);
    if o.requireSpecialChars && !HasSpecial(text) {
      errors := errors + [NoSpecialChar];
    }
  }

  /** A string password's length rules compare its character count. */
  lemma StringPasswordLength(s: string, c: int)
    ensures LessThan(LengthOf(Str(s)), c as real) <==> |s| < c
    ensures GreaterThan(LengthOf(Str(s)), c as real) <==> |s| > c
  {
  }

  /** A number or boolean has no length, so neither length rule can fail
      for it, whatever the bounds. */
  lemma NumericPasswordSkipsLength(x: JsValue, c: real)
    requires x.Num? || x.Bool?
    ensures !LessThan(LengthOf(x), c) && !GreaterThan(LengthOf(x), c)
  {
  }

  /** The verdict: any recorded error rejects the request. */
  function PasswordVerdict(errors: seq<PasswordError>): (v: Verdict)
    ensures v.Next? <==> errors == []
  {
    if errors == [] then Next else Rejected("user.errors.password_validation", Messages(errors))
  }

  function Message(e: PasswordError): string
  {
    match e
    case TooShort(n) => "Password must be at least " + IntToString(n) + " characters long"
    case TooLong(n) => "Password must be no longer than " + IntToString(n) + " characters"
    case NoUppercase => "Password must contain at least one uppercase letter"
    case NoLowercase => "Password must contain at least one lowercase letter"
    case NoNumber => "Password must contain at least one number"
    case NoSpecialChar => "Password must contain at least one special character"
  }

  function Messages(errors: seq<PasswordError>): (r: seq<string>)
    ensures |r| == |errors|
    ensures forall i :: 0 <= i < |errors| ==> r[i] == Message(errors[i])
  {
    if errors == [] then [] else [Message(errors[0])] + Messages(errors[1..])
  }

  // ---------------------------------------------------------------------
  // validateUsername
  // ---------------------------------------------------------------------

  predicate WordChar(c: char)
  {
    IsLetter(c) || IsDigit(c) || c == '_'
  }

  /** `/^[a-zA-Z0-9_]{3,50}$/`. */
  predicate UsernameOk(s: string)
  {
    3 <= |s| <= 50 && forall i :: 0 <= i < |s| ==> WordChar(s[i])
  }

  /** `validateUsername`: a falsy username is left to the required check;
      any other value is tested by its text. */
  function ValidateUsername(field: string, username: JsValue): (v: Verdict)
    ensures v.Next? <==> !Truthy(username) || UsernameOk(ToText(username))
    ensures v.Rejected? ==> v == Rejected("user.errors.invalid_username", [field])
  {
    if !Truthy(username) || UsernameOk(ToText(username)) then Next else Rejected("user.errors.invalid_username", [field])
  }

  /** A number is tested by its digits: 12345 is a valid username, and
      `true` reads as the text "true". */
  lemma NonStringUsernames()
    ensures ValidateUsername("username", Num(12345.0)).Next?
    ensures ValidateUsername("username", Bool(true)).Next?
  {
    WholeNumberText(12345);
    assert ToText(Num(12345.0)) == "12345";
  }

  /** An accepted username or email is unchanged by the sanitizer's trim. */
  lemma AcceptedValuesAreTrimmed(username: string, email: string)
    ensures UsernameOk(username) ==> Trim(username) == username
    ensures EmailOk(email) ==> Trim(email) == email
  {
    if UsernameOk(username) {
      forall i | 0 <= i < |username| ensures !IsSpace(username[i]) {
        assert WordChar(username[i]);
      }
      TrimNoSpace(username);
    }
    if EmailOk(email) {
      TrimNoSpace(email);
    }
  }

  // ---------------------------------------------------------------------
  // sanitizeFields
  // ---------------------------------------------------------------------

  /** The parsed request body, which the sanitizer rewrites in place. */
  class Request {
    var body: map<string, JsValue>

    constructor(body0: map<string, JsValue>)
      ensures body == body0
    {
      body := body0;
    }
  }

  /** One field's value after the sanitizer: a listed non-empty string is
      trimmed, anything else kept. */
  function SanitizedValue(v: JsValue, listed: bool): JsValue
  {
    if listed && v.Str? && v.s != "" then Str(Trim(v.s)) else v
  }

  lemma SanitizedValueTwice(v: JsValue, listed: bool)
    ensures SanitizedValue(SanitizedValue(v, listed), true) == SanitizedValue(v, true)
  {
    if v.Str? && v.s != "" {
      TrimIdempotent(v.s);
    }
  }

  /** The body after trimming the listed fields that hold non-empty strings. */
  function Sanitized(body: map<string, JsValue>, fields: seq<string>): map<string, JsValue>
  {
    map k | k in body :: SanitizedValue(body[k], k in fields)
  }

  /** `sanitizeFields`: listing a field twice trims it twice, which is the
      same as once. */
  method SanitizeFields(req: Request, fields: seq<string>)
    modifies req
    ensures req.body == Sanitized(old(req.body), fields)
  {
    ghost var body0 := req.body;
    for i := 0 to |fields|
      invariant req.body == Sanitized(body0, fields[..i])
    {
      SanitizeStep(body0, fields, i);
      var f := fields[i];
      if f in req.body && req.body[f].Str? && req.body[f].s != "" {
        req.body := req.body[f := Str(Trim(req.body[f].s))];
      }
    }
    assert fields[..|fields|] == fields;
  }

  /** One more listed field sanitizes that field of the body sanitized so far. */
  lemma SanitizeStep(body: map<string, JsValue>, fields: seq<string>, i: int)
    requires 0 <= i < |fields|
    ensures var b := Sanitized(body, fields[..i]);
            var f := fields[i];
            Sanitized(body, fields[..i + 1]) == if f in b then b[f := SanitizedValue(b[f], true)] else b
  {
    var f := fields[i];
    var b := Sanitized(body, fields[..i]);
    var next := Sanitized(body, fields[..i + 1]);
    var want := if f in b then b[f := SanitizedValue(b[f], true)] else b;
    assert fields[..i + 1] == fields[..i] + [f];
    assert next.Keys == want.Keys;
    forall k | k in next
      ensures next[k] == want[k]
    {
      if k == f {
        SanitizedValueTwice(body[f], f in fields[..i]);
      } else {
        assert (k in fields[..i + 1]) == (k in fields[..i]);
      }
    }
  }

  /** Sanitizing is idempotent, and never adds, drops or retypes a field. */
  lemma SanitizedIdempotent(body: map<string, JsValue>, fields: seq<string>)
    ensures Sanitized(Sanitized(body, fields), fields) == Sanitized(body, fields)
    ensures Sanitized(body, fields).Keys == body.Keys
    ensures forall k :: k in body ==> (Sanitized(body, fields)[k].Str? <==> body[k].Str?)
  {
    var once := Sanitized(body, fields);
    forall k | k in body ensures Sanitized(once, fields)[k] == once[k] {
      SanitizedValueTwice(body[k], k in fields);
    }
  }

  // ---------------------------------------------------------------------
  // validateRequired and validateEmailTemplate
  // ---------------------------------------------------------------------

  /** `fields.filter(field => !req.body[field])`. */
  function Falsy(body: map<string, JsValue>): string -> bool
  {
    f => !Truthy(Get(body, f))
  }

  /** `validateRequired`: any falsy listed field rejects the request with
      `ApiResponse.validationError`, whose message key is the missing-fields
      one and which lists no fields (they are only logged). */
  function ValidateRequired(body: map<string, JsValue>, fields: seq<string>): (v: Verdict)
    ensures v.Next? <==> forall i :: 0 <= i < |fields| ==> Truthy(Get(body, fields[i]))
    ensures v.Rejected? ==> v == Rejected("user.errors.missing_fields", [])
  {
    var missing := Where(fields, Falsy(body));
    if |missing| > 0 then Rejected("user.errors.missing_fields", [])
    else
      assert forall i :: 0 <= i < |fields| ==> !Falsy(body)(fields[i]);
      Next
  }

  /** The presence check is weaker than the required-field check: a body
      that passes the latter passes the former. */
  lemma RequiredFieldsImplyPresent(body: map<string, JsValue>, fields: seq<string>)
    requires Where(fields, MissingIn(body)) == []
    ensures ValidateRequired(body, fields).Next?
  {
  }

  /** Only presence is checked: a number or an object satisfies it. */
  lemma AnyTruthyValueIsPresent(f: string)
    ensures ValidateRequired(map[f := Num(1.0)], [f]).Next?
    ensures ValidateRequired(map[f := Obj(map[])], [f]).Next?
  {
  }

  /** `validateEmailTemplate`: the template, its subject and its html must
      be truthy; the text part is optional. The rejection passes its message
      as the key, which the lookup answers with the key itself. */
  function ValidateEmailTemplate(body: map<string, JsValue>): (v: Verdict)
    ensures var tpl := Get(body, "emailTemplate");
            v.Next? <==> Truthy(tpl) && Truthy(Prop(tpl, "subject")) && Truthy(Prop(tpl, "html"))
    ensures v.Rejected? ==> v == Rejected("Email template is required", [])
  {
    var tpl := Get(body, "emailTemplate");
    if !Truthy(tpl) || !Truthy(Prop(tpl, "subject")) || !Truthy(Prop(tpl, "html"))
    then Rejected("Email template is required", [])
    else Next
  }

  /** A template without text passes, whatever type the subject has. */
  lemma TextIsOptional()
    ensures ValidateEmailTemplate(map["emailTemplate" := Obj(map["subject" := Num(1.0), "html" := Str("<p/>")])]).Next?
  {
  }
}
