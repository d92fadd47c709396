/** The request schemas of lib/utils/validation.ts and `validateSchema`, which
    turns a failed parse into a map from field path to message. The schemas are
    zod objects; their parse is modelled the way zod 3 runs it: every field is
    checked and every failed string check reported, a field of the wrong type (or
    an enum value outside its options) aborts the object, and an object-level
    refinement runs only when nothing aborted. Unknown keys are stripped from the
    parsed data. The email format check is a supplied predicate. */
module Validation {
  import opened Base
  import opened Unicode

  /** A JSON value as `request.json()` produces it. */
  datatype Json =
    | JString(s: string)
    | JNumber(n: int)
    | JBool(b: bool)
    | JNull
    | JArray(items: seq<Json>)
    | JObject(fields: map<string, Json>)

  /** zod's name for the type of a received value; an absent key is `undefined`. */
  function TypeName(v: Option<Json>): string {
    match v
    case None => "undefined"
    case Some(JString(_)) => "string"
    case Some(JNumber(_)) => "number"
    case Some(JBool(_)) => "boolean"
    case Some(JNull) => "null"
    case Some(JArray(_)) => "array"
    case Some(JObject(_)) => "object"
  }

  /** The message zod gives a value of the wrong type. */
  function TypeMessage(expected: string, v: Option<Json>): string {
    if v.None? then "Required" else "Expected " + expected + ", received " + TypeName(v)
  }

  datatype Issue = Issue(path: seq<string>, message: string)

  // ---------------------------------------------------------------------------
  // The phone pattern /^\+?[1-9]\d{1,14}$/
  // ---------------------------------------------------------------------------

  /** What the phone pattern describes: an optional `+`, then 2 to 15 ASCII
      digits of which the first is not `0`. */
  predicate PhoneShaped(s: string) {
    var body := if |s| > 0 && s[0] == '+' then s[1..] else s;
    2 <= |body| <= 15 && '1' <= body[0] <= '9' && AllDigits(body)
  }

  /** The states of the matcher for the phone pattern: nothing read, the `+`
      read, or `n` digits read (the first of them non-zero). */
  datatype PhoneState = Start | Signed | Digits(n: nat)

  function PhoneStep(st: PhoneState, c: char): Option<PhoneState> {
    match st
    case Start => if c == '+' then Some(Signed) else if '1' <= c <= '9' then Some(Digits(1)) else None
    case Signed => if '1' <= c <= '9' then Some(Digits(1)) else None
    case Digits(n) => if IsDigit(c) && n < 15 then Some(Digits(n + 1)) else None
  }

  function PhoneRun(st: PhoneState, s: string): Option<PhoneState>
    decreases |s|
  {
    if |s| == 0 then Some(st)
    else match PhoneStep(st, s[0])
      case None => None
      case Some(next) => PhoneRun(next, s[1..])
  }

  /** `phoneRegex.test(s)`: run the matcher over the whole string and accept in a
      state with at least two digits. */
  predicate MatchesPhone(s: string) {
    var e := PhoneRun(Start, s);
    e.Some? && e.value.Digits? && e.value.n >= 2
  }

  /** From `n` digits the matcher reads on exactly through digits, up to 15 in all. */
  lemma {:induction false} RunFromDigits(n: nat, t: string)
    requires 1 <= n <= 15
    ensures PhoneRun(Digits(n), t) == if AllDigits(t) && n + |t| <= 15 then Some(Digits(n + |t|)) else None
    decreases |t|
  {
    if |t| > 0 {
      if IsDigit(t[0]) && n < 15 {
        RunFromDigits(n + 1, t[1..]);
        assert AllDigits(t) <==> AllDigits(t[1..]) by {
          assert forall i :: 1 <= i < |t| ==> t[i] == t[1..][i - 1];
        }
      }
    }
  }

  /** The matcher accepts exactly the strings the pattern describes. */
  lemma MatchesPhoneIffShaped(s: string)
    ensures MatchesPhone(s) <==> PhoneShaped(s)
  {
    if |s| > 0 {
      if s[0] == '+' {
        var body := s[1..];
        if |body| > 0 {
          assert PhoneRun(Start, s) == PhoneRun(Signed, body);
          if '1' <= body[0] <= '9' {
            assert PhoneRun(Signed, body) == PhoneRun(Digits(1), body[1..]);
            RunFromDigits(1, body[1..]);
            AllDigitsCons(body);
          }
        } else {
          assert PhoneRun(Start, s) == PhoneRun(Signed, body) == Some(Signed);
        }
      } else if '1' <= s[0] <= '9' {
        assert PhoneRun(Start, s) == PhoneRun(Digits(1), s[1..]);
        RunFromDigits(1, s[1..]);
        AllDigitsCons(s);
      }
    }
  }

  lemma AllDigitsCons(s: string)
    requires |s| > 0 && IsDigit(s[0])
    ensures AllDigits(s) <==> AllDigits(s[1..])
  {
    assert forall i :: 1 <= i < |s| ==> s[i] == s[1..][i - 1];
  }

  // ---------------------------------------------------------------------------
  // String checks and field rules
  // ---------------------------------------------------------------------------

  /** The single-character patterns of the password schema. */
  predicate IsAsciiLetter(c: char) {
    'A' <= c <= 'Z' || 'a' <= c <= 'z'
  }

  predicate HasLetter(s: string) {
    exists i :: 0 <= i < |s| && IsAsciiLetter(s[i])
  }

  predicate HasDigit(s: string) {
    exists i :: 0 <= i < |s| && IsDigit(s[i])
  }

  datatype Pattern = PhonePattern | LetterPattern | DigitPattern

  /** `regex.test(s)` for the schema's patterns. */
  predicate PatternMatches(p: Pattern, s: string) {
    match p
    case PhonePattern => MatchesPhone(s)
    case LetterPattern => HasLetter(s)
    case DigitPattern => HasDigit(s)
  }

  /** One check of a `z.string()` chain, with its message. Lengths are
      JavaScript's, in UTF-16 code units. */
  datatype Check =
    | MinLength(n: nat, message: string)
    | ExactLength(n: nat, message: string)
    | Matches(p: Pattern, message: string)
    | EmailFormat(message: string)

  predicate Holds(c: Check, s: string, isEmail: string -> bool) {
    match c
    case MinLength(n, _) => Utf16Length(s) >= n
    case ExactLength(n, _) => Utf16Length(s) == n
    case Matches(p, _) => PatternMatches(p, s)
    case EmailFormat(_) => isEmail(s)
  }

  /** The issues of a string's checks: every failing check, in chain order. */
  function CheckIssues(name: string, checks: seq<Check>, s: string, isEmail: string -> bool): (r: seq<Issue>)
    ensures |r| <= |checks|
    ensures r == [] <==> forall i :: 0 <= i < |checks| ==> Holds(checks[i], s, isEmail)
    ensures forall i :: 0 <= i < |r| ==> r[i].path == [name]
  {
    if |checks| == 0 then []
    else
      var rest := CheckIssues(name, checks[1..], s, isEmail);
      assert forall j :: 1 <= j < |checks| ==> checks[j] == checks[1..][j - 1];
      if Holds(checks[0], s, isEmail) then rest
      else [Issue([name], checks[0].message)] + rest
  }

  /** How one field of an object schema is checked. */
  datatype Rule =
    | Str(checks: seq<Check>)
    | OneOf(options: seq<string>)
    | MustBeTrue(message: string)

  /** `'a' | 'b' | …`, as zod lists an enum's options. */
  function OptionList(options: seq<string>): string {
    if |options| == 0 then ""
    else if |options| == 1 then "'" + options[0] + "'"
    else "'" + options[0] + "' | " + OptionList(options[1..])
  }

  /** A value the rule cannot even start on: wrong type, missing, or (for an enum)
      outside the options. zod aborts the object on these. */
  predicate Aborts(rule: Rule, v: Option<Json>) {
    match rule
    case Str(_) => !(v.Some? && v.value.JString?)
    case OneOf(options) => !(v.Some? && v.value.JString? && v.value.s in options)
    case MustBeTrue(_) => !(v.Some? && v.value.JBool?)
  }

  /** The value passes every part of the rule. */
  predicate Accepts(rule: Rule, v: Option<Json>, isEmail: string -> bool) {
    && !Aborts(rule, v)
    && match rule
       case Str(checks) => forall i :: 0 <= i < |checks| ==> Holds(checks[i], v.value.s, isEmail)
       case OneOf(_) => true
       case MustBeTrue(_) => v.value.b
  }

  /** The issues one field contributes, all at the field's path. */
  function FieldIssues(name: string, rule: Rule, v: Option<Json>, isEmail: string -> bool): (r: seq<Issue>)
    ensures r == [] <==> Accepts(rule, v, isEmail)
    ensures Aborts(rule, v) ==> |r| == 1
    ensures forall i :: 0 <= i < |r| ==> r[i].path == [name]
  {
    match rule
    case Str(checks) =>
      if v.Some? && v.value.JString? then CheckIssues(name, checks, v.value.s, isEmail)
      else [Issue([name], TypeMessage("string", v))]
    case OneOf(options) =>
      if v.Some? && v.value.JString? then
        if v.value.s in options then []
        else [Issue([name], "Invalid enum value. Expected " + OptionList(options) + ", received '" + v.value.s + "'")]
      else [Issue([name], TypeMessage(OptionList(options), v))]
    case MustBeTrue(message) =>
      if v.Some? && v.value.JBool? then (if v.value.b then [] else [Issue([name], message)])
      else [Issue([name], TypeMessage("boolean", v))]
  }

  datatype Field = Field(name: string, rule: Rule)

  /** A `z.object({...})`, with or without the `.refine` that `password` equal
      `confirmPassword`. */
  datatype Schema = Schema(fields: seq<Field>, passwordsMustMatch: bool)

  function Get(obj: map<string, Json>, key: string): Option<Json> {
    if key in obj then Some(obj[key]) else None
  }

  /** The issues of all fields, in declaration order, and whether any aborted. */
  function FieldsIssues(fields: seq<Field>, obj: map<string, Json>, isEmail: string -> bool): (r: (seq<Issue>, bool))
    ensures r.0 == [] <==> forall i :: 0 <= i < |fields| ==> Accepts(fields[i].rule, Get(obj, fields[i].name), isEmail)
    ensures r.1 <==> exists i :: 0 <= i < |fields| && Aborts(fields[i].rule, Get(obj, fields[i].name))
    ensures forall i :: 0 <= i < |r.0| ==> exists j :: 0 <= j < |fields| && r.0[i].path == [fields[j].name]
  {
    if |fields| == 0 then ([], false)
    else
      var f := fields[0];
      var first := FieldIssues(f.name, f.rule, Get(obj, f.name), isEmail);
      var rest := FieldsIssues(fields[1..], obj, isEmail);
      assert forall j :: 1 <= j < |fields| ==> fields[j] == fields[1..][j - 1];
      (first + rest.0, Aborts(f.rule, Get(obj, f.name)) || rest.1)
  }

  const MismatchMessage: string := "Passwords don't match"

  /** `schema.safeParse(input).error.errors`: the issues in the order zod raises
      them; no issues means the parse succeeded. */
  function ParseIssues(schema: Schema, input: Json, isEmail: string -> bool): (r: seq<Issue>)
    ensures !input.JObject? ==> r == [Issue([], "Expected object, received " + TypeName(Some(input)))]
  {
    match input
    case JObject(obj) =>
      var (issues, aborted) := FieldsIssues(schema.fields, obj, isEmail);
      if schema.passwordsMustMatch && !aborted && Get(obj, "password") != Get(obj, "confirmPassword")
      then issues + [Issue(["confirmPassword"], MismatchMessage)]
      else issues
    case _ => [Issue([], "Expected object, received " + TypeName(Some(input)))]
  }

  /** The parsed data: the schema's keys only, unknown keys stripped. */
  function Strip(schema: Schema, obj: map<string, Json>): (data: map<string, Json>)
    ensures forall k :: k in data <==> k in obj && exists i :: 0 <= i < |schema.fields| && schema.fields[i].name == k
    ensures forall k :: k in data ==> data[k] == obj[k]
  {
    map k | k in obj && exists i :: 0 <= i < |schema.fields| && schema.fields[i].name == k :: obj[k]
  }

  /** `path.join('.')` */
  function JoinPath(path: seq<string>): string {
    if |path| == 0 then ""
    else if |path| == 1 then path[0]
    else path[0] + "." + JoinPath(path[1..])
  }

  /** Issue `i` is the last one whose joined path is `key`. */
  predicate LastAt(issues: seq<Issue>, key: string, i: int) {
    && 0 <= i < |issues| && JoinPath(issues[i].path) == key
    && forall j :: i < j < |issues| ==> JoinPath(issues[j].path) != key
  }

  /** The `errors` record `validateSchema` builds with `errors[path] = message`
      over the issues in order: one entry per distinct joined path, holding the
      message of the last issue at that path. */
  function ErrorMap(issues: seq<Issue>): (m: map<string, string>)
    ensures forall key :: key in m <==> exists i :: 0 <= i < |issues| && JoinPath(issues[i].path) == key
    ensures forall key :: key in m ==> exists i :: LastAt(issues, key, i) && m[key] == issues[i].message
    decreases |issues|
  {
    if |issues| == 0 then map[]
    else
      var init := issues[..|issues| - 1];
      var last := issues[|issues| - 1];
      var m := ErrorMap(init)[JoinPath(last.path) := last.message];
      assert forall i :: 0 <= i < |init| ==> init[i] == issues[i];
      assert forall key, i :: key != JoinPath(last.path) && LastAt(init, key, i) ==> LastAt(issues, key, i);
      assert LastAt(issues, JoinPath(last.path), |issues| - 1);
      m
  }

  datatype Validated = Valid(data: map<string, Json>) | Invalid(errors: map<string, string>)

  /** `validateSchema(schema, data)` */
  function ValidateSchema(schema: Schema, input: Json, isEmail: string -> bool): (r: Validated)
    ensures r.Valid? <==> ParseIssues(schema, input, isEmail) == []
    ensures r.Valid? ==> input.JObject? && r.data == Strip(schema, input.fields)
    ensures r.Invalid? ==> |r.errors| > 0
  {
    var issues := ParseIssues(schema, input, isEmail);
    if issues == [] then Valid(Strip(schema, input.fields))
    else
      assert JoinPath(issues[0].path) in ErrorMap(issues);
      Invalid(ErrorMap(issues))
  }

  /** A later issue at a path replaces an earlier one: with two issues at the same
      path, the map keeps the second's message. */
  lemma LaterIssueWins(a: Issue, b: Issue)
    requires JoinPath(a.path) == JoinPath(b.path)
    ensures ErrorMap([a, b]) == map[JoinPath(a.path) := b.message]
  {
    var m := ErrorMap([a, b]);
    var key := JoinPath(a.path);
    assert LastAt([a, b], key, 1);
    assert forall i :: LastAt([a, b], key, i) ==> i == 1;
    assert m.Keys == {key};
  }

  // ---------------------------------------------------------------------------
  // The schemas
  // ---------------------------------------------------------------------------

  const EmailCheck: Check := EmailFormat("Invalid email address")
  const PhoneCheck: Check := Matches(PhonePattern, "Invalid phone number format")

  /** `passwordSchema`: at least 6 characters, a letter and a digit. */
  const PasswordChecks: seq<Check> := [
    MinLength(6, "Password must be at least 6 characters"),
    Matches(LetterPattern, "Password must contain at least one letter"),
    Matches(DigitPattern, "Password must contain at least one number")]

  const Roles: seq<string> := ["buyer", "seller", "sme", "trainer"]
  const AgreeMessage: string := "You must agree to the terms"

  function SignUpFields(identifier: Field): seq<Field> {
    [Field("fullName", Str([MinLength(2, "Full name must be at least 2 characters")])),
     identifier,
     Field("password", Str(PasswordChecks)),
     Field("confirmPassword", Str([])),
     Field("role", OneOf(Roles)),
     Field("agree", MustBeTrue(AgreeMessage))]
  }

  const SignUpEmailSchema: Schema := Schema(SignUpFields(Field("email", Str([EmailCheck]))), true)
  const SignUpPhoneSchema: Schema := Schema(SignUpFields(Field("phone", Str([PhoneCheck]))), true)
  const SignInEmailSchema: Schema :=
    Schema([Field("email", Str([EmailCheck])), Field("password", Str([MinLength(1, "Password is required")]))], false)
  const SignInPhoneSchema: Schema :=
    Schema([Field("phone", Str([PhoneCheck])), Field("password", Str([MinLength(1, "Password is required")]))], false)
  const VerifyOtpSchema: Schema :=
    Schema([Field("phone", Str([PhoneCheck])), Field("code", Str([ExactLength(6, "OTP must be 6 digits")]))], false)
  const ForgotPasswordSchema: Schema := Schema([Field("email", Str([EmailCheck]))], false)
  const ResetPasswordSchema: Schema :=
    Schema([Field("token", Str([MinLength(1, "Token is required")])),
            Field("password", Str(PasswordChecks)),
            Field("confirmPassword", Str([]))], true)

  /** The field is present and a string. */
  predicate StringAt(obj: map<string, Json>, key: string) {
    key in obj && obj[key].JString?
  }

  /** The password schema accepts exactly the strings of 6 or more UTF-16 code units
      with an ASCII letter and an ASCII digit. */
  lemma PasswordRule(v: Option<Json>, isEmail: string -> bool)
    ensures Accepts(Str(PasswordChecks), v, isEmail)
            <==> v.Some? && v.value.JString? && Utf16Length(v.value.s) >= 6 && HasLetter(v.value.s) && HasDigit(v.value.s)
  {
    if v.Some? && v.value.JString? {
      var s := v.value.s;
      assert Holds(PasswordChecks[0], s, isEmail) <==> Utf16Length(s) >= 6;
      assert Holds(PasswordChecks[1], s, isEmail) <==> HasLetter(s);
      assert Holds(PasswordChecks[2], s, isEmail) <==> HasDigit(s);
    }
  }

  /** Every field of the schema accepts its value. */
  predicate AllAccept(fields: seq<Field>, obj: map<string, Json>, isEmail: string -> bool) {
    forall i :: 0 <= i < |fields| ==> Accepts(fields[i].rule, Get(obj, fields[i].name), isEmail)
  }

  /** A schema accepts an input exactly when it is an object whose fields all
      accept and, for a schema with the refinement, whose password equals its
      confirmation. */
  lemma ValidIff(schema: Schema, input: Json, isEmail: string -> bool)
    ensures ValidateSchema(schema, input, isEmail).Valid?
            <==> && input.JObject? && AllAccept(schema.fields, input.fields, isEmail)
                 && (schema.passwordsMustMatch ==> Get(input.fields, "password") == Get(input.fields, "confirmPassword"))
  {
    if input.JObject? {
      var r := FieldsIssues(schema.fields, input.fields, isEmail);
      if AllAccept(schema.fields, input.fields, isEmail) {
        assert !r.1;
      }
    }
  }

  /** A string field with one check accepts exactly a string passing it. */
  lemma OneCheck(c: Check, v: Option<Json>, isEmail: string -> bool)
    ensures Accepts(Str([c]), v, isEmail) <==> v.Some? && v.value.JString? && Holds(c, v.value.s, isEmail)
  {
    assert [c][0] == c;
  }

  /** The phone field accepts exactly a string the phone pattern describes. */
  lemma PhoneField(v: Option<Json>, isEmail: string -> bool)
    ensures Accepts(Str([PhoneCheck]), v, isEmail) <==> v.Some? && v.value.JString? && PhoneShaped(v.value.s)
  {
    OneCheck(PhoneCheck, v, isEmail);
    if v.Some? && v.value.JString? {
      MatchesPhoneIffShaped(v.value.s);
    }
  }

  /** What the sign-up schemas demand besides the identifier. */
  predicate SignUpCommonOk(obj: map<string, Json>) {
    && StringAt(obj, "fullName") && Utf16Length(obj["fullName"].s) >= 2
    && StringAt(obj, "password") && Utf16Length(obj["password"].s) >= 6
    && HasLetter(obj["password"].s) && HasDigit(obj["password"].s)
    && StringAt(obj, "confirmPassword") && obj["password"] == obj["confirmPassword"]
    && StringAt(obj, "role") && obj["role"].s in Roles
    && Get(obj, "agree") == Some(JBool(true))
  }

  /** The common sign-up fields accept, and the refinement holds, exactly when
      `SignUpCommonOk`. */
  lemma SignUpFieldsIff(identifier: Field, obj: map<string, Json>, isEmail: string -> bool)
    ensures (AllAccept(SignUpFields(identifier), obj, isEmail) && Get(obj, "password") == Get(obj, "confirmPassword"))
            <==> SignUpCommonOk(obj) && Accepts(identifier.rule, Get(obj, identifier.name), isEmail)
  {
    var f := SignUpFields(identifier);
    SixFields(f, obj, isEmail);
    assert f[1] == identifier;
    OneCheck(MinLength(2, "Full name must be at least 2 characters"), Get(obj, "fullName"), isEmail);
    PasswordRule(Get(obj, "password"), isEmail);
    assert Accepts(f[3].rule, Get(obj, "confirmPassword"), isEmail) <==> StringAt(obj, "confirmPassword");
  }

  /** The e-mail sign-up schema accepts exactly an object with a valid email and
      the common sign-up fields, passwords equal. */
  lemma SignUpEmailAccepts(input: Json, isEmail: string -> bool)
    ensures ValidateSchema(SignUpEmailSchema, input, isEmail).Valid?
            <==> input.JObject? && SignUpCommonOk(input.fields)
                 && StringAt(input.fields, "email") && isEmail(input.fields["email"].s)
  {
    ValidIff(SignUpEmailSchema, input, isEmail);
    if input.JObject? {
      SignUpEmailFields(input.fields, isEmail);
    }
  }

  lemma SignUpEmailFields(obj: map<string, Json>, isEmail: string -> bool)
    ensures (AllAccept(SignUpEmailSchema.fields, obj, isEmail) && Get(obj, "password") == Get(obj, "confirmPassword"))
            <==> SignUpCommonOk(obj) && StringAt(obj, "email") && isEmail(obj["email"].s)
  {
    SignUpFieldsIff(Field("email", Str([EmailCheck])), obj, isEmail);
    OneCheck(EmailCheck, Get(obj, "email"), isEmail);
  }

  /** The phone sign-up schema accepts exactly an object with a well-formed phone
      number and the common sign-up fields, passwords equal. */
  lemma SignUpPhoneAccepts(input: Json, isEmail: string -> bool)
    ensures ValidateSchema(SignUpPhoneSchema, input, isEmail).Valid?
            <==> input.JObject? && SignUpCommonOk(input.fields)
                 && StringAt(input.fields, "phone") && PhoneShaped(input.fields["phone"].s)
  {
    ValidIff(SignUpPhoneSchema, input, isEmail);
    if input.JObject? {
      SignUpPhoneFields(input.fields, isEmail);
    }
  }

  lemma SignUpPhoneFields(obj: map<string, Json>, isEmail: string -> bool)
    ensures (AllAccept(SignUpPhoneSchema.fields, obj, isEmail) && Get(obj, "password") == Get(obj, "confirmPassword"))
            <==> SignUpCommonOk(obj) && StringAt(obj, "phone") && PhoneShaped(obj["phone"].s)
  {
    SignUpFieldsIff(Field("phone", Str([PhoneCheck])), obj, isEmail);
    PhoneField(Get(obj, "phone"), isEmail);
  }

  /** A mismatched confirmation on an otherwise well-typed sign-up is reported
      under `confirmPassword` with "Passwords don't match". */
  lemma MismatchReportedAtConfirm(input: Json, identifier: Field, isEmail: string -> bool)
    requires input.JObject?
    requires forall f :: f in SignUpFields(identifier) ==> !Aborts(f.rule, Get(input.fields, f.name))
    requires Get(input.fields, "password") != Get(input.fields, "confirmPassword")
    ensures var r := ValidateSchema(Schema(SignUpFields(identifier), true), input, isEmail);
            r.Invalid? && "confirmPassword" in r.errors && r.errors["confirmPassword"] == MismatchMessage
  {
    var fields := SignUpFields(identifier);
    var obj := input.fields;
    var r := FieldsIssues(fields, obj, isEmail);
    assert !r.1 by {
      forall i | 0 <= i < |fields|
        ensures !Aborts(fields[i].rule, Get(obj, fields[i].name))
      {
        assert fields[i] in fields;
      }
    }
    var issues := ParseIssues(Schema(fields, true), input, isEmail);
    assert issues == r.0 + [Issue(["confirmPassword"], MismatchMessage)];
    assert LastAt(issues, "confirmPassword", |issues| - 1);
    assert forall i :: LastAt(issues, "confirmPassword", i) ==> i == |issues| - 1;
  }

  /** Every field of a short schema accepts exactly when each one does. */
  lemma OneField(f: seq<Field>, obj: map<string, Json>, isEmail: string -> bool)
    requires |f| == 1
    ensures AllAccept(f, obj, isEmail) <==> Accepts(f[0].rule, Get(obj, f[0].name), isEmail)
  {
  }

  lemma ThreeFields(f: seq<Field>, obj: map<string, Json>, isEmail: string -> bool)
    requires |f| == 3
    ensures AllAccept(f, obj, isEmail)
            <==> && Accepts(f[0].rule, Get(obj, f[0].name), isEmail) && Accepts(f[1].rule, Get(obj, f[1].name), isEmail)
                 && Accepts(f[2].rule, Get(obj, f[2].name), isEmail)
  {
  }

  lemma SixFields(f: seq<Field>, obj: map<string, Json>, isEmail: string -> bool)
    requires |f| == 6
    ensures AllAccept(f, obj, isEmail)
            <==> && Accepts(f[0].rule, Get(obj, f[0].name), isEmail) && Accepts(f[1].rule, Get(obj, f[1].name), isEmail)
                 && Accepts(f[2].rule, Get(obj, f[2].name), isEmail) && Accepts(f[3].rule, Get(obj, f[3].name), isEmail)
                 && Accepts(f[4].rule, Get(obj, f[4].name), isEmail) && Accepts(f[5].rule, Get(obj, f[5].name), isEmail)
  {
  }


  lemma TwoFields(f: seq<Field>, obj: map<string, Json>, isEmail: string -> bool)
    requires |f| == 2
    ensures AllAccept(f, obj, isEmail)
            <==> Accepts(f[0].rule, Get(obj, f[0].name), isEmail) && Accepts(f[1].rule, Get(obj, f[1].name), isEmail)
  {
  }

  /** The sign-in schemas require only a non-empty password besides the identifier. */
  lemma SignInEmailAccepts(input: Json, isEmail: string -> bool)
    ensures ValidateSchema(SignInEmailSchema, input, isEmail).Valid?
            <==> input.JObject? && StringAt(input.fields, "email") && isEmail(input.fields["email"].s)
                 && StringAt(input.fields, "password") && Utf16Length(input.fields["password"].s) >= 1
  {
    ValidIff(SignInEmailSchema, input, isEmail);
    if input.JObject? {
      SignInEmailFields(input.fields, isEmail);
    }
  }

  lemma SignInEmailFields(obj: map<string, Json>, isEmail: string -> bool)
    ensures AllAccept(SignInEmailSchema.fields, obj, isEmail)
            <==> StringAt(obj, "email") && isEmail(obj["email"].s) && StringAt(obj, "password") && Utf16Length(obj["password"].s) >= 1
  {
    TwoFields(SignInEmailSchema.fields, obj, isEmail);
    OneCheck(EmailCheck, Get(obj, "email"), isEmail);
    OneCheck(MinLength(1, "Password is required"), Get(obj, "password"), isEmail);
  }

  lemma SignInPhoneAccepts(input: Json, isEmail: string -> bool)
    ensures ValidateSchema(SignInPhoneSchema, input, isEmail).Valid?
            <==> input.JObject? && StringAt(input.fields, "phone") && PhoneShaped(input.fields["phone"].s)
                 && StringAt(input.fields, "password") && Utf16Length(input.fields["password"].s) >= 1
  {
    ValidIff(SignInPhoneSchema, input, isEmail);
    if input.JObject? {
      SignInPhoneFields(input.fields, isEmail);
    }
  }

  lemma SignInPhoneFields(obj: map<string, Json>, isEmail: string -> bool)
    ensures AllAccept(SignInPhoneSchema.fields, obj, isEmail)
            <==> StringAt(obj, "phone") && PhoneShaped(obj["phone"].s) && StringAt(obj, "password") && Utf16Length(obj["password"].s) >= 1
  {
    TwoFields(SignInPhoneSchema.fields, obj, isEmail);
    PhoneField(Get(obj, "phone"), isEmail);
    OneCheck(MinLength(1, "Password is required"), Get(obj, "password"), isEmail);
  }

  /** The OTP schema checks the code's length only: any six UTF-16 code units pass. */
  lemma VerifyOtpAccepts(input: Json, isEmail: string -> bool)
    ensures ValidateSchema(VerifyOtpSchema, input, isEmail).Valid?
            <==> input.JObject? && StringAt(input.fields, "phone") && PhoneShaped(input.fields["phone"].s)
                 && StringAt(input.fields, "code") && Utf16Length(input.fields["code"].s) == 6
  {
    ValidIff(VerifyOtpSchema, input, isEmail);
    if input.JObject? {
      VerifyOtpFields(input.fields, isEmail);
    }
  }

  lemma VerifyOtpFields(obj: map<string, Json>, isEmail: string -> bool)
    ensures AllAccept(VerifyOtpSchema.fields, obj, isEmail)
            <==> StringAt(obj, "phone") && PhoneShaped(obj["phone"].s) && StringAt(obj, "code") && Utf16Length(obj["code"].s) == 6
  {
    TwoFields(VerifyOtpSchema.fields, obj, isEmail);
    PhoneField(Get(obj, "phone"), isEmail);
    OneCheck(ExactLength(6, "OTP must be 6 digits"), Get(obj, "code"), isEmail);
  }

  /** Three emoji are six code units, so they pass the OTP length check though
      they are three characters and no digits. */
  lemma EmojiCodePasses(isEmail: string -> bool)
    ensures Holds(ExactLength(6, "OTP must be 6 digits"), "\U{1F600}\U{1F600}\U{1F600}", isEmail)
    ensures |"\U{1F600}\U{1F600}\U{1F600}"| == 3
  {
    ThreeEmojiAreSixUnits();
  }

  /** The reset schema: a non-empty token, a schema-valid password, and an equal
      confirmation. */
  lemma ResetPasswordAccepts(input: Json, isEmail: string -> bool)
    ensures ValidateSchema(ResetPasswordSchema, input, isEmail).Valid?
            <==> input.JObject? && StringAt(input.fields, "token") && Utf16Length(input.fields["token"].s) >= 1
                 && StringAt(input.fields, "password") && Utf16Length(input.fields["password"].s) >= 6
                 && HasLetter(input.fields["password"].s) && HasDigit(input.fields["password"].s)
                 && StringAt(input.fields, "confirmPassword")
                 && input.fields["password"] == input.fields["confirmPassword"]
  {
    ValidIff(ResetPasswordSchema, input, isEmail);
    if input.JObject? {
      ResetPasswordFields(input.fields, isEmail);
    }
  }

  lemma ResetPasswordFields(obj: map<string, Json>, isEmail: string -> bool)
    ensures AllAccept(ResetPasswordSchema.fields, obj, isEmail)
            <==> StringAt(obj, "token") && Utf16Length(obj["token"].s) >= 1
                 && StringAt(obj, "password") && Utf16Length(obj["password"].s) >= 6
                 && HasLetter(obj["password"].s) && HasDigit(obj["password"].s)
                 && StringAt(obj, "confirmPassword")
  {
    var f := ResetPasswordSchema.fields;
    ThreeFields(f, obj, isEmail);
    OneCheck(MinLength(1, "Token is required"), Get(obj, "token"), isEmail);
    PasswordRule(Get(obj, "password"), isEmail);
    assert Accepts(f[2].rule, Get(obj, "confirmPassword"), isEmail) <==> StringAt(obj, "confirmPassword");
  }

  /** The forgot-password schema accepts exactly an object with a valid email. */
  lemma ForgotPasswordAccepts(input: Json, isEmail: string -> bool)
    ensures ValidateSchema(ForgotPasswordSchema, input, isEmail).Valid?
            <==> input.JObject? && StringAt(input.fields, "email") && isEmail(input.fields["email"].s)
  {
    ValidIff(ForgotPasswordSchema, input, isEmail);
    if input.JObject? {
      ForgotPasswordFields(input.fields, isEmail);
    }
  }

  lemma ForgotPasswordFields(obj: map<string, Json>, isEmail: string -> bool)
    ensures AllAccept(ForgotPasswordSchema.fields, obj, isEmail) <==> StringAt(obj, "email") && isEmail(obj["email"].s)
  {
    OneField(ForgotPasswordSchema.fields, obj, isEmail);
    OneCheck(EmailCheck, Get(obj, "email"), isEmail);
  }

}
