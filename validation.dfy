/**
 * The contact form's validation and sanitising helpers.  Form fields are
 * strings or absent (`None` for undefined/null); JavaScript truthiness of
 * a string is "non-empty".
 */
module Validation {
  import opened Wrappers

  /** The characters JavaScript's `\s` and `String.prototype.trim` treat as white space. */
  predicate IsJsSpace(c: char) {
    || c == '\t' || c == '\n' || c == '\U{000B}' || c == '\U{000C}' || c == '\r' || c == ' '
    || c == '\U{00A0}' || c == '\U{1680}' || ('\U{2000}' <= c <= '\U{200A}')
    || c == '\U{2028}' || c == '\U{2029}' || c == '\U{202F}' || c == '\U{205F}' || c == '\U{3000}' || c == '\U{FEFF}'
  }

  predicate AllSpace(s: string) {
    forall i :: 0 <= i < |s| ==> IsJsSpace(s[i])
  }

  function TrimStart(s: string): (t: string)
    ensures |t| <= |s|
  {
    if s != [] && IsJsSpace(s[0]) then TrimStart(s[1..]) else s
  }

  function TrimEnd(s: string): (t: string)
    ensures |t| <= |s|
  {
    if s != [] && IsJsSpace(s[|s| - 1]) then TrimEnd(s[..|s| - 1]) else s
  }

  /** String.prototype.trim. */
  function Trim(s: string): string {
    TrimEnd(TrimStart(s))
  }

  lemma {:induction false} TrimStartSplits(s: string) returns (k: nat)
    ensures var t := TrimStart(s);
            && (t != [] ==> !IsJsSpace(t[0]))
            && k <= |s| && AllSpace(s[..k]) && t == s[k..]
  {
    if s != [] && IsJsSpace(s[0]) {
      var k' := TrimStartSplits(s[1..]);
      k := k' + 1;
      forall i | 0 <= i < k
        ensures IsJsSpace(s[..k][i])
      {
        if i > 0 {
          assert s[..k][i] == s[1..][..k'][i - 1];
        }
      }
      assert s[k..] == s[1..][k'..];
    } else {
      k := 0;
      assert s[..0] == [] && s[0..] == s;
    }
  }

  lemma {:induction false} TrimEndSplits(s: string) returns (k: nat)
    ensures var t := TrimEnd(s);
            && (t != [] ==> !IsJsSpace(t[|t| - 1]))
            && k <= |s| && AllSpace(s[k..]) && t == s[..k]
  {
    if s != [] && IsJsSpace(s[|s| - 1]) {
      var u := s[..|s| - 1];
      k := TrimEndSplits(u);
      assert s[k..] == u[k..] + [s[|s| - 1]];
      assert s[..k] == u[..k];
    } else {
      k := |s|;
      assert s[|s|..] == [] && s[..|s|] == s;
    }
  }

  /** A string whose ends are not white space is its own trim. */
  lemma TrimNoop(s: string)
    requires s != [] ==> !IsJsSpace(s[0]) && !IsJsSpace(s[|s| - 1])
    ensures Trim(s) == s
  {
  }

  /** trim removes exactly the leading and trailing white space: s = pre + trim(s) + post with blank pre and post. */
  lemma TrimShape(s: string)
    ensures var t := Trim(s);
            && (t != [] ==> !IsJsSpace(t[0]) && !IsJsSpace(t[|t| - 1]))
            && exists i, j :: 0 <= i <= j <= |s| && AllSpace(s[..i]) && AllSpace(s[j..]) && t == s[i..j]
  {
    var u := TrimStart(s);
    var i := TrimStartSplits(s);
    var k := TrimEndSplits(u);
    var t := Trim(s);
    assert t == TrimEnd(u);
    assert s[i + k..] == u[k..];
    assert t == s[i..i + k];
    if t != [] {
      assert t[0] == u[0];
    }
  }

  lemma TrimIdempotent(s: string)
    ensures Trim(Trim(s)) == Trim(s)
  {
    TrimShape(s);
    TrimNoop(Trim(s));
  }

  /** validateRequired: present and not blank after trimming. */
  predicate ValidateRequired(value: Option<string>) {
    value.Some? && value.value != [] && |Trim(value.value)| > 0
  }

  /** validateMinLength: present, non-empty, and at least `minLength` long after trimming. */
  predicate ValidateMinLength(value: Option<string>, minLength: int) {
    value.Some? && value.value != [] && |Trim(value.value)| >= minLength
  }

  /** validateMaxLength: absent or empty passes; otherwise at most `maxLength` long after trimming. */
  predicate ValidateMaxLength(value: Option<string>, maxLength: int) {
    value.None? || value.value == [] || |Trim(value.value)| <= maxLength
  }

  lemma RequiredIffNonBlank(value: Option<string>)
    ensures ValidateRequired(value) <==> value.Some? && Trim(value.value) != []
  {
    if value.Some? && value.value == [] {
      assert Trim(value.value) == [];
    }
  }

  /** Any minimum of at least 1 implies the field is required. */
  lemma MinLengthImpliesRequired(value: Option<string>, minLength: int)
    requires minLength >= 1 && ValidateMinLength(value, minLength)
    ensures ValidateRequired(value)
  {
  }

  /** The maximum accepts the empty field and is inclusive. */
  lemma MaxLengthInclusive(s: string, maxLength: int)
    ensures ValidateMaxLength(Some(""), maxLength) && ValidateMaxLength(None, maxLength)
    ensures |Trim(s)| == maxLength ==> ValidateMaxLength(Some(s), maxLength)
  {
  }

  /** Neither white space nor '@': the class [^\s@]. */
  predicate Plain(s: string) {
    forall i :: 0 <= i < |s| ==> !IsJsSpace(s[i]) && s[i] != '@'
  }

  /** Position of the first `c` in `s`, or |s|. */
  function IndexOf(s: string, c: char): (i: nat)
    ensures i <= |s| && (i < |s| ==> s[i] == c)
    ensures forall j :: 0 <= j < i ==> s[j] != c
  {
    if s == [] || s[0] == c then 0 else 1 + IndexOf(s[1..], c)
  }

  /** validateEmail, computed without a regex engine: one '@' after a plain local part, then a plain domain with an inner '.'. */
  predicate ValidateEmail(email: string) {
    var at := IndexOf(email, '@');
    && 0 < at < |email|
    && Plain(email[..at])
    && var domain := email[at + 1..];
       && Plain(domain)
       && |domain| >= 3
       && IndexOf(domain[1..|domain| - 1], '.') < |domain| - 2
  }

  /** The language of /^[^\s@]+@[^\s@]+\.[^\s@]+$/: plain+ '@' plain+ '.' plain+. */
  ghost predicate EmailPattern(s: string) {
    exists i, j :: 0 < i && i + 1 < j && j + 1 < |s| && s[i] == '@' && s[j] == '.'
                   && Plain(s[..i]) && Plain(s[i + 1..j]) && Plain(s[j + 1..])
  }

  lemma EmailCheckMatchesPattern(s: string)
    requires ValidateEmail(s)
    ensures EmailPattern(s)
  {
    var at := IndexOf(s, '@');
    var domain := s[at + 1..];
    var p := IndexOf(domain[1..|domain| - 1], '.');
    var j := at + 2 + p;
    assert s[j] == '.';
    assert s[at + 1..j] == domain[..p + 1];
    assert s[j + 1..] == domain[p + 2..];
    assert Plain(s[at + 1..j]) && Plain(s[j + 1..]);
  }

  lemma PatternPassesEmailCheck(s: string, i: int, j: int)
    requires 0 < i && i + 1 < j && j + 1 < |s| && s[i] == '@' && s[j] == '.'
    requires Plain(s[..i]) && Plain(s[i + 1..j]) && Plain(s[j + 1..])
    ensures ValidateEmail(s)
  {
    assert forall k :: 0 <= k < i ==> s[..i][k] == s[k];
    assert IndexOf(s, '@') == i;
    var domain := s[i + 1..];
    forall k | 0 <= k < |domain|
      ensures !IsJsSpace(domain[k]) && domain[k] != '@'
    {
      if i + 1 + k < j {
        assert domain[k] == s[i + 1..j][k];
      } else if i + 1 + k > j {
        assert domain[k] == s[j + 1..][i + 1 + k - j - 1];
      }
    }
    var inner := domain[1..|domain| - 1];
    assert inner[j - i - 2] == '.';
  }

  /** The computed check accepts exactly the strings the pattern matches. */
  lemma ValidateEmailIsPattern(s: string)
    ensures ValidateEmail(s) <==> EmailPattern(s)
  {
    if ValidateEmail(s) {
      EmailCheckMatchesPattern(s);
    }
    if EmailPattern(s) {
      var i, j :| 0 < i && i + 1 < j && j + 1 < |s| && s[i] == '@' && s[j] == '.'
                  && Plain(s[..i]) && Plain(s[i + 1..j]) && Plain(s[j + 1..]);
      PatternPassesEmailCheck(s, i, j);
    }
  }

  /** A valid email has no white space, exactly one '@', a non-empty local part, and an inner '.' after the '@'. */
  lemma ValidEmailShape(s: string)
    requires ValidateEmail(s)
    ensures forall k :: 0 <= k < |s| ==> !IsJsSpace(s[k])
    ensures exists at :: 0 < at < |s| && s[at] == '@' && forall k :: 0 <= k < |s| && k != at ==> s[k] != '@'
  {
    var at := IndexOf(s, '@');
    forall k | 0 <= k < |s| && k != at
      ensures s[k] != '@' && !IsJsSpace(s[k])
    {
      if k < at {
        assert s[k] == s[..at][k];
      } else {
        assert s[k] == s[at + 1..][k - at - 1];
      }
    }
  }

  /** The submitted form; a field may be missing. */
  datatype FormData = FormData(name: Option<string>, email: Option<string>, subject: Option<string>, message: Option<string>)

  /** The error messages, verbatim. */
  const NameRequired := "Name is required"
  const NameTooShort := "Name must be at least 2 characters"
  const NameTooLong := "Name must be less than 50 characters"
  const EmailRequired := "Email is required"
  const EmailInvalid := "Please enter a valid email address"
  const SubjectRequired := "Subject is required"
  const SubjectTooShort := "Subject must be at least 5 characters"
  const SubjectTooLong := "Subject must be less than 100 characters"
  const MessageRequired := "Message is required"
  const MessageTooShort := "Message must be at least 10 characters"
  const MessageTooLong := "Message must be less than 1000 characters"

  /** The if/else chain for one length-checked field: required first, then minimum, then maximum. */
  function LengthError(value: Option<string>, minLength: int, maxLength: int,
                       required: string, tooShort: string, tooLong: string): Option<string>
  {
    if !ValidateRequired(value) then Some(required)
    else if !ValidateMinLength(value, minLength) then Some(tooShort)
    else if !ValidateMaxLength(value, maxLength) then Some(tooLong)
    else None
  }

  function NameError(v: Option<string>): Option<string> {
    LengthError(v, 2, 50, NameRequired, NameTooShort, NameTooLong)
  }

  function EmailError(v: Option<string>): Option<string> {
    if !ValidateRequired(v) then Some(EmailRequired)
    else if !ValidateEmail(v.value) then Some(EmailInvalid)
    else None
  }

  function SubjectError(v: Option<string>): Option<string> {
    LengthError(v, 5, 100, SubjectRequired, SubjectTooShort, SubjectTooLong)
  }

  function MessageError(v: Option<string>): Option<string> {
    LengthError(v, 10, 1000, MessageRequired, MessageTooShort, MessageTooLong)
  }

  function WithError(errors: map<string, string>, field: string, e: Option<string>): map<string, string> {
    if e.Some? then errors[field := e.value] else errors
  }

  /** The errors object validateContactForm builds. */
  function FormErrors(form: FormData): map<string, string> {
    WithError(WithError(WithError(WithError(map[], "name", NameError(form.name)), "email", EmailError(form.email)),
              "subject", SubjectError(form.subject)), "message", MessageError(form.message))
  }

  /** A length-checked field passes iff its trimmed text has a length in [min, max]. */
  lemma LengthErrorNone(value: Option<string>, minLength: int, maxLength: int, r: string, s: string, l: string)
    requires minLength >= 1
    ensures LengthError(value, minLength, maxLength, r, s, l).None?
            <==> value.Some? && minLength <= |Trim(value.value)| <= maxLength
  {
    if value.Some? && value.value == [] {
      assert Trim(value.value) == [];
    }
  }

  /**
   * isValid holds iff there are no errors iff all four checks pass: name of
   * 2..50 characters, a valid email, subject of 5..100 and message of
   * 10..1000, all counted after trimming.
   */
  lemma FormValidIff(form: FormData)
    ensures FormErrors(form) == map[] <==>
            && form.name.Some? && 2 <= |Trim(form.name.value)| <= 50
            && form.email.Some? && |Trim(form.email.value)| > 0 && ValidateEmail(form.email.value)
            && form.subject.Some? && 5 <= |Trim(form.subject.value)| <= 100
            && form.message.Some? && 10 <= |Trim(form.message.value)| <= 1000
  {
    LengthErrorNone(form.name, 2, 50, NameRequired, NameTooShort, NameTooLong);
    LengthErrorNone(form.subject, 5, 100, SubjectRequired, SubjectTooShort, SubjectTooLong);
    LengthErrorNone(form.message, 10, 1000, MessageRequired, MessageTooShort, MessageTooLong);
    RequiredIffNonBlank(form.email);
    var e := FormErrors(form);
    if NameError(form.name).Some? {
      assert "name" in e;
    }
    if EmailError(form.email).Some? {
      assert "email" in e;
    }
    if SubjectError(form.subject).Some? {
      assert "subject" in e;
    }
    if MessageError(form.message).Some? {
      assert "message" in e;
    }
  }

  /** Only the four field keys appear, and "required" wins over every other message. */
  lemma RequiredTakesPrecedence(form: FormData)
    ensures FormErrors(form).Keys <= {"name", "email", "subject", "message"}
    ensures !ValidateRequired(form.name) ==> FormErrors(form)["name"] == NameRequired
    ensures !ValidateRequired(form.email) ==> FormErrors(form)["email"] == EmailRequired
    ensures !ValidateRequired(form.subject) ==> FormErrors(form)["subject"] == SubjectRequired
    ensures !ValidateRequired(form.message) ==> FormErrors(form)["message"] == MessageRequired
  {
  }

  /** A name of exactly 50 characters gets no error, though the message says "less than 50". */
  lemma FiftyCharacterNameAccepted(name: string)
    requires |name| == 50 && !IsJsSpace(name[0]) && !IsJsSpace(name[49])
    ensures NameError(Some(name)).None?
  {
    TrimNoop(name);
  }

  /** validateContactForm fills the errors object field by field. */
  method ValidateContactForm(formData: FormData) returns (isValid: bool, errors: map<string, string>)
    ensures errors == FormErrors(formData)
    ensures isValid <==> errors == map[]
  {
    errors := map[];
    if !ValidateRequired(formData.name) {
      errors := errors["name" := NameRequired];
    } else if !ValidateMinLength(formData.name, 2) {
      errors := errors["name" := NameTooShort];
    } else if !ValidateMaxLength(formData.name, 50) {
      errors := errors["name" := NameTooLong];
    }
    assert errors == WithError(map[], "name", NameError(formData.name));
    if !ValidateRequired(formData.email) {
      errors := errors["email" := EmailRequired];
    } else if !ValidateEmail(formData.email.value) {
      errors := errors["email" := EmailInvalid];
    }
    assert errors == WithError(WithError(map[], "name", NameError(formData.name)), "email", EmailError(formData.email));
    if !ValidateRequired(formData.subject) {
      errors := errors["subject" := SubjectRequired];
    } else if !ValidateMinLength(formData.subject, 5) {
      errors := errors["subject" := SubjectTooShort];
    } else if !ValidateMaxLength(formData.subject, 100) {
      errors := errors["subject" := SubjectTooLong];
    }
    assert errors == WithError(WithError(WithError(map[], "name", NameError(formData.name)), "email", EmailError(formData.email)),
                               "subject", SubjectError(formData.subject));
    ghost var before := errors;
    if !ValidateRequired(formData.message) {
      errors := errors["message" := MessageRequired];
    } else if !ValidateMinLength(formData.message, 10) {
      errors := errors["message" := MessageTooShort];
    } else if !ValidateMaxLength(formData.message, 1000) {
      errors := errors["message" := MessageTooLong];
    }
    assert errors == WithError(before, "message", MessageError(formData.message));
    isValid := |errors| == 0;
  }

  /** String.prototype.replace with a global single-character pattern. */
  function Replace(s: string, c: char, replacement: string): string {
    if s == [] then []
    else (if s[0] == c then replacement else [s[0]]) + Replace(s[1..], c, replacement)
  }

  /** sanitizeInput on a string: the five replace calls in order. */
  function Sanitize(s: string): string {
    Replace(Replace(Replace(Replace(Replace(s, '<', "&lt;"), '>', "&gt;"), '"', "&quot;"), '\'', "&#x27;"), '/', "&#x2F;")
  }

  /** sanitizeInput: non-strings (here: absent values) come back as they are. */
  function SanitizeInput(input: Option<string>): Option<string> {
    match input
    case None => None
    case Some(s) => Some(Sanitize(s))
  }

  predicate IsTarget(c: char) {
    c == '<' || c == '>' || c == '"' || c == '\'' || c == '/'
  }

  /** One character's HTML entity, as a single-pass escaper would write it. */
  function EscapeChar(c: char): string {
    match c
    case '<' => "&lt;"
    case '>' => "&gt;"
    case '"' => "&quot;"
    case '\'' => "&#x27;"
    case '/' => "&#x2F;"
    case _ => [c]
  }

  function Escape(s: string): string {
    if s == [] then [] else EscapeChar(s[0]) + Escape(s[1..])
  }

  lemma {:induction false} ReplaceAppend(a: string, b: string, c: char, r: string)
    ensures Replace(a + b, c, r) == Replace(a, c, r) + Replace(b, c, r)
  {
    if a != [] {
      assert (a + b)[1..] == a[1..] + b;
      ReplaceAppend(a[1..], b, c, r);
    } else {
      assert a + b == b;
    }
  }

  lemma {:induction false} ReplaceAbsent(s: string, c: char, r: string)
    requires forall i :: 0 <= i < |s| ==> s[i] != c
    ensures Replace(s, c, r) == s
  {
    if s != [] {
      ReplaceAbsent(s[1..], c, r);
    }
  }

  lemma SanitizeAppend(a: string, b: string)
    ensures Sanitize(a + b) == Sanitize(a) + Sanitize(b)
  {
    var r1a, r1b := Replace(a, '<', "&lt;"), Replace(b, '<', "&lt;");
    ReplaceAppend(a, b, '<', "&lt;");
    var r2a, r2b := Replace(r1a, '>', "&gt;"), Replace(r1b, '>', "&gt;");
    ReplaceAppend(r1a, r1b, '>', "&gt;");
    var r3a, r3b := Replace(r2a, '"', "&quot;"), Replace(r2b, '"', "&quot;");
    ReplaceAppend(r2a, r2b, '"', "&quot;");
    var r4a, r4b := Replace(r3a, '\'', "&#x27;"), Replace(r3b, '\'', "&#x27;");
    ReplaceAppend(r3a, r3b, '\'', "&#x27;");
    ReplaceAppend(r4a, r4b, '/', "&#x2F;");
  }

  lemma ReplaceOne(c: char, t: char, r: string)
    ensures Replace([c], t, r) == if c == t then r else [c]
  {
    assert [c][1..] == [];
  }

  lemma SanitizeLess(c: char)
    requires c == '<'
    ensures Sanitize([c]) == EscapeChar(c)
  {
    ReplaceOne(c, '<', "&lt;");
    var s1 := Replace([c], '<', "&lt;");
    ReplaceAbsent(s1, '>', "&gt;");
    ReplaceAbsent(s1, '"', "&quot;");
    ReplaceAbsent(s1, '\'', "&#x27;");
    ReplaceAbsent(s1, '/', "&#x2F;");
  }

  lemma SanitizeGreater(c: char)
    requires c == '>'
    ensures Sanitize([c]) == EscapeChar(c)
  {
    ReplaceOne(c, '<', "&lt;");
    ReplaceOne(c, '>', "&gt;");
    var s2 := Replace([c], '>', "&gt;");
    ReplaceAbsent(s2, '"', "&quot;");
    ReplaceAbsent(s2, '\'', "&#x27;");
    ReplaceAbsent(s2, '/', "&#x2F;");
  }

  lemma SanitizeQuote(c: char)
    requires c == '"'
    ensures Sanitize([c]) == EscapeChar(c)
  {
    ReplaceOne(c, '<', "&lt;");
    ReplaceOne(c, '>', "&gt;");
    ReplaceOne(c, '"', "&quot;");
    var s3 := Replace([c], '"', "&quot;");
    ReplaceAbsent(s3, '\'', "&#x27;");
    ReplaceAbsent(s3, '/', "&#x2F;");
  }

  lemma SanitizeApostrophe(c: char)
    requires c == '\''
    ensures Sanitize([c]) == EscapeChar(c)
  {
    ReplaceOne(c, '<', "&lt;");
    ReplaceOne(c, '>', "&gt;");
    ReplaceOne(c, '"', "&quot;");
    ReplaceOne(c, '\'', "&#x27;");
    var s4 := Replace([c], '\'', "&#x27;");
    ReplaceAbsent(s4, '/', "&#x2F;");
  }

  lemma SanitizeOther(c: char)
    requires !IsTarget(c) || c == '/'
    ensures Sanitize([c]) == EscapeChar(c)
  {
    ReplaceOne(c, '<', "&lt;");
    ReplaceOne(c, '>', "&gt;");
    ReplaceOne(c, '"', "&quot;");
    ReplaceOne(c, '\'', "&#x27;");
    ReplaceOne(c, '/', "&#x2F;");
  }

  /** Sanitising one character writes its entity, or the character itself. */
  lemma SanitizeChar(c: char)
    ensures Sanitize([c]) == EscapeChar(c)
  {
    if c == '<' {
      SanitizeLess(c);
    } else if c == '>' {
      SanitizeGreater(c);
    } else if c == '"' {
      SanitizeQuote(c);
    } else if c == '\'' {
      SanitizeApostrophe(c);
    } else {
      SanitizeOther(c);
    }
  }

  /** The replace chain equals a single pass, since no entity contains a later target. */
  lemma {:induction false} SanitizeIsEscape(s: string)
    ensures Sanitize(s) == Escape(s)
  {
    if s != [] {
      assert s == [s[0]] + s[1..];
      SanitizeAppend([s[0]], s[1..]);
      SanitizeChar(s[0]);
      SanitizeIsEscape(s[1..]);
    } else {
      assert Replace([], '<', "&lt;") == [];
    }
  }

  /** The escaped text holds no target character; '&', and every other non-target, passes through. */
  lemma {:induction false} EscapeSafe(s: string)
    ensures forall i :: 0 <= i < |Escape(s)| ==> !IsTarget(Escape(s)[i])
    ensures (forall i :: 0 <= i < |s| ==> !IsTarget(s[i])) ==> Escape(s) == s
  {
    if s != [] {
      EscapeSafe(s[1..]);
      var e := EscapeChar(s[0]);
      assert forall i :: 0 <= i < |e| ==> !IsTarget(e[i]);
      assert Escape(s) == e + Escape(s[1..]);
      forall i | 0 <= i < |Escape(s)|
        ensures !IsTarget(Escape(s)[i])
      {
        if i >= |e| {
          assert Escape(s)[i] == Escape(s[1..])[i - |e|];
        }
      }
    }
  }

  /** The output of sanitizeInput contains none of < > " ' /, and text without them is returned unchanged. */
  lemma SanitizeSafe(s: string)
    ensures forall i :: 0 <= i < |Sanitize(s)| ==> !IsTarget(Sanitize(s)[i])
    ensures (forall i :: 0 <= i < |s| ==> !IsTarget(s[i])) ==> Sanitize(s) == s
  {
    SanitizeIsEscape(s);
    EscapeSafe(s);
  }

  lemma SanitizeIdempotent(s: string)
    ensures Sanitize(Sanitize(s)) == Sanitize(s)
  {
    SanitizeSafe(s);
    SanitizeSafe(Sanitize(s));
  }

  /** '&' is not escaped, so a typed entity and the character it names sanitise alike. */
  lemma SanitizeNotInjective(entity: string)
    requires entity == "&lt;"
    ensures Sanitize("<") == Sanitize(entity) == entity
  {
    SanitizeLess('<');
    assert forall i :: 0 <= i < |entity| ==> !IsTarget(entity[i]);
    SanitizeSafe(entity);
  }

  /** String.prototype.toLowerCase, on ASCII letters. */
  function LowerChar(c: char): char {
    if 'A' <= c <= 'Z' then (c as int + 32) as char else c
  }

  function Lower(s: string): (t: string)
    ensures |t| == |s| && forall i :: 0 <= i < |s| ==> t[i] == LowerChar(s[i])
  {
    if s == [] then [] else [LowerChar(s[0])] + Lower(s[1..])
  }

  /** Optional chaining `v?.trim()`. */
  function TrimField(v: Option<string>): Option<string> {
    match v
    case None => None
    case Some(s) => Some(Trim(s))
  }

  /** `v?.toLowerCase()` on an already optional value. */
  function LowerField(v: Option<string>): Option<string> {
    match v
    case None => None
    case Some(s) => Some(Lower(s))
  }

  /** formatFormData: every field trimmed and sanitised, the email lowercased in between; absent stays absent. */
  function FormatFormData(form: FormData): FormData {
    FormData(
      name := SanitizeInput(TrimField(form.name)),
      email := SanitizeInput(LowerField(TrimField(form.email))),
      subject := SanitizeInput(TrimField(form.subject)),
      message := SanitizeInput(TrimField(form.message)))
  }

  /** Each formatted field is the single-pass escape of the trimmed (for email, also lowercased) text. */
  lemma FormatFields(form: FormData)
    ensures var f := FormatFormData(form);
            && (form.name.Some? <==> f.name.Some?)
            && (form.name.Some? ==> f.name.value == Escape(Trim(form.name.value)))
            && (form.email.Some? ==> f.email == Some(Escape(Lower(Trim(form.email.value)))))
            && (form.subject.Some? ==> f.subject == Some(Escape(Trim(form.subject.value))))
            && (form.message.Some? ==> f.message == Some(Escape(Trim(form.message.value))))
  {
    if form.name.Some? {
      SanitizeIsEscape(Trim(form.name.value));
    }
    if form.email.Some? {
      SanitizeIsEscape(Lower(Trim(form.email.value)));
    }
    if form.subject.Some? {
      SanitizeIsEscape(Trim(form.subject.value));
    }
    if form.message.Some? {
      SanitizeIsEscape(Trim(form.message.value));
    }
  }

  /** Escaping trimmed text leaves nothing to trim: entities start with '&' and end with ';'. */
  lemma TrimEscaped(t: string)
    requires t != [] ==> !IsJsSpace(t[0]) && !IsJsSpace(t[|t| - 1])
    ensures Trim(Sanitize(t)) == Sanitize(t)
  {
    SanitizeIsEscape(t);
    if t != [] {
      EscapeEnds(t);
    }
    TrimNoop(Escape(t));
  }

  lemma {:induction false} EscapeEnds(t: string)
    requires t != []
    ensures Escape(t) != []
    ensures Escape(t)[0] == (if IsTarget(t[0]) then '&' else t[0])
    ensures Escape(t)[|Escape(t)| - 1] == (if IsTarget(t[|t| - 1]) then ';' else t[|t| - 1])
  {
    if |t| == 1 {
      assert Escape(t) == EscapeChar(t[0]);
    } else {
      EscapeEnds(t[1..]);
      assert Escape(t) == EscapeChar(t[0]) + Escape(t[1..]);
    }
  }

  /** Formatting twice gives the same name, subject and message as formatting once. */
  lemma FormatTextFieldsIdempotent(form: FormData)
    ensures var f := FormatFormData(FormatFormData(form));
            f.name == FormatFormData(form).name && f.subject == FormatFormData(form).subject
            && f.message == FormatFormData(form).message
  {
    if form.name.Some? {
      FormatOnce(form.name.value);
    }
    if form.subject.Some? {
      FormatOnce(form.subject.value);
    }
    if form.message.Some? {
      FormatOnce(form.message.value);
    }
  }

  lemma FormatOnce(s: string)
    ensures Sanitize(Trim(Sanitize(Trim(s)))) == Sanitize(Trim(s))
  {
    TrimShape(s);
    TrimEscaped(Trim(s));
    SanitizeIdempotent(Trim(s));
  }

  /** The email is lowercased before sanitising, so the entity "&#x2F;" keeps its capital F and a second pass changes it. */
  lemma FormatEmailNotIdempotent(form: FormData)
    requires form == FormData(None, Some("/"), None, None)
    ensures FormatFormData(form).email == Some("&#x2F;")
    ensures FormatFormData(FormatFormData(form)).email == Some("&#x2f;")
  {
    var slash := form.email.value;
    assert Trim(slash) == slash && Lower(slash) == slash;
    SanitizeChar('/');
    assert [slash[0]] == slash;
    var once := FormatFormData(form).email.value;
    assert once == "&#x2F;";
    FormatEntityAgain(once);
  }

  lemma FormatEntityAgain(once: string)
    requires once == "&#x2F;"
    ensures SanitizeInput(LowerField(TrimField(Some(once)))) == Some("&#x2f;")
  {
    TrimEntity(once);
    LowerEntity(once);
    SanitizeLoweredEntity(Lower(once));
  }

  lemma TrimEntity(once: string)
    requires once == "&#x2F;"
    ensures Trim(once) == once
  {
    TrimNoop(once);
  }

  lemma LowerEntity(once: string)
    requires once == "&#x2F;"
    ensures Lower(once) == "&#x2f;"
  {
    assert LowerChar('F') == 'f';
  }

  lemma SanitizeLoweredEntity(twice: string)
    requires twice == "&#x2f;"
    ensures Sanitize(twice) == twice
  {
    SanitizeSafe(twice);
  }

  /** Lowercasing leaves text without capitals unchanged. */
  lemma LowerPlain(s: string)
    requires forall i :: 0 <= i < |s| ==> !('A' <= s[i] <= 'Z')
    ensures Lower(s) == s
  {
  }
}
