/**
 * The form validators of the front end (utils/validation.js): Algerian
 * mobile numbers, e-mail addresses, required fields, the display layout of
 * a phone number, and the per-field error map of a form.
 */
module Validation {
  import opened Wrappers
  import opened GoText

  // ---------------------------------------------------------------- white space

  /** The characters of the regular-expression class \s (white space and line terminators). */
  predicate JsSpace(c: char) {
    var n := c as int;
    || 0x09 <= n <= 0x0D || n == 0x20 || n == 0xA0 || n == 0x1680
    || 0x2000 <= n <= 0x200A || n == 0x2028 || n == 0x2029 || n == 0x202F
    || n == 0x205F || n == 0x3000 || n == 0xFEFF
  }

  predicate NoSpace(s: string) { forall i :: 0 <= i < |s| ==> !JsSpace(s[i]) }

  predicate Blank(s: string) { forall i :: 0 <= i < |s| ==> JsSpace(s[i]) }

  /** replace(/\s/g, ''): the text with every white-space character removed. */
  function RemoveSpaces(s: string): (r: string)
    ensures NoSpace(r) && |r| <= |s|
    ensures NoSpace(s) ==> r == s
  {
    if s == [] then []
    else if JsSpace(s[0]) then RemoveSpaces(s[1..])
    else [s[0]] + RemoveSpaces(s[1..])
  }

  /** Removing white space keeps exactly the other characters of the text. */
  lemma {:induction false} RemoveSpacesKeeps(s: string)
    ensures forall c :: c in RemoveSpaces(s) <==> c in s && !JsSpace(c)
  {
    if s != [] {
      assert forall c :: c in s <==> c == s[0] || c in s[1..];
      RemoveSpacesKeeps(s[1..]);
    }
  }

  /** A white-space character anywhere in the text is dropped and changes nothing else. */
  lemma RemoveOneSpace(a: string, c: char, b: string)
    requires JsSpace(c)
    ensures RemoveSpaces(a + [c] + b) == RemoveSpaces(a + b)
  {
    var ra := RemoveSpaces(a);
    RemoveSpacesAppend(a + [c], b);
    RemoveSpacesAppend(a, [c]);
    SpaceVanishes(c);
    assert RemoveSpaces(a + [c]) == ra;
    RemoveSpacesAppend(a, b);
  }

  lemma SpaceVanishes(c: char)
    requires JsSpace(c)
    ensures RemoveSpaces([c]) == []
  {
    assert [c][1..] == [];
  }

  lemma {:induction false} RemoveSpacesAppend(a: string, b: string)
    ensures RemoveSpaces(a + b) == RemoveSpaces(a) + RemoveSpaces(b)
  {
    if a == [] {
      assert a + b == b;
    } else {
      assert (a + b)[1..] == a[1..] + b;
      RemoveSpacesAppend(a[1..], b);
    }
  }

  /** String.prototype.trim. */
  function Trim(s: string): (r: string)
    ensures r == [] <==> Blank(s)
  {
    if s == [] then s
    else if JsSpace(s[0]) then
      assert Blank(s) <==> Blank(s[1..]) by {
        assert forall i :: 1 <= i < |s| ==> s[i] == s[1..][i - 1];
      }
      Trim(s[1..])
    else if JsSpace(s[|s| - 1]) then
      // s[0] is kept, so neither s nor what is left of it is blank
      assert s[..|s| - 1][0] == s[0];
      Trim(s[..|s| - 1])
    else s
  }

  /** A slice of text keeps the text's freedom from white space and from any character. */
  lemma SliceKeeps(s: string, i: int, j: int)
    requires 0 <= i <= j <= |s|
    ensures NoSpace(s) ==> NoSpace(s[i..j])
    ensures forall c :: c !in s ==> c !in s[i..j]
  {
    assert forall k :: 0 <= k < j - i ==> s[i..j][k] == s[i + k];
  }

  // ---------------------------------------------------------------- phone numbers

  /** /^0[5-7]\d{8}$/: ten digits, a 0 first, then 5, 6 or 7. */
  predicate MobileShape(c: string) {
    |c| == 10 && c[0] == '0' && '5' <= c[1] <= '7' && forall i :: 2 <= i < 10 ==> IsDigit(c[i])
  }

  /** validatePhone: the number with its white space removed is an Algerian mobile number. */
  function ValidatePhone(phone: string): (ok: bool)
    ensures ok ==> |RemoveSpaces(phone)| == 10 && AllDigits(RemoveSpaces(phone))
    ensures NoSpace(phone) ==> (ok <==> MobileShape(phone))
  {
    MobileShape(RemoveSpaces(phone))
  }

  /** White space anywhere in a number does not change whether it is valid. */
  lemma PhoneIgnoresSpace(a: string, c: char, b: string)
    requires JsSpace(c)
    ensures ValidatePhone(a + [c] + b) == ValidatePhone(a + b)
  {
    RemoveOneSpace(a, c, b);
  }

  /** A number is valid exactly when its white-space-free form is. */
  lemma PhoneIff(phone: string)
    ensures ValidatePhone(phone) == ValidatePhone(RemoveSpaces(phone))
  {
  }

  /** formatPhone: a ten-character number is shown as five space-separated pairs; anything else as it is. */
  function FormatPhone(phone: string): (r: string)
    ensures |RemoveSpaces(phone)| == 10 ==>
      && RemoveSpaces(r) == RemoveSpaces(phone)
      && |r| == 14 && r[2] == ' ' && r[5] == ' ' && r[8] == ' ' && r[11] == ' '
    ensures |RemoveSpaces(phone)| != 10 ==> r == phone
  {
    var clean := RemoveSpaces(phone);
    if |clean| == 10 then Pairs(clean) else phone
  }

  /** The five pairs of a ten-character text, separated by single spaces. */
  function Pairs(c: string): (r: string)
    requires |c| == 10
    ensures |r| == 14 && r[2] == ' ' && r[5] == ' ' && r[8] == ' ' && r[11] == ' '
    ensures NoSpace(c) ==> RemoveSpaces(r) == c
  {
    var r := c[0..2] + " " + c[2..4] + " " + c[4..6] + " " + c[6..8] + " " + c[8..];
    assert NoSpace(c) ==> RemoveSpaces(r) == c by {
      if NoSpace(c) {
        PairsRejoin(c);
      }
    }
    r
  }

  /** Removing the spaces between the pairs gives the ten characters back. */
  lemma PairsRejoin(c: string)
    requires |c| == 10 && NoSpace(c)
    ensures RemoveSpaces(c[0..2] + " " + c[2..4] + " " + c[4..6] + " " + c[6..8] + " " + c[8..]) == c
  {
    SliceKeeps(c, 0, 2);
    SliceKeeps(c, 2, 4);
    SliceKeeps(c, 4, 6);
    SliceKeeps(c, 6, 8);
    SliceKeeps(c, 8, 10);
    JoinWithSpaces(c[0..2], c[2..4], c[4..6], c[6..8], c[8..]);
    assert c[0..2] + c[2..4] + c[4..6] + c[6..8] + c[8..] == c;
  }

  /** Spaceless pieces joined by single spaces lose exactly those spaces. */
  lemma JoinWithSpaces(p0: string, p1: string, p2: string, p3: string, p4: string)
    requires NoSpace(p0) && NoSpace(p1) && NoSpace(p2) && NoSpace(p3) && NoSpace(p4)
    ensures RemoveSpaces(p0 + " " + p1 + " " + p2 + " " + p3 + " " + p4) == p0 + p1 + p2 + p3 + p4
  {
    AppendPair(p0, p1);
    AppendPair(p0 + " " + p1, p2);
    AppendPair(p0 + " " + p1 + " " + p2, p3);
    AppendPair(p0 + " " + p1 + " " + p2 + " " + p3, p4);
  }

  /** Removing the spaces of text, a space and a spaceless piece keeps the piece whole. */
  lemma AppendPair(x: string, p: string)
    requires NoSpace(p)
    ensures RemoveSpaces(x + " " + p) == RemoveSpaces(x) + p
  {
    assert RemoveSpaces(" ") == [];
    RemoveSpacesAppend(x, " ");
    RemoveSpacesAppend(x + " ", p);
  }

  /** Formatting a formatted number changes nothing more. */
  lemma FormatPhoneIdempotent(phone: string)
    ensures FormatPhone(FormatPhone(phone)) == FormatPhone(phone)
  {
  }

  /** Formatting keeps a number valid or invalid. */
  lemma FormatPhoneKeepsValidity(phone: string)
    ensures ValidatePhone(FormatPhone(phone)) == ValidatePhone(phone)
  {
  }

  /** The example number of the error message is valid. */
  lemma ExampleNumberValid()
    ensures ValidatePhone("0655443322")
  {
    var n := "0655443322";
    assert NoSpace(n) by {
      assert forall i :: 0 <= i < |n| ==> '0' <= n[i] <= '9';
    }
    assert MobileShape(n);
  }

  // ---------------------------------------------------------------- e-mail addresses

  /** One part of an address: not empty, no white space, no '@'. */
  predicate EmailPart(x: string) {
    |x| > 0 && NoSpace(x) && '@' !in x
  }

  /** /^[^\s@]+@[^\s@]+\.[^\s@]+$/ matches e with these three parts. */
  predicate EmailParts(e: string, a: string, b: string, c: string) {
    EmailPart(a) && EmailPart(b) && EmailPart(c) && e == a + "@" + b + "." + c
  }

  /** validateEmail: exactly one '@', no white space, and a '.' strictly inside the part after the '@'. */
  function ValidateEmail(email: string): (ok: bool)
    ensures ok <==> exists a, b, c :: EmailParts(email, a, b, c)
  {
    EmailSound(email);
    if NoSpace(email) && '@' in email then
      var i := IndexOfChar(email, '@');
      var d := email[i + 1..];
      if i > 0 && '@' !in d && |d| >= 3 && '.' in d[1..|d| - 1] then
        EmailWitness(email);
        true
      else false
    else false
  }

  /** An address of the regular expression's form passes the test. */
  lemma EmailSound(email: string)
    ensures (exists a, b, c :: EmailParts(email, a, b, c)) ==>
      NoSpace(email) && '@' in email &&
      var i := IndexOfChar(email, '@');
      var d := email[i + 1..];
      i > 0 && '@' !in d && |d| >= 3 && '.' in d[1..|d| - 1]
  {
    if a, b, c :| EmailParts(email, a, b, c) {
      var rest := b + "." + c;
      assert email == a + ['@'] + rest;
      NoSpaceAppend(a, "@");
      NoSpaceAppend(b, ".");
      NoSpaceAppend(b + ".", c);
      NoSpaceAppend(a + "@", rest);
      FirstAt(a, rest);
      DomainPasses(b, c);
    }
  }

  lemma NoSpaceAppend(x: string, y: string)
    requires NoSpace(x) && NoSpace(y)
    ensures NoSpace(x + y)
  {
    assert forall k :: |x| <= k < |x + y| ==> (x + y)[k] == y[k - |x|];
  }

  /** In a + "@" + rest, where a holds no '@', the first '@' is at |a|. */
  lemma FirstAt(a: string, rest: string)
    requires '@' !in a
    ensures var e := a + ['@'] + rest;
      '@' in e && IndexOfChar(e, '@') == |a| && e[|a| + 1..] == rest
  {
    var e := a + ['@'] + rest;
    assert e[|a|] == '@';
    assert forall k :: 0 <= k < |a| ==> e[k] == a[k];
  }

  /** b + "." + c, for two parts, holds no '@' and has a '.' strictly inside. */
  lemma DomainPasses(b: string, c: string)
    requires EmailPart(b) && EmailPart(c)
    ensures var d := b + "." + c;
      '@' !in d && |d| >= 3 && '.' in d[1..|d| - 1]
  {
    var d := b + "." + c;
    forall k | 0 <= k < |d| ensures d[k] != '@' {
      if k < |b| { assert d[k] == b[k]; }
      else if k > |b| { assert d[k] == c[k - |b| - 1]; }
    }
    assert d[1..|d| - 1][|b| - 1] == '.';
  }

  /** An address that passes the test has the regular expression's three parts. */
  lemma EmailWitness(email: string)
    requires NoSpace(email) && '@' in email
    requires var i := IndexOfChar(email, '@');
      var d := email[i + 1..];
      i > 0 && '@' !in d && |d| >= 3 && '.' in d[1..|d| - 1]
    ensures exists a, b, c :: EmailParts(email, a, b, c)
  {
    var i := IndexOfChar(email, '@');
    var d := email[i + 1..];
    SliceKeeps(email, 0, i);
    SliceKeeps(email, i + 1, |email|);
    var a := email[..i];
    assert email == a + "@" + d;
    var b, c := DomainParts(d);
    assert EmailParts(email, a, b, c);
  }

  /** The part after the '@' splits at an inner '.' into two non-empty parts. */
  lemma DomainParts(d: string) returns (b: string, c: string)
    requires NoSpace(d) && '@' !in d && |d| >= 3 && '.' in d[1..|d| - 1]
    ensures EmailPart(b) && EmailPart(c) && d == b + "." + c
  {
    var inner := d[1..|d| - 1];
    var k :| 0 <= k < |inner| && inner[k] == '.';
    b, c := d[..k + 1], d[k + 2..];
    assert d[k + 1] == '.';
    assert d == b + "." + c;
    SliceKeeps(d, 0, k + 1);
    SliceKeeps(d, k + 2, |d|);
  }

  // ---------------------------------------------------------------- required values

  /** The JavaScript values a form field can hold. */
  datatype JsValue = Null | Undefined | Text(s: string) | Num(n: int) | Bool(b: bool)

  /** value.toString() for the values that have one. */
  function ToText(v: JsValue): string
    requires !v.Null? && !v.Undefined?
  {
    match v
    case Text(s) => s
    case Num(n) => Itoa(n)
    case Bool(b) => if b then "true" else "false"
  }

  /** validateRequired: neither null nor undefined, and not white space only once written out. */
  function ValidateRequired(v: JsValue): (ok: bool)
    ensures ok <==> !v.Null? && !v.Undefined? && !Blank(ToText(v))
  {
    !v.Null? && !v.Undefined? && Trim(ToText(v)) != ""
  }

  /** A number or a boolean always counts as filled in. */
  lemma NumbersAndBooleansFilled(v: JsValue)
    requires v.Num? || v.Bool?
    ensures ValidateRequired(v)
  {
    var t := ToText(v);
    assert t[0] in t;
    if v.Num? {
      assert !JsSpace(t[0]) by {
        if JsSpace(t[0]) { ItoaChars(v.n, t[0]); }
      }
    }
  }

  // ---------------------------------------------------------------- forms

  /** The rule of one field; min 0 stands for no minimum and "" for no label. */
  datatype Rule = Rule(required: bool, email: bool, phone: bool, min: nat, labelText: string)

  /** rule.label || field. */
  function Label(rule: Rule, field: string): string {
    if rule.labelText == "" then field else rule.labelText
  }

  /** The value of a form field: text, or undefined when the form has no such field. */
  function FieldValue(data: map<string, string>, field: string): (v: JsValue)
    ensures v.Text? || v.Undefined?
  {
    if field in data then Text(data[field]) else Undefined
  }

  /** JavaScript truthiness: a non-empty text, a non-zero number, true. */
  predicate Truthy(v: JsValue) {
    match v
    case Text(s) => s != ""
    case Num(n) => n != 0
    case Bool(b) => b
    case _ => false
  }

  /** A non-empty text: the values validatePhone and value.length can read. */
  predicate Filled(v: JsValue) {
    v.Text? && v.s != ""
  }

  function RequiredMessage(name: string): string { name + " est obligatoire" }
  const EmailMessage: string := "Format d'email invalide"
  const PhoneMessage: string := "Format de t\U{e9}l\U{e9}phone invalide (ex: 0655443322)"
  function MinMessage(name: string, min: nat): string {
    name + " doit contenir au moins " + Itoa(min) + " caract\U{e8}res"
  }
  /** What validatePhone throws when handed a value that has no replace method. */
  const PhoneTypeError: string := "TypeError: phone.replace is not a function"

  /**
   * The one error a field can get, checked in the order required, e-mail,
   * phone, minimum length; or the TypeError validatePhone throws on a
   * number or a boolean. The e-mail check reads the value's text, and the
   * minimum compares value.length, which only text has.
   */
  function FieldError(rule: Rule, field: string, v: JsValue): (r: Result<Option<string>, string>)
    ensures rule.required && !ValidateRequired(v) ==> r == Success(Some(RequiredMessage(Label(rule, field))))
    ensures !rule.required && !Truthy(v) ==> r == Success(None)
    ensures r.Failure? <==>
      rule.phone && Truthy(v) && !v.Text? && !(rule.email && !ValidateEmail(ToText(v)))
    ensures r.Failure? ==> r.error == PhoneTypeError
  {
    if rule.required && !ValidateRequired(v) then Success(Some(RequiredMessage(Label(rule, field))))
    else if rule.email && Truthy(v) && !ValidateEmail(ToText(v)) then Success(Some(EmailMessage))
    else if rule.phone && Truthy(v) && !v.Text? then
      assert ValidateRequired(v) by { NumbersAndBooleansFilled(v); }
      Failure(PhoneTypeError)
    else if rule.phone && Filled(v) && !ValidatePhone(v.s) then Success(Some(PhoneMessage))
    else if rule.min != 0 && Filled(v) && |v.s| < rule.min then Success(Some(MinMessage(Label(rule, field), rule.min)))
    else Success(None)
  }

  /** A field gets no error exactly when every check its rule names passes. */
  lemma FieldErrorNone(rule: Rule, field: string, v: JsValue)
    ensures FieldError(rule, field, v) == Success(None) <==>
      && (rule.required ==> ValidateRequired(v))
      && (Truthy(v) ==>
            && (rule.email ==> ValidateEmail(ToText(v)))
            && (rule.phone ==> v.Text? && ValidatePhone(v.s))
            && (rule.min != 0 && v.Text? ==> |v.s| >= rule.min))
  {
  }

  /** A malformed address that passed the required check is reported as such, whatever the other checks say. */
  lemma EmailBeforePhone(rule: Rule, field: string, v: JsValue)
    requires rule.email && Truthy(v) && !ValidateEmail(ToText(v))
    requires rule.required ==> ValidateRequired(v)
    ensures FieldError(rule, field, v) == Success(Some(EmailMessage))
  {
  }

  /** A number in an e-mail field is read as its digits, which are no address. */
  lemma NumberIsNoEmail(rule: Rule, field: string, n: int)
    requires rule.email && n != 0
    ensures FieldError(rule, field, Num(n)) == Success(Some(EmailMessage))
  {
    NumbersAndBooleansFilled(Num(n));
    var t := Itoa(n);
    assert '@' !in t by {
      if '@' in t {
        var i :| 0 <= i < |t| && t[i] == '@';
        ItoaChars(n, t[i]);
      }
    }
  }

  /** A number or true in a phone field that passed the e-mail check makes validatePhone throw. */
  lemma PhoneThrowsOnNonText(rule: Rule, field: string, v: JsValue)
    requires rule.phone && Truthy(v) && !v.Text?
    requires rule.email ==> ValidateEmail(ToText(v))
    ensures FieldError(rule, field, v) == Failure(PhoneTypeError)
  {
    NumbersAndBooleansFilled(v);
  }

  /** Text and missing values, the only ones a form holds, never make a check throw. */
  lemma FormValuesNeverThrow(rule: Rule, field: string, v: JsValue)
    requires v.Text? || v.Undefined?
    ensures FieldError(rule, field, v).Success?
  {
  }

  /** A malformed number that passed the required and e-mail checks is reported as such, before the minimum. */
  lemma PhoneBeforeMin(rule: Rule, field: string, v: JsValue)
    requires rule.phone && Filled(v) && !ValidatePhone(v.s)
    requires rule.required ==> ValidateRequired(v)
    requires rule.email ==> ValidateEmail(v.s)
    ensures FieldError(rule, field, v) == Success(Some(PhoneMessage))
  {
  }

  /** A value shorter than the minimum that passed every other check gets the minimum's message. */
  lemma MinLast(rule: Rule, field: string, v: JsValue)
    requires rule.min != 0 && Filled(v) && |v.s| < rule.min
    requires rule.required ==> ValidateRequired(v)
    requires rule.email ==> ValidateEmail(v.s)
    requires rule.phone ==> ValidatePhone(v.s)
    ensures FieldError(rule, field, v) == Success(Some(MinMessage(Label(rule, field), rule.min)))
  {
  }

  /**
   * A number or a boolean gets the e-mail message, makes the phone check
   * throw, or passes: it always counts as filled in, and it has no length
   * for the minimum to compare.
   */
  lemma NonTextOutcomes(rule: Rule, field: string, v: JsValue)
    requires v.Num? || v.Bool?
    ensures || FieldError(rule, field, v) == Success(None)
            || FieldError(rule, field, v) == Success(Some(EmailMessage))
            || FieldError(rule, field, v) == Failure(PhoneTypeError)
  {
    NumbersAndBooleansFilled(v);
  }

  /** Whatever message a field gets is the one of a check it fails. */
  lemma FieldErrorExplained(rule: Rule, field: string, v: JsValue)
    requires FieldError(rule, field, v).Success? && FieldError(rule, field, v).value.Some?
    ensures var m := FieldError(rule, field, v).value.value;
      || (m == RequiredMessage(Label(rule, field)) && rule.required && !ValidateRequired(v))
      || (m == EmailMessage && rule.email && Truthy(v) && !ValidateEmail(ToText(v)))
      || (m == PhoneMessage && rule.phone && Filled(v) && !ValidatePhone(v.s))
      || (m == MinMessage(Label(rule, field), rule.min) && rule.min != 0 && Filled(v) && |v.s| < rule.min)
  {
  }

  /**
   * validateForm: one entry per field of the rules whose value fails, with
   * the message of the first check it fails, and no other entries.
   */
  method ValidateForm(data: map<string, string>, rules: map<string, Rule>) returns (errors: map<string, string>)
    ensures errors.Keys <= rules.Keys
    ensures forall f :: f in rules ==>
      (f in errors <==> FieldError(rules[f], f, FieldValue(data, f)) != Success(None))
    ensures forall f :: f in errors ==> Success(Some(errors[f])) == FieldError(rules[f], f, FieldValue(data, f))
  {
    errors := map[];
    var todo := rules.Keys;
    while todo != {}
      invariant todo <= rules.Keys
      invariant errors.Keys <= rules.Keys - todo
      invariant forall f :: f in rules.Keys - todo ==>
        (f in errors <==> FieldError(rules[f], f, FieldValue(data, f)) != Success(None))
      invariant forall f :: f in errors ==> Success(Some(errors[f])) == FieldError(rules[f], f, FieldValue(data, f))
      decreases |todo|
    {
      var field :| field in todo;
      var e := FieldError(rules[field], field, FieldValue(data, field));
      if e.Success? && e.value.Some? {
        errors := errors[field := e.value.value];
      }
      todo := todo - {field};
    }
  }
}
