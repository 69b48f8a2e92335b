/** `LeadValidator`: the email, phone and whole-lead checks applied before a
    lead is written. */
module LeadValidator {
  import opened PyStr
  import opened Leads

  /** The rules `validate_lead` checks, in the order it checks them, each
      with the message it appends when the rule fails. */
  datatype ValidationError = NameRequired | InvalidEmail | InvalidPhone {
    function Message(): string
    {
      match this
      case NameRequired => "Name is required"
      case InvalidEmail => "Invalid email format"
      case InvalidPhone => "Invalid phone number format"
    }

    /** Position in the checking order. */
    function Rank(): nat
    {
      match this
      case NameRequired => 0
      case InvalidEmail => 1
      case InvalidPhone => 2
    }
  }

  // ---------------------------------------------------------------- email

  /** `validate_email`: there is an `@`, and the second part of
      `email.split('@')` contains a `.`. */
  function ValidateEmail(email: string): (valid: bool)
    ensures valid ==> '@' in email
  {
    '@' in email && '.' in Split(email, '@')[1]
  }

  /** The text between the first `@` and the next `@` (or the end). */
  function DomainHead(email: string): (d: string)
    requires '@' in email
    ensures '@' !in d
  {
    var rest := email[IndexOf(email, '@') + 1..];
    rest[..IndexOf(rest, '@')]
  }

  /** An email is accepted exactly when it has an `@` and the text between
      the first `@` and the next one contains a dot; nothing else of the
      address is looked at. */
  lemma ValidateEmailIff(email: string)
    ensures ValidateEmail(email) <==> '@' in email && '.' in DomainHead(email)
  {
    if '@' in email {
      var rest := email[IndexOf(email, '@') + 1..];
      SplitTail(email, '@');
      SplitHead(rest, '@');
      assert Split(email, '@')[1] == Split(rest, '@')[0];
    }
  }

  /** Without an `@` an email is rejected (the `and` short-circuits before
      the part after `@` is taken). */
  lemma EmailWithoutAtRejected(email: string)
    requires '@' !in email
    ensures !ValidateEmail(email)
  {
  }

  /** For an address `local@host` followed by nothing or by a further `@...`,
      only `host` decides: the address passes exactly when `host` has a dot.
      A dot in `local`, or after a second `@`, does not count. */
  lemma {:induction false} EmailParts(local: string, host: string, rest: string)
    requires '@' !in local && '@' !in host
    requires rest == [] || rest[0] == '@'
    ensures ValidateEmail(local + "@" + host + rest) <==> '.' in host
  {
    var email := local + "@" + host + rest;
    assert email == local + ['@'] + (host + rest);
    SplitAfter(local, host + rest, '@');
    if rest == [] {
      assert host + rest == host;
      SplitNoSep(host, '@');
    } else {
      assert host + rest == host + ['@'] + rest[1..];
      SplitAfter(host, rest[1..], '@');
    }
  }

  /** `a@b@c.d` is rejected: the dot lies beyond the second `@`. */
  lemma EmailSecondAtExample()
    ensures !ValidateEmail("a@b@c.d")
  {
    EmailParts("a", "b", "@c.d");
    assert "a" + "@" + "b" + "@c.d" == "a@b@c.d";
  }

  /** `a.b@c` is rejected: the dot lies before the `@`. */
  lemma EmailLocalDotExample()
    ensures !ValidateEmail("a.b@c")
  {
    EmailParts("a.b", "c", "");
    assert "a.b" + "@" + "c" + "" == "a.b@c";
  }

  /** `a@b.c` is accepted. */
  lemma EmailAcceptedExample()
    ensures ValidateEmail("a@b.c")
  {
    EmailParts("a", "b.c", "");
    assert "a" + "@" + "b.c" + "" == "a@b.c";
  }

  // ---------------------------------------------------------------- phone

  /** The characters `validate_phone` removes before counting. */
  predicate IsPhoneSeparator(c: char)
  {
    c == '-' || c == ' ' || c == '(' || c == ')'
  }

  /** `phone.replace('-', '').replace(' ', '').replace('(', '').replace(')', '')`. */
  function StripPhone(phone: string): string
  {
    RemoveAll(RemoveAll(RemoveAll(RemoveAll(phone, '-'), ' '), '('), ')')
  }

  /** `validate_phone`: the empty string passes (the phone is optional);
      otherwise at least ten characters must remain once the separators are
      removed. No character is checked to be a digit. */
  function ValidatePhone(phone: string): (valid: bool)
    ensures valid ==> phone == [] || |phone| >= 10
  {
    if phone == [] then true
    else
      StripPhoneLength(phone);
      |StripPhone(phone)| >= 10
  }

  /** Number of separator characters in `s`. */
  function SeparatorCount(s: string): nat
  {
    var m := multiset(s);
    m['-'] + m[' '] + m['('] + m[')']
  }

  /** Removing the four separators drops exactly the separator characters. */
  lemma StripPhoneLength(phone: string)
    ensures |StripPhone(phone)| == |phone| - SeparatorCount(phone)
  {
    var a := RemoveAll(phone, '-');
    var b := RemoveAll(a, ' ');
    var c := RemoveAll(b, '(');
    RemoveAllSpec(phone, '-');
    RemoveAllSpec(a, ' ');
    RemoveAllSpec(b, '(');
    RemoveAllSpec(c, ')');
  }

  /** A phone number passes exactly when it is empty or has at least ten
      characters that are not separators; letters count like digits. */
  lemma ValidatePhoneIff(phone: string)
    ensures ValidatePhone(phone) <==> phone == [] || |phone| - SeparatorCount(phone) >= 10
  {
    StripPhoneLength(phone);
  }

  lemma StripPhoneConcat(a: string, b: string)
    ensures StripPhone(a + b) == StripPhone(a) + StripPhone(b)
  {
    RemoveAllConcat(a, b, '-');
    var a1, b1 := RemoveAll(a, '-'), RemoveAll(b, '-');
    RemoveAllConcat(a1, b1, ' ');
    var a2, b2 := RemoveAll(a1, ' '), RemoveAll(b1, ' ');
    RemoveAllConcat(a2, b2, '(');
    var a3, b3 := RemoveAll(a2, '('), RemoveAll(b2, '(');
    RemoveAllConcat(a3, b3, ')');
  }

  /** A lone separator is removed entirely. */
  lemma StripPhoneSeparator(c: char)
    requires IsPhoneSeparator(c)
    ensures StripPhone([c]) == []
  {
    RemoveAllSingle(c, '-');
    var a := RemoveAll([c], '-');
    if a != [] {
      RemoveAllSingle(c, ' ');
      var b := RemoveAll(a, ' ');
      if b != [] {
        RemoveAllSingle(c, '(');
        var d := RemoveAll(b, '(');
        if d != [] {
          RemoveAllSingle(c, ')');
        } else {
          assert RemoveAll(d, ')') == [];
        }
      } else {
        assert RemoveAll(RemoveAll(b, '('), ')') == [];
      }
    } else {
      assert RemoveAll(RemoveAll(RemoveAll(a, ' '), '('), ')') == [];
    }
  }

  /** Inserting a separator anywhere into a non-empty phone number never
      changes the verdict. */
  lemma SeparatorInsertion(phone: string, k: nat, c: char)
    requires phone != [] && k <= |phone| && IsPhoneSeparator(c)
    ensures ValidatePhone(phone[..k] + [c] + phone[k..]) == ValidatePhone(phone)
  {
    var before, after := phone[..k], phone[k..];
    assert before + after == phone;
    var longer := before + [c] + after;
    assert longer != [];
    StripPhoneInsertion(before, after, c);
    assert StripPhone(longer) == StripPhone(phone);
  }

  lemma StripPhoneInsertion(before: string, after: string, c: char)
    requires IsPhoneSeparator(c)
    ensures StripPhone(before + [c] + after) == StripPhone(before + after)
  {
    StripPhoneConcat(before + [c], after);
    StripPhoneConcat(before, [c]);
    StripPhoneConcat(before, after);
    StripPhoneSeparator(c);
  }

  /** Any ten or more characters none of which is a separator pass, letters
      included: nothing checks for digits. */
  lemma NoSeparatorsPass(phone: string)
    requires |phone| >= 10
    requires forall i :: 0 <= i < |phone| ==> !IsPhoneSeparator(phone[i])
    ensures ValidatePhone(phone)
  {
    assert '-' !in phone && ' ' !in phone && '(' !in phone && ')' !in phone;
    ValidatePhoneIff(phone);
  }

  /** `validate_phone("")` holds while `validate_phone(" ")` does not, and
      `555-1234` is too short. */
  lemma PhoneExamples()
    ensures ValidatePhone("")
    ensures !ValidatePhone(" ")
    ensures !ValidatePhone("555-1234")
  {
    ValidatePhoneIff(" ");
    ValidatePhoneIff("555-1234");
  }

  // ---------------------------------------------------------------- lead

  /** `not lead.name or len(lead.name.strip()) == 0`. */
  predicate NameMissing(name: string)
  {
    name == [] || |Strip(name)| == 0
  }

  /** `lead.phone and not validate_phone(lead.phone)`: a missing or empty
      phone is never checked. */
  predicate PhoneRejected(phone: Option<string>)
  {
    phone.Some? && phone.value != [] && !ValidatePhone(phone.value)
  }

  /** `errors` with `e` appended when `fails` holds. */
  function AppendIf(errors: seq<ValidationError>, fails: bool, e: ValidationError): seq<ValidationError>
  {
    if fails then errors + [e] else errors
  }

  /** The rules that failed, each once, in the checking order. */
  function Failed(nameFails: bool, emailFails: bool, phoneFails: bool): (errors: seq<ValidationError>)
    ensures |errors| <= 3
  {
    AppendIf(AppendIf(AppendIf([], nameFails, NameRequired), emailFails, InvalidEmail), phoneFails, InvalidPhone)
  }

  /** The rules a lead fails, in the order name, email, phone. */
  function LeadErrors(lead: Lead): seq<ValidationError>
  {
    Failed(NameMissing(lead.name), !ValidateEmail(lead.email), PhoneRejected(lead.phone))
  }

  /** Each rule is reported exactly when it fails, at most once and in the
      checking order: a whitespace-only name counts as missing, and a
      missing or empty phone is never reported. */
  lemma LeadErrorsSpec(lead: Lead)
    ensures var errors := LeadErrors(lead);
      && |errors| <= 3
      && (NameRequired in errors <==> forall i :: 0 <= i < |lead.name| ==> IsSpace(lead.name[i]))
      && (InvalidEmail in errors <==> !ValidateEmail(lead.email))
      && (InvalidPhone in errors <==> lead.phone.Some? && lead.phone.value != [] && !ValidatePhone(lead.phone.value))
      && forall i, j :: 0 <= i < j < |errors| ==> errors[i].Rank() < errors[j].Rank()
  {
    StripSpec(lead.name);
  }

  /** A name made of the ASCII file separator U+001C alone is missing:
      `strip` removes it like any other whitespace. */
  lemma SeparatorOnlyNameMissing(lead: Lead)
    requires lead.name == "\U{1C}"
    ensures NameRequired in LeadErrors(lead)
  {
    LeadErrorsSpec(lead);
  }

  /** The messages of a list of failed rules, in the same order. */
  function Messages(errors: seq<ValidationError>): (messages: seq<string>)
    ensures |messages| == |errors|
    ensures forall i :: 0 <= i < |errors| ==> messages[i] == errors[i].Message()
  {
    if errors == [] then []
    else Messages(errors[..|errors| - 1]) + [errors[|errors| - 1].Message()]
  }

  /** Appending a rule appends its message. */
  lemma MessagesAppend(errors: seq<ValidationError>, e: ValidationError)
    ensures Messages(errors + [e]) == Messages(errors) + [e.Message()]
  {
    assert (errors + [e])[..|errors|] == errors;
  }

  /** `validate_lead`: appends the message of each failed rule and reports
      the lead valid exactly when no message was appended. */
  method ValidateLead(lead: Lead) returns (isValid: bool, errors: seq<string>)
    ensures errors == Messages(LeadErrors(lead))
    ensures isValid <==> LeadErrors(lead) == []
    ensures isValid <==> errors == []
  {
    ghost var failed: seq<ValidationError> := [];
    errors := [];
    if lead.name == [] || |Strip(lead.name)| == 0 {
      MessagesAppend(failed, NameRequired);
      failed, errors := failed + [NameRequired], errors + [NameRequired.Message()];
    }
    assert failed == AppendIf([], NameMissing(lead.name), NameRequired);
    if !ValidateEmail(lead.email) {
      MessagesAppend(failed, InvalidEmail);
      failed, errors := failed + [InvalidEmail], errors + [InvalidEmail.Message()];
    }
    ghost var prefix := failed;
    if lead.phone.Some? && lead.phone.value != [] && !ValidatePhone(lead.phone.value) {
      MessagesAppend(failed, InvalidPhone);
      failed, errors := failed + [InvalidPhone], errors + [InvalidPhone.Message()];
    }
    assert failed == AppendIf(prefix, PhoneRejected(lead.phone), InvalidPhone);
    isValid := |errors| == 0;
  }

  /** A lead is valid exactly when its name has a non-whitespace character,
      its email passes and its phone is absent, empty or passes. */
  lemma LeadValidIff(lead: Lead)
    ensures LeadErrors(lead) == [] <==>
      && (exists i :: 0 <= i < |lead.name| && !IsSpace(lead.name[i]))
      && ValidateEmail(lead.email)
      && (lead.phone.None? || ValidatePhone(lead.phone.value))
  {
    StripSpec(lead.name);
  }
}
