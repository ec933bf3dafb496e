/**
 * Worked examples of the contact pipeline on concrete inputs, and the relation between
 * the component's validator and the handler's own check.
 *
 * Each example takes its literal as a parameter fixed by `requires`, so the lemma
 * holds for that one input.
 */
module ContactScenarios {
  import opened Wrappers
  import opened JsText
  import opened ContactForm
  import ContactRoute

  // ---------------------------------------------------------------------------
  // Helpers for concrete strings
  // ---------------------------------------------------------------------------

  /** A run of `[^\s@]` characters, read one character at a time. */
  predicate AddressRunOf(s: string) {
    s == [] || (IsAddressChar(s[0]) && AddressRunOf(s[1..]))
  }

  lemma {:induction false} AddressRunOfAll(s: string)
    requires AddressRunOf(s)
    ensures AllAddressChars(s)
  {
    if s != [] {
      AddressRunOfAll(s[1..]);
      assert forall k | 1 <= k < |s| :: s[k] == s[1..][k - 1];
    }
  }

  /** Three non-empty runs joined by "@" and "." match the email pattern. */
  lemma JoinMatches(local: string, host: string, tld: string)
    requires local != [] && host != [] && tld != []
    requires AllAddressChars(local) && AllAddressChars(host) && AllAddressChars(tld)
    ensures MatchesEmailPattern(local + "@" + host + "." + tld)
  {
    var s := local + "@" + host + "." + tld;
    var at, dot := |local|, |local| + 1 + |host|;
    assert s[..at] == local;
    assert s[at + 1..dot] == host;
    assert s[dot + 1..] == tld;
    assert IsEmailSplit(s, at, dot);
  }

  /** A string without '@' never matches the email pattern. */
  lemma NoAtNoMatch(s: string)
    requires '@' !in s
    ensures !MatchesEmailPattern(s)
  {
    forall at, dot | 0 < at < |s| && 0 < dot < |s| ensures !IsEmailSplit(s, at, dot) {
      assert s[at] != '@';
    }
  }

  lemma AdaEmail(s: string)
    requires s == "ada@example.com"
    ensures MatchesEmailPattern(s)
  {
    LocalRun("ada");
    HostRun("example");
    TldRun("com");
    assert s == "ada" + "@" + "example" + "." + "com";
    JoinMatches("ada", "example", "com");
  }

  lemma ShortEmail(s: string)
    requires s == "x@x.com"
    ensures MatchesEmailPattern(s)
  {
    assert AllAddressChars("x") by {
      assert AddressRunOf("x");
      AddressRunOfAll("x");
    }
    TldRun("com");
    assert s == "x" + "@" + "x" + "." + "com";
    JoinMatches("x", "x", "com");
  }

  lemma LocalRun(s: string)
    requires s == "ada"
    ensures AllAddressChars(s)
  {
    assert AddressRunOf("ada");
    AddressRunOfAll(s);
  }

  lemma HostRun(s: string)
    requires s == "example"
    ensures AllAddressChars(s)
  {
    assert AddressRunOf("example");
    AddressRunOfAll(s);
  }

  lemma TldRun(s: string)
    requires s == "com"
    ensures AllAddressChars(s)
  {
    assert AddressRunOf("com");
    AddressRunOfAll(s);
  }

  lemma NotAnEmail(s: string)
    requires s == "not-an-email"
    ensures !Blank(s) && !MatchesEmailPattern(s)
  {
    assert '@' !in s;
    NoAtNoMatch(s);
    StartsVisible(s);
  }

  /** A string whose first character is not white space is not blank. */
  lemma StartsVisible(s: string)
    requires s != [] && !IsJsWhitespace(s[0])
    ensures !Blank(s)
  {
  }

  // ---------------------------------------------------------------------------
  // The component
  // ---------------------------------------------------------------------------

  /** A complete, well-formed submission passes the validator. */
  lemma ValidFormPasses(form: FormState)
    requires form == FormState("Ada", "ada@example.com", "Hello, I would like to connect.")
    ensures ValidationErrors(form) == map[]
  {
    assert NameError(form.name) == None by { VisibleNameAccepted(form.name); }
    assert EmailError(form.email) == None by { AdaEmail(form.email); EmailRule(form.email); }
    assert MessageError(form.message) == None by { LongMessageAccepted(form.message); }
    NoErrorsIff(form);
  }

  /** An empty name and a five-character message give exactly those two errors. */
  lemma MissingNameShortMessage(form: FormState)
    requires form == FormState("", "x@x.com", "short")
    ensures ValidationErrors(form) == map[Name := NameRequired, Message := MessageTooShort]
  {
    assert NameError(form.name) == Some(NameRequired) by { NameRule(form.name); }
    assert EmailError(form.email) == None by { ShortEmail(form.email); EmailRule(form.email); }
    assert MessageError(form.message) == Some(MessageTooShort) by {
      StartsVisible(form.message);
      assert Utf16Length(form.message) == 5;
      MessageRule(form.message);
    }
    ValidationInFieldOrder(form);
  }

  /** An address without '@' gives only the "valid email" error. */
  lemma InvalidEmailOnly(form: FormState)
    requires form == FormState("Bo", "not-an-email", "This is long enough.")
    ensures ValidationErrors(form) == map[Email := EmailInvalid]
  {
    assert NameError(form.name) == None by { VisibleNameAccepted(form.name); }
    assert EmailError(form.email) == Some(EmailInvalid) by { NotAnEmail(form.email); EmailRule(form.email); }
    assert MessageError(form.message) == None by { LongMessageAccepted(form.message); }
    ValidationInFieldOrder(form);
  }

  /** A name that starts with a visible character has no error. */
  lemma VisibleNameAccepted(name: string)
    requires name != [] && !IsJsWhitespace(name[0])
    ensures NameError(name) == None
  {
    StartsVisible(name);
    NameRule(name);
  }

  /** A message of 10 or more characters that starts with a visible one has no error. */
  lemma LongMessageAccepted(message: string)
    requires |message| >= MinMessageLength && !IsJsWhitespace(message[0])
    ensures MessageError(message) == None
  {
    StartsVisible(message);
    MessageRule(message);
  }

  // ---------------------------------------------------------------------------
  // The handler
  // ---------------------------------------------------------------------------

  /** A complete request that the relay delivers is answered with `{success: true}`. */
  lemma DeliveredPost(env: ContactRoute.Env, request: ContactRoute.RequestBody)
    requires request == ContactRoute.Fields(Some("Ada"), Some("ada@example.com"), Some("Hello"))
    ensures ContactRoute.PostResponse(request, ContactRoute.Delivered) == ContactRoute.Success
    ensures var mails := ContactRoute.MailsSent(env, request);
      && |mails| == 1
      && mails[0].subject == "New contact from Ada"
      && mails[0].replyTo == "ada@example.com"
  {
    assert ContactRoute.SubjectPrefix + "Ada" == "New contact from Ada";
  }

  /** A request without a message gets the 400 answer and sends nothing. */
  lemma MissingMessagePost(env: ContactRoute.Env, request: ContactRoute.RequestBody,
                           outcome: ContactRoute.SendOutcome)
    requires request == ContactRoute.Fields(Some("Ada"), Some("ada@example.com"), None)
    ensures ContactRoute.PostResponse(request, outcome) ==
      ContactRoute.Response(400, ContactRoute.ErrorBody("Missing required fields"))
    ensures ContactRoute.MailsSent(env, request) == []
  {
  }

  /** A body that is not JSON lands in the `catch` block: a 500, not a 400. */
  lemma UnreadableBodyPost(env: ContactRoute.Env, outcome: ContactRoute.SendOutcome)
    ensures var request := ContactRoute.Unreadable(ContactRoute.Thrown(Some("Unexpected token")));
      && ContactRoute.PostResponse(request, outcome) ==
           ContactRoute.Response(500, ContactRoute.ErrorBody("Unexpected token"))
      && ContactRoute.MailsSent(env, request) == []
  {
  }

  /** A relay failure whose error has an empty message, or none, gets the fallback text. */
  lemma SilentRelayFailure(env: ContactRoute.Env)
    ensures var request := ContactRoute.Fields(Some("Ada"), Some("a@b.c"), Some("Hi"));
      var failure := ContactRoute.Failed(ContactRoute.Thrown(Some("")));
      ContactRoute.PostResponse(request, failure) ==
        ContactRoute.Response(500, ContactRoute.ErrorBody("Internal Server Error"))
    ensures var request := ContactRoute.Fields(Some("Ada"), Some("a@b.c"), Some("Hi"));
      var failure := ContactRoute.Failed(ContactRoute.Thrown(None));
      ContactRoute.PostResponse(request, failure) ==
        ContactRoute.Response(500, ContactRoute.ErrorBody("Internal Server Error"))
  {
  }

  // ---------------------------------------------------------------------------
  // The validator against the handler's check
  // ---------------------------------------------------------------------------

  /** The request body the form's three fields would make. */
  function AsRequest(form: FormState): ContactRoute.RequestBody {
    ContactRoute.Fields(Some(form.name), Some(form.email), Some(form.message))
  }

  /**
   * Every form the component's validator accepts also passes the handler's check,
   * and the handler would mail its three fields unchanged. (The component itself
   * never sends the request; this compares the two rule sets.)
   */
  lemma ClientRulesImplyServerCheck(env: ContactRoute.Env, form: FormState)
    requires ValidationErrors(form) == map[]
    ensures ContactRoute.MailsSent(env, AsRequest(form)) ==
      [ContactRoute.MailFor(env, ContactRoute.Payload(form.name, form.email, form.message))]
  {
    FormValidIff(form);
  }

  /**
   * The converse fails: the handler forwards a form on which the validator reports
   * an error for every field.
   */
  lemma ServerCheckIsWeaker(env: ContactRoute.Env, form: FormState)
    requires form == FormState(" ", "not-an-email", "hi")
    ensures ValidationErrors(form) == map[Name := NameRequired, Email := EmailInvalid, Message := MessageTooShort]
    ensures |ContactRoute.MailsSent(env, AsRequest(form))| == 1
  {
    assert Blank(form.name) by {
      forall k | 0 <= k < |form.name| ensures IsJsWhitespace(form.name[k]) {
        assert k == 0;
      }
    }
    TrimEmptyIffBlank(form.name);
    NotAnEmail(form.email);
    EmailRule(form.email);
    StartsVisible(form.message);
    TrimEmptyIffBlank(form.message);
    assert Utf16Length(form.message) == 2;
    ValidationInFieldOrder(form);
  }
}
