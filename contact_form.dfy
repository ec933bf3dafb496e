/**
 * The contact form component (`Contact`): three text fields, a map of per-field error
 * messages, an `isSubmitting` flag and a submit status. `validateForm` applies the
 * per-field rules, `handleChange` edits one field and clears only its error,
 * `handleSubmit` gates on validation and then shows the success panel with the fields
 * reset, and the "Send Another" / "Try Again" buttons return to the form.
 *
 * The component never contacts the server: after validation it awaits a 1500 ms timer
 * and then reports success. The timer is not modelled; a submission is one atomic step.
 */
module ContactForm {
  import opened Wrappers
  import opened JsText

  datatype Field = Name | Email | Message

  /** `formState`: the three controlled inputs. */
  datatype FormState = FormState(name: string, email: string, message: string) {

    function Get(f: Field): string {
      match f
      case Name => name
      case Email => email
      case Message => message
    }

    /** `{ ...prev, [f]: value }` */
    function With(f: Field, value: string): (r: FormState)
      ensures r.Get(f) == value
      ensures forall g :: g != f ==> r.Get(g) == Get(g)
    {
      match f
      case Name => this.(name := value)
      case Email => this.(email := value)
      case Message => this.(message := value)
    }
  }

  const EmptyForm := FormState("", "", "")

  datatype SubmitStatus = Idle | Success | Error

  const NameRequired := "Name is required"
  const EmailRequired := "Email is required"
  const EmailInvalid := "Please enter a valid email address"
  const MessageRequired := "Message is required"
  const MessageTooShort := "Message must be at least 10 characters"
  const MinMessageLength := 10

  // ---------------------------------------------------------------------------
  // The email pattern /^[^\s@]+@[^\s@]+\.[^\s@]+$/
  // ---------------------------------------------------------------------------

  /** A character of the class `[^\s@]`. */
  predicate IsAddressChar(c: char) {
    !IsJsWhitespace(c) && c != '@'
  }

  predicate AllAddressChars(s: string) {
    forall k | 0 <= k < |s| :: IsAddressChar(s[k])
  }

  /**
   * `s` splits at `at` and `dot` as local "@" host "." tld, three non-empty runs of
   * `[^\s@]` (the host run may itself contain dots).
   */
  predicate IsEmailSplit(s: string, at: int, dot: int) {
    && 0 < at && at + 1 < dot && dot + 1 < |s|
    && s[at] == '@' && s[dot] == '.'
    && AllAddressChars(s[..at])
    && AllAddressChars(s[at + 1..dot])
    && AllAddressChars(s[dot + 1..])
  }

  /** The pattern's `test`: some split of `s` fits the three runs. */
  predicate MatchesEmailPattern(s: string) {
    exists at, dot {:trigger IsEmailSplit(s, at, dot)} | 0 < at < |s| && 0 < dot < |s| ::
      IsEmailSplit(s, at, dot)
  }

  /** A run of `[^\s@]` characters, stated index by index. */
  lemma AddressRun(s: string, lo: int, hi: int)
    requires 0 <= lo <= hi <= |s|
    requires forall j | lo <= j < hi :: IsAddressChar(s[j])
    ensures AllAddressChars(s[lo..hi])
  {
    forall k | 0 <= k < hi - lo ensures IsAddressChar(s[lo..hi][k]) {
      assert s[lo..hi][k] == s[lo + k];
    }
  }

  /** The structural description of a string that matches the pattern. */
  ghost predicate EmailShape(s: string) {
    && (forall k | 0 <= k < |s| :: !IsJsWhitespace(s[k]))
    && CountOf(s, '@') == 1
    && var at := FirstIndexOf(s, '@');
       0 < at && exists dot | at + 1 < dot < |s| - 1 :: s[dot] == '.'
  }

  /** Splitting `s` around position `at` splits its count of '@'. */
  lemma CountAround(s: string, at: int)
    requires 0 <= at < |s| && s[at] == '@'
    ensures CountOf(s, '@') == CountOf(s[..at], '@') + 1 + CountOf(s[at + 1..], '@')
  {
    var front, back := s[..at], s[at + 1..];
    assert CountOf(['@'], '@') == 1 by { assert ['@'][1..] == []; }
    calc {
      CountOf(s, '@');
      { assert s == front + ['@'] + back; }
      CountOf(front + ['@'] + back, '@');
      { CountOfAppend(front + ['@'], back, '@'); }
      CountOf(front + ['@'], '@') + CountOf(back, '@');
      { CountOfAppend(front, ['@'], '@'); }
      CountOf(front, '@') + 1 + CountOf(back, '@');
    }
  }

  /** One character of a run of `[^\s@]`. */
  lemma AddressRunAt(s: string, lo: int, hi: int, j: int)
    requires 0 <= lo <= j < hi <= |s| && AllAddressChars(s[lo..hi])
    ensures IsAddressChar(s[j])
  {
    assert s[j] == s[lo..hi][j - lo];
  }

  lemma MatchHasShape(s: string)
    requires MatchesEmailPattern(s)
    ensures EmailShape(s)
  {
    var at, dot :| 0 < at < |s| && 0 < dot < |s| && IsEmailSplit(s, at, dot);
    assert s[..at] == s[0..at] && s[dot + 1..] == s[dot + 1..|s|];
    forall j | at < j < |s| ensures IsAddressChar(s[j]) {
      if j < dot { AddressRunAt(s, at + 1, dot, j); }
      else if j > dot { AddressRunAt(s, dot + 1, |s|, j); }
    }
    forall j | 0 <= j < |s| ensures !IsJsWhitespace(s[j]) {
      if j < at { AddressRunAt(s, 0, at, j); }
    }
    AddressRun(s, at + 1, |s|);
    CountAround(s, at);
    assert '@' !in s[at + 1..];
    assert '@' !in s[..at];
    FirstIndexAfter(s[..at], '@', s[at + 1..]);
    assert s[..at] + [s[at]] + s[at + 1..] == s;
    assert FirstIndexOf(s, '@') == at;
  }

  lemma ShapeMatches(s: string)
    requires EmailShape(s)
    ensures MatchesEmailPattern(s)
  {
    var at := FirstIndexOf(s, '@');
    var dot :| at + 1 < dot < |s| - 1 && s[dot] == '.';
    CountAround(s, at);
    assert '@' !in s[at + 1..];
    assert forall j | at + 1 <= j < |s| :: s[j] == s[at + 1..][j - at - 1];
    assert forall j | 0 <= j < at :: s[j] == s[..at][j];
    AddressRun(s, 0, at);
    AddressRun(s, at + 1, dot);
    AddressRun(s, dot + 1, |s|);
    assert s[0..at] == s[..at] && s[dot + 1..|s|] == s[dot + 1..];
    assert IsEmailSplit(s, at, dot);
  }

  /**
   * What a match amounts to: no white space anywhere, exactly one '@', at least one
   * character before it, and after it a '.' with at least one character on each side.
   */
  lemma EmailPatternShape(s: string)
    ensures MatchesEmailPattern(s) <==> EmailShape(s)
  {
    if MatchesEmailPattern(s) { MatchHasShape(s); }
    if EmailShape(s) { ShapeMatches(s); }
  }

  /** A matching address is never blank, so "required" and "invalid" never coincide. */
  lemma MatchIsNotBlank(s: string)
    requires MatchesEmailPattern(s)
    ensures !Blank(s)
  {
    var at, dot :| 0 < at < |s| && 0 < dot < |s| && IsEmailSplit(s, at, dot);
    assert s[0] == s[..at][0];
  }

  // ---------------------------------------------------------------------------
  // Per-field rules of validateForm
  // ---------------------------------------------------------------------------

  /** `if (!name.trim()) "Name is required"` */
  function NameError(name: string): Option<string> {
    if Trim(name) == [] then Some(NameRequired) else None
  }

  /** Required on the trimmed value, then the pattern on the untrimmed value. */
  function EmailError(email: string): Option<string> {
    if Trim(email) == [] then Some(EmailRequired)
    else if !MatchesEmailPattern(email) then Some(EmailInvalid)
    else None
  }

  /** Required on the trimmed value, then the minimum on the untrimmed `.length`. */
  function MessageError(message: string): Option<string> {
    if Trim(message) == [] then Some(MessageRequired)
    else if Utf16Length(message) < MinMessageLength then Some(MessageTooShort)
    else None
  }

  function FieldError(form: FormState, f: Field): Option<string> {
    match f
    case Name => NameError(form.name)
    case Email => EmailError(form.email)
    case Message => MessageError(form.message)
  }

  /** The `newErrors` map that `validateForm` builds: one entry per failing field. */
  function ValidationErrors(form: FormState): map<Field, string> {
    map f | f in {Name, Email, Message} && FieldError(form, f).Some? :: FieldError(form, f).value
  }

  /** The name error is set exactly when the name is empty or all white space. */
  lemma NameRule(name: string)
    ensures NameError(name) == (if Blank(name) then Some(NameRequired) else None)
  {
    TrimEmptyIffBlank(name);
  }

  /**
   * The email field gets "required" exactly when it is blank, "invalid" exactly when
   * it is not blank and fails the pattern, and no error exactly when it matches.
   */
  lemma EmailRule(email: string)
    ensures EmailError(email) == Some(EmailRequired) <==> Blank(email)
    ensures EmailError(email) == Some(EmailInvalid) <==> !Blank(email) && !MatchesEmailPattern(email)
    ensures EmailError(email) == None <==> MatchesEmailPattern(email)
  {
    TrimEmptyIffBlank(email);
    if MatchesEmailPattern(email) { MatchIsNotBlank(email); }
  }

  /**
   * The message field gets "required" exactly when it is blank, "too short" exactly
   * when it is not blank and its untrimmed length is under 10 code units, and no
   * error otherwise.
   */
  lemma MessageRule(message: string)
    ensures MessageError(message) == Some(MessageRequired) <==> Blank(message)
    ensures MessageError(message) == Some(MessageTooShort) <==>
              !Blank(message) && Utf16Length(message) < MinMessageLength
    ensures MessageError(message) == None <==>
              !Blank(message) && Utf16Length(message) >= MinMessageLength
  {
    TrimEmptyIffBlank(message);
  }

  /**
   * Because the minimum is taken before trimming, a short message padded with white
   * space passes, although its trimmed text is unchanged.
   */
  lemma PaddedShortMessagePasses(message: string, pad: string)
    requires !Blank(message) && Blank(pad)
    requires Utf16Length(message) + Utf16Length(pad) >= MinMessageLength
    ensures MessageError(message + pad) == None
    ensures Trim(message + pad) == Trim(message)
  {
    TrimIgnoresPadding(message, pad);
    TrimEmptyIffBlank(message);
    Utf16LengthAppend(message, pad);
  }

  /** A field is in the error map exactly when its rule fails, with that rule's message. */
  lemma ErrorsFollowRules(form: FormState, f: Field)
    ensures f in ValidationErrors(form) <==> FieldError(form, f).Some?
    ensures f in ValidationErrors(form) ==> ValidationErrors(form)[f] == FieldError(form, f).value
  {
  }

  /** Every message the validator stores is non-empty, so it is truthy in `errors[name]`. */
  lemma ErrorMessagesNonEmpty(form: FormState)
    ensures forall f | f in ValidationErrors(form) :: ValidationErrors(form)[f] != ""
  {
    forall f | f in ValidationErrors(form) ensures ValidationErrors(form)[f] != "" {
      ErrorsFollowRules(form, f);
      match f
      case Name =>
      case Email =>
      case Message =>
    }
  }

  /** The map is empty exactly when no rule fails. */
  lemma NoErrorsIff(form: FormState)
    ensures ValidationErrors(form) == map[] <==>
      NameError(form.name).None? && EmailError(form.email).None? && MessageError(form.message).None?
  {
    var m := ValidationErrors(form);
    ErrorsFollowRules(form, Name);
    ErrorsFollowRules(form, Email);
    ErrorsFollowRules(form, Message);
    if m != map[] {
      var f :| f in m;
      ErrorsFollowRules(form, f);
    }
  }

  /** `m` with the entry for `f` set when `e` holds an error message. */
  function WithError(m: map<Field, string>, f: Field, e: Option<string>): map<Field, string> {
    if e.Some? then m[f := e.value] else m
  }

  /** The validator's map is what the three rules give when applied in field order. */
  lemma ValidationInFieldOrder(form: FormState)
    ensures ValidationErrors(form) ==
      WithError(WithError(WithError(map[], Name, NameError(form.name)),
                          Email, EmailError(form.email)),
                Message, MessageError(form.message))
  {
    var m := WithError(WithError(WithError(map[], Name, NameError(form.name)),
                                 Email, EmailError(form.email)),
                       Message, MessageError(form.message));
    forall f ensures (f in m <==> f in ValidationErrors(form)) && (f in m ==> m[f] == ValidationErrors(form)[f]) {
      ErrorsFollowRules(form, f);
    }
  }

  /**
   * `validateForm` returns true exactly when the name is not blank, the email
   * matches the pattern, and the message is not blank and at least 10 code units long.
   */
  lemma FormValidIff(form: FormState)
    ensures ValidationErrors(form) == map[] <==>
      && !Blank(form.name)
      && MatchesEmailPattern(form.email)
      && !Blank(form.message) && Utf16Length(form.message) >= MinMessageLength
  {
    NoErrorsIff(form);
    NameRule(form.name);
    EmailRule(form.email);
    MessageRule(form.message);
  }

  // ---------------------------------------------------------------------------
  // The component's state and its handlers as functions of the state
  // ---------------------------------------------------------------------------

  /** Everything the component keeps in `useState`. */
  datatype Snapshot = Snapshot(
    form: FormState,
    errors: map<Field, string>,
    isSubmitting: bool,
    status: SubmitStatus)

  const Initial := Snapshot(EmptyForm, map[], false, Idle)

  /**
   * What holds between any two events: no submission is in flight (a submission is
   * one atomic step here) and every stored error message is non-empty.
   */
  ghost predicate WellFormed(s: Snapshot) {
    && !s.isSubmitting
    && forall f | f in s.errors :: s.errors[f] != ""
  }

  /** `handleChange` for field `f`. */
  function Changed(s: Snapshot, f: Field, value: string): Snapshot {
    var errors := if f in s.errors && s.errors[f] != "" then s.errors - {f} else s.errors;
    s.(form := s.form.With(f, value), errors := errors)
  }

  /** `handleSubmit`: the timer resolves, so a valid form always ends in `success`. */
  function Submitted(s: Snapshot): Snapshot {
    var newErrors := ValidationErrors(s.form);
    if |newErrors| != 0 then s.(errors := newErrors)
    else s.(errors := newErrors, form := EmptyForm, status := Success, isSubmitting := false)
  }

  /** `setSubmitStatus("idle")`, the action of both "Send Another" and "Try Again". */
  function ReturnedToIdle(s: Snapshot): Snapshot {
    s.(status := Idle)
  }

  /**
   * Editing field `f` sets that field only, removes the error of `f` only, and keeps
   * the flag and the status.
   */
  lemma ChangeTouchesOneField(s: Snapshot, f: Field, value: string)
    requires WellFormed(s)
    ensures var t := Changed(s, f, value);
      && t.form.Get(f) == value
      && (forall g :: g != f ==> t.form.Get(g) == s.form.Get(g))
      && t.errors == s.errors - {f}
      && t.isSubmitting == s.isSubmitting && t.status == s.status
      && WellFormed(t)
  {
    if f !in s.errors { assert s.errors - {f} == s.errors; }
  }

  /**
   * Submitting an invalid form replaces the error map with the validator's and
   * changes nothing else: the fields, the flag and the status stay as they were.
   */
  lemma InvalidSubmitOnlyReplacesErrors(s: Snapshot)
    requires ValidationErrors(s.form) != map[]
    ensures Submitted(s).errors == ValidationErrors(s.form)
    ensures Submitted(s).form == s.form
    ensures Submitted(s).isSubmitting == s.isSubmitting && Submitted(s).status == s.status
  {
    var m := ValidationErrors(s.form);
    var f :| f in m;
    assert |m| != 0;
  }

  /**
   * Submitting a valid form clears the errors, empties all three fields, drops the
   * flag and shows the success panel.
   */
  lemma ValidSubmitSucceeds(s: Snapshot)
    requires ValidationErrors(s.form) == map[]
    ensures Submitted(s) == Snapshot(EmptyForm, map[], false, Success)
  {
  }

  /** Submitting a valid form and pressing "Send Another" gives back the initial form. */
  lemma SendAnotherRestoresInitial(s: Snapshot)
    requires ValidationErrors(s.form) == map[]
    ensures ReturnedToIdle(Submitted(s)) == Initial
  {
  }

  /** An event the user can cause. Which one is possible depends on the panel shown. */
  datatype Event = Edit(field: Field, value: string) | Submit | SendAnother | TryAgain

  /**
   * The form (and with it editing and submitting) is rendered only while the status
   * is `idle`; each panel's button only in its own status. An event for a control
   * that is not on screen cannot happen, so it changes nothing.
   */
  function Step(s: Snapshot, e: Event): Snapshot {
    match e
    case Edit(f, v) => if s.status == Idle then Changed(s, f, v) else s
    case Submit => if s.status == Idle then Submitted(s) else s
    case SendAnother => if s.status == Success then ReturnedToIdle(s) else s
    case TryAgain => if s.status == Error then ReturnedToIdle(s) else s
  }

  function Run(s: Snapshot, events: seq<Event>): Snapshot
    decreases |events|
  {
    if events == [] then s else Run(Step(s, events[0]), events[1..])
  }

  /**
   * Outside the idle status no event touches the fields, the errors or the flag;
   * the only possible change is back to `idle`.
   */
  lemma OutsideIdleOnlyResets(s: Snapshot, e: Event)
    requires s.status != Idle
    ensures var t := Step(s, e);
      && t.form == s.form && t.errors == s.errors && t.isSubmitting == s.isSubmitting
      && (t.status == s.status || t.status == Idle)
  {
  }

  /** One event keeps the state well formed and never enters the error status. */
  lemma StepAvoidsError(s: Snapshot, e: Event)
    requires WellFormed(s) && s.status != Error
    ensures WellFormed(Step(s, e)) && Step(s, e).status != Error
  {
    match e
    case Edit(f, v) =>
      if s.status == Idle { ChangeTouchesOneField(s, f, v); }
    case Submit =>
      ErrorMessagesNonEmpty(s.form);
    case SendAnother =>
    case TryAgain =>
  }

  /**
   * No sequence of events reaches the "Something Went Wrong" panel: the only
   * assignment of `error` sits in a `catch` that the resolving timer never enters.
   */
  lemma {:induction false} ErrorStatusUnreachable(s: Snapshot, events: seq<Event>)
    requires WellFormed(s) && s.status != Error
    ensures WellFormed(Run(s, events)) && Run(s, events).status != Error
    decreases |events|
  {
    if events != [] {
      StepAvoidsError(s, events[0]);
      ErrorStatusUnreachable(Step(s, events[0]), events[1..]);
    }
  }

  // ---------------------------------------------------------------------------
  // The component
  // ---------------------------------------------------------------------------

  class Contact {
    var formState: FormState
    var errors: map<Field, string>
    var isSubmitting: bool
    var submitStatus: SubmitStatus

    function Snap(): Snapshot
      reads this
    {
      Snapshot(formState, errors, isSubmitting, submitStatus)
    }

    ghost predicate Valid()
      reads this
    {
      WellFormed(Snap())
    }

    /** The initial `useState` values. */
    constructor ()
      ensures Valid() && Snap() == Initial
    {
      formState := EmptyForm;
      errors := map[];
      isSubmitting := false;
      submitStatus := Idle;
    }

    /** `validateForm`: builds `newErrors` rule by rule, stores it, reports emptiness. */
    method ValidateForm() returns (ok: bool)
      modifies this`errors
      ensures errors == ValidationErrors(formState)
      ensures ok <==> errors == map[]
    {
      var newErrors: map<Field, string> := map[];
      if Trim(formState.name) == [] {
        newErrors := newErrors[Name := NameRequired];
      }
      assert newErrors == WithError(map[], Name, NameError(formState.name));
      ghost var afterName := newErrors;
      if Trim(formState.email) == [] {
        newErrors := newErrors[Email := EmailRequired];
      } else if !MatchesEmailPattern(formState.email) {
        newErrors := newErrors[Email := EmailInvalid];
      }
      assert newErrors == WithError(afterName, Email, EmailError(formState.email));
      ghost var afterEmail := newErrors;
      if Trim(formState.message) == [] {
        newErrors := newErrors[Message := MessageRequired];
      } else if Utf16Length(formState.message) < MinMessageLength {
        newErrors := newErrors[Message := MessageTooShort];
      }
      assert newErrors == WithError(afterEmail, Message, MessageError(formState.message));
      ValidationInFieldOrder(formState);
      errors := newErrors;
      ok := |newErrors| == 0;
    }

    /** `handleChange`: set field `f`; if it has an error, delete that entry alone. */
    method HandleChange(f: Field, value: string)
      requires Valid() && submitStatus == Idle
      modifies this
      ensures Valid()
      ensures Snap() == Changed(old(Snap()), f, value)
      ensures formState == old(formState).With(f, value)
      ensures errors == old(errors) - {f}
      ensures isSubmitting == old(isSubmitting) && submitStatus == old(submitStatus)
    {
      ChangeTouchesOneField(Snap(), f, value);
      formState := formState.With(f, value);
      if f in errors && errors[f] != "" {
        errors := errors - {f};
      }
    }

    /**
     * `handleSubmit`: stop when validation fails; otherwise raise the flag, wait for
     * the timer, show success, reset the fields, and lower the flag in `finally`.
     */
    method HandleSubmit()
      requires Valid() && submitStatus == Idle
      modifies this
      ensures Valid()
      ensures Snap() == Submitted(old(Snap()))
      ensures errors == ValidationErrors(old(formState))
      ensures errors != map[] ==> formState == old(formState) && submitStatus == Idle
      ensures errors == map[] ==> formState == EmptyForm && submitStatus == Success
      ensures !isSubmitting
    {
      var ok := ValidateForm();
      ErrorMessagesNonEmpty(formState);
      if !ok {
        return;
      }
      isSubmitting := true;
      // The awaited timer only resolves, so the try block always runs to its end.
      submitStatus := Success;
      formState := EmptyForm;
      isSubmitting := false;
    }

    /** The "Send Another Message" button on the success panel. */
    method SendAnother()
      requires Valid() && submitStatus == Success
      modifies this`submitStatus
      ensures Valid() && Snap() == ReturnedToIdle(old(Snap()))
    {
      submitStatus := Idle;
    }

    /** The "Try Again" button on the error panel. */
    method TryAgain()
      requires Valid() && submitStatus == Error
      modifies this`submitStatus
      ensures Valid() && Snap() == ReturnedToIdle(old(Snap()))
    {
      submitStatus := Idle;
    }
  }

}
