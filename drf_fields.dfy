/** How the REST framework checks one character field of a request body,
    as the serializers of both apps rely on it: an absent, null or blank
    value is settled first; any other text is stripped, and then every
    validator of the field runs on the stripped text and all their
    messages are collected, in the field's order. */
module Fields {

  import opened Common
  import opened Text

  /** One field of a request body: left out, sent as null, or sent. */
  datatype Input<T> = Absent | Null | Given(value: T)

  /** How a field of an HTML form body (multipart or urlencoded) reaches
      its field: a name the body does not carry is left out, and so is
      exactly "" for a field that is neither required nor open to blank
      text; any other text is sent as it is. A form has no null. */
  function FormInput(sent: Option<string>, rules: CharRules): (input: Input<string>)
    ensures !input.Null?
    ensures input.Absent? <==> sent.None? || (sent.value == "" && !rules.required && !rules.allowBlank)
    ensures input.Given? ==> input.value == sent.value
  {
    match sent
    case None => Absent
    case Some(text) => if text == "" && !rules.required && !rules.allowBlank then Absent else Given(text)
  }

  /** What a field contributes: nothing (an optional field left out), its
      validated value, or its error messages. */
  datatype Checked<T> = Skipped | Valid(value: T) | Invalid(messages: seq<Message>)

  /** An error message: the framework's own, with the text it renders, or
      one a serializer raises itself. */
  datatype Message =
    | Required | MayNotBeNull | MayNotBeBlank | TooLong(limit: nat) | TooShort(limit: nat) | NullCharacters
    | Says(text: string)

  /** The text a message is reported with. */
  function Render(m: Message): string {
    match m
    case Required => "This field is required."
    case MayNotBeNull => "This field may not be null."
    case MayNotBeBlank => "This field may not be blank."
    case TooLong(limit) => "Ensure this field has no more than " + NatToString(limit) + " characters."
    case TooShort(limit) => "Ensure this field has at least " + NatToString(limit) + " characters."
    case NullCharacters => "Null characters are not allowed."
    case Says(text) => text
  }

  /** The options of a character field: whether it must be sent, whether
      blank text is accepted (as ""), and its length bounds. Text is always
      stripped, the framework's default. */
  datatype CharRules = CharRules(required: bool, allowBlank: bool, minLength: Option<nat>, maxLength: Option<nat>)

  /** The stripped text meets the field's own bounds. */
  predicate WithinBounds(text: string, rules: CharRules) {
    (rules.maxLength.Some? ==> |text| <= rules.maxLength.value) &&
    (rules.minLength.Some? ==> |text| >= rules.minLength.value) &&
    '\0' !in text
  }

  /** The messages of the field's own validators, in the order they are
      attached: maximum length, minimum length, no NUL character. */
  function BoundsErrors(text: string, rules: CharRules): (errors: seq<Message>)
    ensures errors == [] <==> WithinBounds(text, rules)
    ensures rules.maxLength.Some? && |text| > rules.maxLength.value ==> TooLong(rules.maxLength.value) in errors
    ensures rules.minLength.Some? && |text| < rules.minLength.value ==> TooShort(rules.minLength.value) in errors
    ensures '\0' in text ==> NullCharacters in errors
  {
    var long := if rules.maxLength.Some? && |text| > rules.maxLength.value then [TooLong(rules.maxLength.value)] else [];
    var short := if rules.minLength.Some? && |text| < rules.minLength.value then [TooShort(rules.minLength.value)] else [];
    var nul := if '\0' in text then [NullCharacters] else [];
    assert long == [] && short == [] && nul == [] ==> long + short + nul == [];
    long + short + nul
  }

  /** A field with no validator beyond the framework's own. */
  function NoValidators(text: string): seq<Message> {
    []
  }

  /** A character field: `before` are the validators a model field brings,
      run ahead of the field's bounds, and `after` those a subclass adds
      behind them; both see the stripped text. */
  function CharField(input: Input<string>, rules: CharRules,
                     before: string -> seq<Message>, after: string -> seq<Message>): (r: Checked<string>)
    ensures r == Skipped <==> input.Absent? && !rules.required
    ensures input.Absent? && rules.required ==> r == Invalid([Required])
    ensures input.Null? ==> r == Invalid([MayNotBeNull])
    ensures input.Given? && IsBlank(input.value) ==>
      r == if rules.allowBlank then Valid("") else Invalid([MayNotBeBlank])
    ensures input.Given? && !IsBlank(input.value) ==>
      (r.Valid? <==> WithinBounds(Strip(input.value), rules) && before(Strip(input.value)) == [] && after(Strip(input.value)) == [])
    ensures input.Given? && !IsBlank(input.value) && r.Invalid? ==>
      r.messages == before(Strip(input.value)) + BoundsErrors(Strip(input.value), rules) + after(Strip(input.value))
    ensures r.Valid? ==> input.Given? && r.value == Strip(input.value)
    ensures r.Valid? && r.value != "" ==> !IsSpace(r.value[0]) && !IsSpace(r.value[|r.value| - 1])
    ensures r.Invalid? ==> r.messages != []
  {
    match input
    case Absent => if rules.required then Invalid([Required]) else Skipped
    case Null => Invalid([MayNotBeNull])
    case Given(raw) =>
      StripSpec(raw);
      var text := Strip(raw);
      if text == "" then
        (if rules.allowBlank then Valid("") else Invalid([MayNotBeBlank]))
      else
        var errors := before(text) + BoundsErrors(text, rules) + after(text);
        if errors == [] then Valid(text) else Invalid(errors)
  }

  /** The field's validated value, `None` unless it passed. */
  function ValueOf<T>(c: Checked<T>): Option<T> {
    if c.Valid? then Some(c.value) else None
  }

  /** The field's entry in the serializer's errors: its messages under its
      name when it failed, nothing otherwise. */
  function ErrorsOf<K, T>(name: K, c: Checked<T>): map<K, seq<Message>> {
    if c.Invalid? then map[name := c.messages] else map[]
  }

  /** No validator of a field ever sees blank text: a blank value is settled
      before them, so a validator's own "empty" message is never produced. */
  lemma ValidatorsSeeNoBlank(input: Input<string>, rules: CharRules,
                             before: string -> seq<Message>, after: string -> seq<Message>)
    requires !rules.allowBlank
    ensures CharField(input, rules, before, after).Valid? ==> !IsBlank(CharField(input, rules, before, after).value)
  {
    var r := CharField(input, rules, before, after);
    if r.Valid? {
      StripSpec(input.value);
      StripSpec(r.value);
      assert !IsSpace(r.value[0]);
    }
  }
}
