/** The field rules of the marketplace-post serializer. Every field is
    optional (partial updates). Title and description are character fields,
    stripped and refused when blank before their own validators run; the
    price is a decimal of at most 10 digits, 2 of them after the point,
    kept here in hundredths once validated. */
module PostSerializers {

  import opened Common
  import opened Text
  import opened Fields

  const MaxTitleLength: nat := 255
  const MaxDigits: nat := 10
  const DecimalPlaces: nat := 2
  /** The digits left before the point: `max_digits - decimal_places`. */
  const MaxWholeDigits: nat := 8
  /** Longer price text is refused before it is parsed. */
  const MaxPriceText: nat := 1000

  const TitleEmpty: Message := Says("Title cannot be empty")
  const DescriptionEmpty: Message := Says("Description cannot be empty")
  const PriceNotPositive: Message := Says("Price must be greater than 0")
  const NotANumber: Message := Says("A valid number is required.")
  const PriceTextTooLong: Message := Says("String value too large.")
  const TooManyDigits: Message := Says("Ensure that there are no more than 10 digits in total.")
  const TooManyPlaces: Message := Says("Ensure that there are no more than 2 decimal places.")
  const TooManyWholeDigits: Message := Says("Ensure that there are no more than 8 digits before the decimal point.")

  // ---------------------------------------------------------------- text

  const TitleRules: CharRules := CharRules(false, false, None, Some(MaxTitleLength))
  const DescriptionRules: CharRules := CharRules(false, false, None, None)

  /** The check shared by `validate_title` and `validate_description`:
      text that strips to nothing is refused with the given message. */
  function NotBlank(value: string, message: Message): (r: Checked<string>)
    ensures r.Invalid? <==> IsBlank(value)
    ensures r.Invalid? ==> r.messages == [message]
    ensures r.Valid? ==> r.value == value
  {
    StripSpec(value);
    if Strip(value) == "" then Invalid([message]) else Valid(value)
  }

  /** A character field followed, when it passed, by the serializer's
      `validate_<field>` method on the validated text. */
  function TextField(input: Input<string>, rules: CharRules, message: Message): (r: Checked<string>)
    requires !rules.allowBlank && rules.minLength.None?
    requires message == TitleEmpty || message == DescriptionEmpty
    ensures r == Skipped <==> input.Absent? && !rules.required
    ensures r.Valid? <==> input.Given? && !IsBlank(input.value) && WithinBounds(Strip(input.value), rules)
    ensures r.Valid? ==> r.value == Strip(input.value)
    ensures input.Given? && IsBlank(input.value) ==> r == Invalid([MayNotBeBlank])
    ensures r.Invalid? ==> r.messages != [] && message !in r.messages
  {
    var field := CharField(input, rules, NoValidators, NoValidators);
    ValidatorsSeeNoBlank(input, rules, NoValidators, NoValidators);
    if field.Valid? then NotBlank(field.value, message) else field
  }

  /** `title`: optional, at most 255 characters once stripped, never blank;
      `validate_title`'s own message is never produced. */
  function TitleField(input: Input<string>): (r: Checked<string>)
    ensures r == Skipped <==> input.Absent?
    ensures r.Valid? <==>
      (input.Given? && !IsBlank(input.value) && |Strip(input.value)| <= MaxTitleLength && '\0' !in Strip(input.value))
    ensures r.Valid? ==> r.value == Strip(input.value)
    ensures input.Given? && IsBlank(input.value) ==> r == Invalid([MayNotBeBlank])
    ensures r.Invalid? ==> TitleEmpty !in r.messages
  {
    TextField(input, TitleRules, TitleEmpty)
  }

  /** `description`: optional, any length once stripped, never blank;
      `validate_description`'s own message is never produced. */
  function DescriptionField(input: Input<string>): (r: Checked<string>)
    ensures r == Skipped <==> input.Absent?
    ensures r.Valid? <==> input.Given? && !IsBlank(input.value) && '\0' !in Strip(input.value)
    ensures r.Valid? ==> r.value == Strip(input.value)
    ensures input.Given? && IsBlank(input.value) ==> r == Invalid([MayNotBeBlank])
    ensures r.Invalid? ==> DescriptionEmpty !in r.messages
  {
    TextField(input, DescriptionRules, DescriptionEmpty)
  }

  // ---------------------------------------------------------------- price

  /** A value of Python's `Decimal`: sign, coefficient and exponent (the
      number is coefficient * 10^exponent), or one of the special values. */
  datatype Decimal = Finite(negative: bool, coefficient: nat, exponent: int) | NaN | Infinity(negative: bool)

  /** How price text is read as a `Decimal`; `None` where the constructor raises. */
  type DecimalParser = string -> Option<Decimal>

  function Pow10(k: nat): (p: nat)
    ensures p >= 1
  {
    if k == 0 then 1 else 10 * Pow10(k - 1)
  }

  /** The length of the coefficient's digit tuple; zero is the single digit 0. */
  function DigitCount(c: nat): (d: nat)
    ensures d >= 1
  {
    if c < 10 then 1 else 1 + DigitCount(c / 10)
  }

  /** A coefficient of `d` digits lies below 10^d, and a non-zero one at or above 10^(d-1). */
  lemma {:induction false} DigitCountBounds(c: nat)
    ensures c < Pow10(DigitCount(c))
    ensures c > 0 ==> Pow10(DigitCount(c) - 1) <= c
  {
    if c >= 10 {
      DigitCountBounds(c / 10);
    }
  }

  lemma {:induction false} Pow10Add(a: nat, b: nat)
    ensures Pow10(a + b) == Pow10(a) * Pow10(b)
  {
    if a > 0 {
      Pow10Add(a - 1, b);
    }
  }

  lemma {:induction false} Pow10Monotone(a: nat, b: nat)
    requires a <= b
    ensures Pow10(a) <= Pow10(b)
  {
    if a < b {
      Pow10Monotone(a, b - 1);
    }
  }

  /** The digits `validate_precision` counts: in total, before the point and after it. */
  datatype Precision = Precision(total: nat, whole: nat, places: nat)

  /** `validate_precision`'s three cases, from the coefficient's digit count and the exponent. */
  function PrecisionOf(coefficient: nat, exponent: int): (p: Precision)
    ensures p.places == if exponent < 0 then -exponent else 0
    ensures p.whole == if DigitCount(coefficient) + exponent > 0 then DigitCount(coefficient) + exponent else 0
    ensures p.total == p.whole + p.places
  {
    var digits := DigitCount(coefficient);
    if exponent >= 0 then Precision(digits + exponent, digits + exponent, 0)
    else if digits > -exponent then Precision(digits, digits + exponent, -exponent)
    else Precision(-exponent, 0, -exponent)
  }

  /** The message of the first precision check that fails, in the order
      they run: total digits, decimal places, digits before the point. */
  function PrecisionError(p: Precision): (m: Option<Message>)
    ensures m.None? <==> p.total <= MaxDigits && p.places <= DecimalPlaces && p.whole <= MaxWholeDigits
    ensures p.total > MaxDigits ==> m == Some(TooManyDigits)
    ensures p.total <= MaxDigits && p.places > DecimalPlaces ==> m == Some(TooManyPlaces)
  {
    if p.total > MaxDigits then Some(TooManyDigits)
    else if p.places > DecimalPlaces then Some(TooManyPlaces)
    else if p.whole > MaxWholeDigits then Some(TooManyWholeDigits)
    else None
  }

  /** The precision checks pass exactly when there are at most two places
      and at most eight digits before the point. */
  lemma PrecisionPasses(coefficient: nat, exponent: int)
    ensures PrecisionError(PrecisionOf(coefficient, exponent)).None? <==>
      exponent >= -2 && DigitCount(coefficient) + exponent <= 8
  {
  }

  /** The quantized value in hundredths, exact once there are at most two places. */
  function Cents(negative: bool, coefficient: nat, exponent: int): int
    requires exponent >= -2
  {
    var magnitude := coefficient * Pow10(exponent + 2);
    if negative then -magnitude else magnitude
  }

  lemma ScaleLess(a: nat, b: nat, q: nat)
    requires a < b && q >= 1
    ensures a * q < b * q
  {
    assert b * q == a * q + (b - a) * q;
  }

  lemma ScaleAtMost(a: nat, b: nat, q: nat)
    requires a <= b
    ensures a * q <= b * q
  {
    assert b * q == a * q + (b - a) * q;
  }

  /** For a non-zero coefficient, eight digits before the point is the
      same as a value below 10^10 hundredths. */
  lemma CentsBound(coefficient: nat, exponent: int)
    requires coefficient > 0 && exponent >= -2
    ensures DigitCount(coefficient) + exponent <= 8 <==> coefficient * Pow10(exponent + 2) < Pow10(10)
  {
    var d := DigitCount(coefficient);
    var k: nat := exponent + 2;
    DigitCountBounds(coefficient);
    if d + k <= 10 {
      Pow10Add(d, k);
      Pow10Monotone(d + k, 10);
      ScaleLess(coefficient, Pow10(d), Pow10(k));
    } else {
      Pow10Add(d - 1, k);
      Pow10Monotone(10, d - 1 + k);
      ScaleAtMost(Pow10(d - 1), coefficient, Pow10(k));
    }
  }

  /** `validate_price`: the quantized price must be positive. */
  function ValidatePrice(cents: int): (r: Checked<int>)
    ensures r.Invalid? <==> cents <= 0
    ensures r.Invalid? ==> r.messages == [PriceNotPositive]
    ensures r.Valid? ==> r.value == cents
  {
    if cents <= 0 then Invalid([PriceNotPositive]) else Valid(cents)
  }

  /** The price field and then `validate_price`: the stripped text is
      length-checked, parsed, refused when not finite, checked for
      precision, quantized to hundredths and checked to be positive. */
  function PriceField(input: Input<string>, parse: DecimalParser): (r: Checked<int>)
    ensures r == Skipped <==> input.Absent?
    ensures input.Null? ==> r == Invalid([MayNotBeNull])
    ensures input.Given? && |Strip(input.value)| > MaxPriceText ==> r == Invalid([PriceTextTooLong])
    ensures input.Given? && |Strip(input.value)| <= MaxPriceText && !(parse(Strip(input.value)).Some? && parse(Strip(input.value)).value.Finite?) ==>
      r == Invalid([NotANumber])
    ensures r.Invalid? ==> |r.messages| == 1
  {
    match input
    case Absent => Skipped
    case Null => Invalid([MayNotBeNull])
    case Given(raw) =>
      var text := Strip(raw);
      if |text| > MaxPriceText then Invalid([PriceTextTooLong])
      else
        match parse(text)
        case None => Invalid([NotANumber])
        case Some(d) =>
          if !d.Finite? then Invalid([NotANumber])
          else
            var m := PrecisionError(PrecisionOf(d.coefficient, d.exponent));
            if m.Some? then Invalid([m.value])
            else ValidatePrice(Cents(d.negative, d.coefficient, d.exponent))
  }

  /** A decimal the price field accepts: positive, with at most two places
      as written, and below 10^10 hundredths (99999999.99 at most). */
  predicate AcceptedPrice(d: Decimal) {
    d.Finite? && !d.negative && d.coefficient > 0 && d.exponent >= -2 &&
    d.coefficient * Pow10(d.exponent + 2) < Pow10(10)
  }

  /** A sent price passes exactly when its text is short enough and reads
      as an accepted decimal, and the value kept is that decimal in
      hundredths, between 1 and 10^10 - 1. */
  lemma PriceFieldAccepts(raw: string, parse: DecimalParser)
    ensures PriceField(Given(raw), parse).Valid? <==>
      |Strip(raw)| <= MaxPriceText && parse(Strip(raw)).Some? && AcceptedPrice(parse(Strip(raw)).value)
    ensures PriceField(Given(raw), parse).Valid? ==>
      var d := parse(Strip(raw)).value;
      PriceField(Given(raw), parse).value == d.coefficient * Pow10(d.exponent + 2) &&
      0 < PriceField(Given(raw), parse).value < Pow10(10)
  {
    var text := Strip(raw);
    var r := PriceField(Given(raw), parse);
    if |text| <= MaxPriceText && parse(text).Some? && parse(text).value.Finite? {
      var d := parse(text).value;
      var m := PrecisionError(PrecisionOf(d.coefficient, d.exponent));
      assert r == if m.Some? then Invalid([m.value]) else ValidatePrice(Cents(d.negative, d.coefficient, d.exponent));
      assert m.None? <==> d.exponent >= -2 && DigitCount(d.coefficient) + d.exponent <= 8 by {
        PrecisionPasses(d.coefficient, d.exponent);
      }
      if d.exponent >= -2 {
        var cents := Cents(d.negative, d.coefficient, d.exponent);
        assert cents > 0 <==> !d.negative && d.coefficient > 0 by {
          assert Pow10(d.exponent + 2) > 0;
          if d.coefficient > 0 {
            ScaleAtMost(1, d.coefficient, Pow10(d.exponent + 2));
          }
        }
        if d.coefficient > 0 {
          CentsBound(d.coefficient, d.exponent);
        }
      }
    }
  }

  /** A whole number with nine or ten digits before the point (and none
      after) is refused for its whole digits, not its total. */
  lemma WholeDigitsRefused(raw: string, parse: DecimalParser)
    requires |Strip(raw)| <= MaxPriceText && parse(Strip(raw)).Some?
    requires var d := parse(Strip(raw)).value;
      d.Finite? && d.exponent >= 0 && 8 < DigitCount(d.coefficient) + d.exponent <= 10
    ensures PriceField(Given(raw), parse) == Invalid([TooManyWholeDigits])
  {
  }

  /** More than two written decimal places are refused even when they are
      trailing zeros, as long as the total stays within ten digits. */
  lemma ExtraPlacesRefused(raw: string, parse: DecimalParser)
    requires |Strip(raw)| <= MaxPriceText && parse(Strip(raw)).Some?
    requires var d := parse(Strip(raw)).value;
      d.Finite? && d.exponent < -2 && DigitCount(d.coefficient) <= 10 && d.exponent >= -10
    ensures PriceField(Given(raw), parse) == Invalid([TooManyPlaces])
  {
  }

  // ---------------------------------------------------------------- the serializer

  /** The fields a create or update request may carry that this model checks. */
  datatype PostInput = PostInput(title: Input<string>, description: Input<string>, price: Input<string>)

  /** The serializer's verdict: the validated values (a field left out is
      `None`), or the messages of every failing field by field name. */
  datatype PostCheck =
    | Validated(title: Option<string>, description: Option<string>, cents: Option<int>)
    | Rejected(errors: map<string, seq<Message>>)

  /** A create or update request sent as a form, as every client of the
      serializer sends it: each field's text, `None` when the body does
      not carry the name. */
  datatype PostForm = PostForm(title: Option<string>, description: Option<string>, price: Option<string>)

  /** The price is read from a form as an optional decimal field. */
  const PriceFormRules: CharRules := CharRules(false, false, None, None)

  /** The fields as the serializer receives them from a form body. */
  function FormPostInput(form: PostForm): PostInput {
    PostInput(FormInput(form.title, TitleRules), FormInput(form.description, DescriptionRules),
              FormInput(form.price, PriceFormRules))
  }

  /** `is_valid`: every field is checked and all failures are reported together. */
  function CheckPost(input: PostInput, parse: DecimalParser): (r: PostCheck)
    ensures r.Validated? <==>
      !TitleField(input.title).Invalid? && !DescriptionField(input.description).Invalid? &&
      !PriceField(input.price, parse).Invalid?
    ensures r.Validated? ==>
      r.title == ValueOf(TitleField(input.title)) &&
      r.description == ValueOf(DescriptionField(input.description)) &&
      r.cents == ValueOf(PriceField(input.price, parse))
    ensures r.Rejected? ==> r.errors.Keys <= {"title", "description", "price"}
    ensures r.Rejected? ==> ("title" in r.errors <==> TitleField(input.title).Invalid?)
    ensures r.Rejected? ==> ("description" in r.errors <==> DescriptionField(input.description).Invalid?)
    ensures r.Rejected? ==> ("price" in r.errors <==> PriceField(input.price, parse).Invalid?)
    ensures r.Rejected? && "title" in r.errors ==> r.errors["title"] == TitleField(input.title).messages
    ensures r.Rejected? && "description" in r.errors ==> r.errors["description"] == DescriptionField(input.description).messages
    ensures r.Rejected? && "price" in r.errors ==> r.errors["price"] == PriceField(input.price, parse).messages
  {
    var t := TitleField(input.title);
    var d := DescriptionField(input.description);
    var p := PriceField(input.price, parse);
    if t.Invalid? || d.Invalid? || p.Invalid? then
      Rejected(ErrorsOf("title", t) + ErrorsOf("description", d) + ErrorsOf("price", p))
    else
      Validated(ValueOf(t), ValueOf(d), ValueOf(p))
  }

  /** A partial update: a field left out is neither validated nor reported,
      so a request carrying none of them is valid and changes none of them. */
  lemma NothingSentValid(input: PostInput, parse: DecimalParser)
    ensures input.title.Absent? ==>
      (CheckPost(input, parse).Validated? ==> CheckPost(input, parse).title == None) &&
      (CheckPost(input, parse).Rejected? ==> "title" !in CheckPost(input, parse).errors)
    ensures input.description.Absent? ==>
      (CheckPost(input, parse).Validated? ==> CheckPost(input, parse).description == None) &&
      (CheckPost(input, parse).Rejected? ==> "description" !in CheckPost(input, parse).errors)
    ensures input.price.Absent? ==>
      (CheckPost(input, parse).Validated? ==> CheckPost(input, parse).cents == None) &&
      (CheckPost(input, parse).Rejected? ==> "price" !in CheckPost(input, parse).errors)
    ensures input == PostInput(Absent, Absent, Absent) ==> CheckPost(input, parse) == Validated(None, None, None)
  {
  }

  /** Over a form body, a field sent as "" is left out like one not sent:
      it is neither validated nor reported, so a title, description or
      price sent empty never fails; text of spaces only is still refused
      as blank, and any other text is checked as in a JSON body. */
  lemma FormFields(form: PostForm, parse: DecimalParser)
    ensures var t := TitleField(FormPostInput(form).title);
      && (t == Skipped <==> form.title.None? || form.title == Some(""))
      && (t.Valid? <==>
            (form.title.Some? && !IsBlank(form.title.value) &&
             |Strip(form.title.value)| <= MaxTitleLength && '\0' !in Strip(form.title.value)))
      && (t.Invalid? <==> form.title.Some? && form.title.value != "" && !t.Valid?)
    ensures var d := DescriptionField(FormPostInput(form).description);
      && (d == Skipped <==> form.description.None? || form.description == Some(""))
      && (d.Valid? <==>
            (form.description.Some? && !IsBlank(form.description.value) &&
             '\0' !in Strip(form.description.value)))
      && (d.Invalid? <==> form.description.Some? && form.description.value != "" && !d.Valid?)
    ensures var p := PriceField(FormPostInput(form).price, parse);
      && (p == Skipped <==> form.price.None? || form.price == Some(""))
      && (form.price.Some? && form.price.value != "" ==> p == PriceField(Given(form.price.value), parse))
    ensures form == PostForm(Some(""), Some(""), Some("")) ==>
      CheckPost(FormPostInput(form), parse) == Validated(None, None, None)
  {
  }
}
