/** The create-post dialog of the posts page: one post for one account,
    with a required image. `parseFloat` and the server's answer are
    parameters. The image rules and the price rule are shared with the edit
    dialog. */
module CreatePostModal {

  import opened Common
  import opened Text

  /** JavaScript's `parseFloat(text)`; `None` is NaN. */
  type FloatParser = string -> Option<real>

  /** 5 MiB. */
  const MaxImageBytes: nat := 5 * 1024 * 1024

  const ImageTooLarge: string := "Image size must be less than 5MB"
  const NotAnImage: string := "Please select an image file"
  const TitleRequired: string := "Title is required"
  const DescriptionRequired: string := "Description is required"
  const InvalidPrice: string := "Please enter a valid price"
  const AccountRequired: string := "Please select an account"
  const ImageMissing: string := "Please upload an image"
  const TimeRequired: string := "Please select a scheduled time"
  const CreatedMessage: string := "Post created successfully!"
  const DefaultErrorMessage: string := "Failed to create post. Please try again."

  /** What the image preview shows: nothing, a URL, or a chosen file read as
      a data URL. */
  datatype Preview = NoPreview | Url(url: string) | DataOf(file: File)

  /** One entry of a multipart request. */
  datatype FormEntry = TextEntry(name: string, value: string) | FileEntry(name: string, file: File)

  /** The checks an image must pass before it is taken: its size first, then
      its type. */
  function ImageCheck(file: File): (error: Option<string>)
    ensures error.None? <==> file.size <= MaxImageBytes && StartsWith(file.mimeType, "image/")
    ensures file.size > MaxImageBytes ==> error == Some(ImageTooLarge)
    ensures file.size <= MaxImageBytes && !StartsWith(file.mimeType, "image/") ==> error == Some(NotAnImage)
  {
    if file.size > MaxImageBytes then Some(ImageTooLarge)
    else if !StartsWith(file.mimeType, "image/") then Some(NotAnImage)
    else None
  }

  /** The price check as written: an empty price, or one that parses to a
      number at most zero, is refused. NaN is not at most zero. */
  predicate PriceRefused(price: string, parse: FloatParser) {
    price == "" || (parse(price).Some? && parse(price).value <= 0.0)
  }

  /** A text that does not parse at all passes the check as written. */
  lemma UnparsablePriceAccepted(parse: FloatParser)
    requires parse("abc") == None
    ensures !PriceRefused("abc", parse)
  {
  }

  /** The check as intended: a price must parse to a number above zero. */
  predicate PriceRefusedFixed(price: string, parse: FloatParser) {
    price == "" || parse(price).None? || parse(price).value <= 0.0
  }

  /** The intended check lets through exactly the prices that parse to a
      positive number, and refuses everything the written one refuses. */
  lemma FixedPriceIsPositive(price: string, parse: FloatParser)
    ensures !PriceRefusedFixed(price, parse) <==> price != "" && parse(price).Some? && parse(price).value > 0.0
    ensures PriceRefused(price, parse) ==> PriceRefusedFixed(price, parse)
  {
  }

  /** The first failing check of `handleSubmit`, in order: title,
      description, price, account, image, scheduled time. */
  function SubmitError(title: string, description: string, price: string, account: string,
                       image: Option<File>, scheduledTime: string, parse: FloatParser): (error: Option<string>)
    ensures error.None? <==>
      !IsBlank(title) && !IsBlank(description) && !PriceRefused(price, parse) &&
      account != "" && image.Some? && scheduledTime != ""
    ensures IsBlank(title) ==> error == Some(TitleRequired)
    ensures !IsBlank(title) && IsBlank(description) ==> error == Some(DescriptionRequired)
    ensures !IsBlank(title) && !IsBlank(description) && PriceRefused(price, parse) ==> error == Some(InvalidPrice)
  {
    if IsBlank(title) then Some(TitleRequired)
    else if IsBlank(description) then Some(DescriptionRequired)
    else if PriceRefused(price, parse) then Some(InvalidPrice)
    else if account == "" then Some(AccountRequired)
    else if image.None? then Some(ImageMissing)
    else if scheduledTime == "" then Some(TimeRequired)
    else None
  }

  /** Only one message is shown: a form failing several checks reports the
      earliest, so a later failure is reported only when all earlier checks
      pass. */
  lemma FirstFailureReported(title: string, description: string, price: string, account: string,
                             image: Option<File>, scheduledTime: string, parse: FloatParser)
    ensures SubmitError(title, description, price, account, image, scheduledTime, parse) == Some(ImageMissing) <==>
      !IsBlank(title) && !IsBlank(description) && !PriceRefused(price, parse) && account != "" && image.None?
    ensures SubmitError(title, description, price, account, image, scheduledTime, parse) == Some(TimeRequired) <==>
      !IsBlank(title) && !IsBlank(description) && !PriceRefused(price, parse) && account != "" &&
      image.Some? && scheduledTime == ""
  {
  }

  /** JavaScript's `a || b` on the server's optional error text. */
  function ErrorOr(error: Option<string>, default: string): string {
    if error.Some? && error.value != "" then error.value else default
  }

  /** The request: the text fields in order, then the image. */
  function Request(title: string, description: string, price: string, account: string,
                   scheduledTime: string, image: File): (entries: seq<FormEntry>)
    ensures |entries| == 6 && entries[5] == FileEntry("image", image)
    ensures forall i :: 0 <= i < 5 ==> entries[i].TextEntry?
  {
    [TextEntry("title", title), TextEntry("description", description), TextEntry("price", price),
     TextEntry("account", account), TextEntry("scheduled_time", scheduledTime), FileEntry("image", image)]
  }

  /** The server's answer: created, or an error with its optional `error`. */
  datatype Outcome = Saved | Failed(error: Option<string>)

  /** The submit button's `disabled` condition. */
  predicate SubmitDisabled(loading: bool, accounts: seq<int>) {
    loading || |accounts| == 0
  }

  /** The dialog's state. */
  class Dialog {
    var accounts: seq<int>
    var title: string
    var description: string
    var price: string
    var account: string
    var scheduledTime: string
    var image: Option<File>
    var preview: Preview
    var error: string

    constructor(accounts: seq<int>, now: string)
      ensures this.accounts == accounts && scheduledTime == now
      ensures title == "" && description == "" && price == "" && account == ""
      ensures image == None && preview == NoPreview && error == ""
    {
      this.accounts := accounts;
      title, description, price, account := "", "", "", "";
      scheduledTime := now;
      image := None;
      preview := NoPreview;
      error := "";
    }

    /** `handleImageChange`: a refused file leaves the chosen image as it
        was and shows why; an accepted one replaces it and clears the error. */
    method ImageChange(file: Option<File>)
      modifies this
      ensures file.None? ==> unchanged(this)
      ensures file.Some? && ImageCheck(file.value).Some? ==>
        error == ImageCheck(file.value).value && image == old(image) && preview == old(preview)
      ensures file.Some? && ImageCheck(file.value).None? ==>
        image == file && error == "" && preview == DataOf(file.value)
      ensures title == old(title) && description == old(description) && price == old(price)
      ensures account == old(account) && scheduledTime == old(scheduledTime) && accounts == old(accounts)
    {
      if file.Some? {
        var f := file.value;
        if f.size > MaxImageBytes {
          error := ImageTooLarge;
          return;
        }
        if !StartsWith(f.mimeType, "image/") {
          error := NotAnImage;
          return;
        }
        image := file;
        error := "";
        preview := DataOf(f);
      }
    }

    /** The verdict of the submit checks on the current form. */
    function Check(parse: FloatParser): Option<string>
      reads this
    {
      SubmitError(title, description, price, account, image, scheduledTime, parse)
    }

    /** `handleSubmit`: returns the request sent, if any, and the toast. */
    method Submit(parse: FloatParser, outcome: Outcome) returns (sent: Option<seq<FormEntry>>, notice: Notice)
      modifies this
      ensures old(Check(parse)).Some? ==>
        sent == None && notice == Quiet && error == old(Check(parse)).value &&
        title == old(title) && description == old(description) && price == old(price) &&
        account == old(account) && image == old(image) && scheduledTime == old(scheduledTime) &&
        preview == old(preview)
      ensures old(Check(parse)).None? ==>
        sent == Some(Request(old(title), old(description), old(price), old(account), old(scheduledTime), old(image).value))
      ensures old(Check(parse)).None? && outcome.Saved? ==>
        notice == SuccessNotice(CreatedMessage) && error == "" &&
        title == "" && description == "" && price == "" && account == "" && scheduledTime == "" &&
        image == None && preview == NoPreview
      ensures old(Check(parse)).None? && outcome.Failed? ==>
        notice == ErrorNotice(ErrorOr(outcome.error, DefaultErrorMessage)) &&
        error == ErrorOr(outcome.error, DefaultErrorMessage) &&
        title == old(title) && description == old(description) && price == old(price) &&
        account == old(account) && image == old(image) && scheduledTime == old(scheduledTime) &&
        preview == old(preview)
      ensures accounts == old(accounts)
    {
      error := "";
      notice := Quiet;
      sent := None;
      if IsBlank(title) {
        error := TitleRequired;
        return;
      }
      if IsBlank(description) {
        error := DescriptionRequired;
        return;
      }
      if PriceRefused(price, parse) {
        error := InvalidPrice;
        return;
      }
      if account == "" {
        error := AccountRequired;
        return;
      }
      if image.None? {
        error := ImageMissing;
        return;
      }
      if scheduledTime == "" {
        error := TimeRequired;
        return;
      }
      sent := Some(Request(title, description, price, account, scheduledTime, image.value));
      match outcome
      case Saved =>
        notice := SuccessNotice(CreatedMessage);
        title, description, price, account, scheduledTime := "", "", "", "", "";
        image := None;
        preview := NoPreview;
      case Failed(e) =>
        error := ErrorOr(e, DefaultErrorMessage);
        notice := ErrorNotice(error);
    }
  }
}
