/** The create-post page: one post sent for several accounts at once, with
    an image given either as a file or as a URL. `Number(price)` is a
    parameter (`None` standing for NaN), and so is the server's answer. */
module CreatePostPage {

  import opened Common
  import opened Text
  import ProductUpload

  /** JavaScript's `Number(text)`; `None` is NaN. */
  type NumberParser = string -> Option<real>

  const AccountsRequired: string := "Please select at least one account"
  const TitleRequired: string := "Title is required"
  const DescriptionRequired: string := "Description is required"
  const PriceRequired: string := "Price is required"
  const PriceNotPositive: string := "Price must be a positive number"
  const ImageRequired: string := "Please provide an image (file upload or URL)"
  const DefaultErrorMessage: string := "Failed to create posts. Please try again."

  /** A price the page accepts: it converts to a number above zero. */
  predicate PositiveNumber(price: string, toNumber: NumberParser) {
    toNumber(price).Some? && toNumber(price).value > 0.0
  }

  /** The error map after one check: its key added when the check failed. */
  function WithError(errors: map<string, string>, failed: bool, key: string, message: string): map<string, string> {
    if failed then errors[key := message] else errors
  }

  /** `validateForm`'s error map, each check adding its key. */
  function FormErrors(selected: seq<int>, title: string, description: string, price: string,
                      imageFile: Option<File>, imageUrl: string, toNumber: NumberParser): map<string, string>
  {
    var e0 := WithError(map[], selected == [], "accounts", AccountsRequired);
    var e1 := WithError(e0, IsBlank(title), "title", TitleRequired);
    var e2 := WithError(e1, IsBlank(description), "description", DescriptionRequired);
    var e3 := WithError(e2, IsBlank(price), "price", PriceRequired);
    var e4 := WithError(e3, !IsBlank(price) && !PositiveNumber(price, toNumber), "price", PriceNotPositive);
    WithError(e4, imageFile.None? && imageUrl == "", "image", ImageRequired)
  }

  /** The checks of `validateForm`, run one after another over the form's
      values. */
  method CollectErrors(selected: seq<int>, title: string, description: string, price: string,
                       imageFile: Option<File>, imageUrl: string, toNumber: NumberParser)
    returns (newErrors: map<string, string>)
    ensures newErrors == FormErrors(selected, title, description, price, imageFile, imageUrl, toNumber)
  {
    newErrors := map[];
    if |selected| == 0 {
      newErrors := newErrors["accounts" := AccountsRequired];
    }
    ghost var e0 := newErrors;
    assert e0 == WithError(map[], selected == [], "accounts", AccountsRequired);
    if IsBlank(title) {
      newErrors := newErrors["title" := TitleRequired];
    }
    ghost var e1 := newErrors;
    assert e1 == WithError(e0, IsBlank(title), "title", TitleRequired);
    if IsBlank(description) {
      newErrors := newErrors["description" := DescriptionRequired];
    }
    ghost var e2 := newErrors;
    assert e2 == WithError(e1, IsBlank(description), "description", DescriptionRequired);
    if IsBlank(price) {
      newErrors := newErrors["price" := PriceRequired];
    } else if !PositiveNumber(price, toNumber) {
      newErrors := newErrors["price" := PriceNotPositive];
    }
    ghost var e4 := newErrors;
    assert e4 == WithError(WithError(e2, IsBlank(price), "price", PriceRequired),
                           !IsBlank(price) && !PositiveNumber(price, toNumber), "price", PriceNotPositive);
    if imageFile.None? && imageUrl == "" {
      newErrors := newErrors["image" := ImageRequired];
    }
    assert newErrors == WithError(e4, imageFile.None? && imageUrl == "", "image", ImageRequired);
  }

  /** The form is valid iff every check passes; in particular an image (file
      or URL) is required although its card is labelled optional. */
  lemma FormValidIff(selected: seq<int>, title: string, description: string, price: string,
                     imageFile: Option<File>, imageUrl: string, toNumber: NumberParser)
    ensures FormErrors(selected, title, description, price, imageFile, imageUrl, toNumber) == map[] <==>
      selected != [] && !IsBlank(title) && !IsBlank(description) && !IsBlank(price) &&
      PositiveNumber(price, toNumber) && (imageFile.Some? || imageUrl != "")
  {
    var e := FormErrors(selected, title, description, price, imageFile, imageUrl, toNumber);
    if selected == [] { assert "accounts" in e; }
    if IsBlank(title) { assert "title" in e; }
    if IsBlank(description) { assert "description" in e; }
    if IsBlank(price) || !PositiveNumber(price, toNumber) { assert "price" in e; }
    if imageFile.None? && imageUrl == "" { assert "image" in e; }
  }

  /** Which price message is shown: "required" for a blank price, "must be
      positive" for one that is not a number above zero. */
  lemma PriceMessages(selected: seq<int>, title: string, description: string, price: string,
                      imageFile: Option<File>, imageUrl: string, toNumber: NumberParser)
    ensures var e := FormErrors(selected, title, description, price, imageFile, imageUrl, toNumber);
      && (IsBlank(price) ==> "price" in e && e["price"] == PriceRequired)
      && (!IsBlank(price) && !PositiveNumber(price, toNumber) ==> "price" in e && e["price"] == PriceNotPositive)
      && (!IsBlank(price) && PositiveNumber(price, toNumber) ==> "price" !in e)
  {
  }

  /** `JSON.stringify` of a list of integers. */
  function JsonIds(ids: seq<int>): string {
    "[" + Join(Map(ids, IntToString), ",") + "]"
  }

  lemma NoCommaInInt(n: int)
    ensures ',' !in IntToString(n)
  {
    if n < 0 {
      assert IntToString(n) == "-" + NatToString(-n);
    }
  }

  /** The account list sent as JSON reads back, entry by entry, as the
      selected ids. */
  lemma JsonIdsReadBack(ids: seq<int>)
    requires ids != []
    ensures var s := JsonIds(ids);
      s[0] == '[' && s[|s| - 1] == ']' &&
      ProductUpload.ParseIds(Split(s[1..|s| - 1], ',')) == ProductUpload.Ids(ids)
  {
    var parts := Map(ids, IntToString);
    forall i | 0 <= i < |parts| ensures ',' !in parts[i] {
      NoCommaInInt(ids[i]);
    }
    var s := JsonIds(ids);
    assert s[1..|s| - 1] == Join(parts, ",");
    SplitJoin(parts, ',');
    ProductUpload.ParseIdsOfWritten(ids);
  }

  /** One entry of the request. */
  datatype Field =
    | AccountIds(json: string)
    | Title(text: string)
    | Description(text: string)
    | Price(text: string)
    | ImageFile(file: File)
    | ImageUrl(url: string)

  /** The request: the fields in order, then the image file if there is one,
      else the URL if it is not empty. */
  function Payload(selected: seq<int>, title: string, description: string, price: string,
                   imageFile: Option<File>, imageUrl: string): (fields: seq<Field>)
    ensures |fields| >= 4 && fields[0] == AccountIds(JsonIds(selected))
    ensures imageFile.Some? ==>
      fields[|fields| - 1] == ImageFile(imageFile.value) && forall i :: 0 <= i < |fields| ==> !fields[i].ImageUrl?
    ensures imageFile.None? && imageUrl != "" ==>
      fields[|fields| - 1] == ImageUrl(imageUrl) && forall i :: 0 <= i < |fields| ==> !fields[i].ImageFile?
    ensures imageFile.None? && imageUrl == "" ==> |fields| == 4
  {
    [AccountIds(JsonIds(selected)), Title(title), Description(description), Price(price)] +
    (if imageFile.Some? then [ImageFile(imageFile.value)]
     else if imageUrl != "" then [ImageUrl(imageUrl)]
     else [])
  }

  /** How the request ended: a reply with its optional `message`, or an
      error with the reply's optional `error`. */
  datatype Outcome = Created(message: Option<string>) | Failed(error: Option<string>)

  function SuccessMessage(message: Option<string>, count: nat): string {
    if message.Some? && message.value != "" then message.value
    else "Successfully created posts for " + NatToString(count) + " account(s)!"
  }

  function FailureMessage(error: Option<string>): string {
    if error.Some? && error.value != "" then error.value else DefaultErrorMessage
  }

  /** A file and a non-empty URL are never both chosen. */
  predicate OneImageSource(imageFile: Option<File>, imageUrl: string) {
    !(imageFile.Some? && imageUrl != "")
  }

  /** The page state. */
  class Page {
    var accounts: seq<int>
    var selected: seq<int>
    var selectAll: bool
    var title: string
    var description: string
    var price: string
    var imageFile: Option<File>
    var imageUrl: string
    var useImageUrl: bool
    var errors: map<string, string>

    constructor(accounts: seq<int>)
      ensures this.accounts == accounts && selected == [] && !selectAll
      ensures title == "" && description == "" && price == "" && imageFile == None && imageUrl == ""
      ensures errors == map[] && OneImageSource(imageFile, imageUrl)
    {
      this.accounts := accounts;
      selected := [];
      selectAll := false;
      title, description, price := "", "", "";
      imageFile := None;
      imageUrl := "";
      useImageUrl := false;
      errors := map[];
    }

    /** `handleSelectAll`: the flag decides, not the selection. */
    method SelectAll()
      modifies this
      ensures old(selectAll) ==> selected == [] && !selectAll
      ensures !old(selectAll) ==> selected == accounts && selectAll
      ensures accounts == old(accounts) && imageFile == old(imageFile) && imageUrl == old(imageUrl)
      ensures title == old(title) && description == old(description) && price == old(price)
      ensures useImageUrl == old(useImageUrl) && errors == old(errors)
    {
      if selectAll {
        selected := [];
        selectAll := false;
      } else {
        selected := accounts;
        selectAll := true;
      }
    }

    /** `handleSelectAccount`: unticking clears the flag; ticking sets it
        when the selection reaches the number of accounts. */
    method SelectAccount(id: int)
      modifies this
      ensures id in old(selected) ==> selected == Filter(old(selected), x => x != id) && !selectAll
      ensures id !in old(selected) ==>
        selected == old(selected) + [id] && selectAll == (old(selectAll) || |old(selected)| + 1 == |accounts|)
      ensures accounts == old(accounts) && imageFile == old(imageFile) && imageUrl == old(imageUrl)
      ensures title == old(title) && description == old(description) && price == old(price)
      ensures useImageUrl == old(useImageUrl) && errors == old(errors)
    {
      if id in selected {
        selected := Filter(selected, x => x != id);
        selectAll := false;
      } else {
        var newSelected := selected + [id];
        selected := newSelected;
        if |newSelected| == |accounts| {
          selectAll := true;
        }
      }
    }

    /** `handleImageFileChange`: a chosen file clears the URL. */
    method ImageFileChange(file: Option<File>)
      modifies this
      ensures file.Some? ==> imageFile == file && imageUrl == "" && !useImageUrl
      ensures file.None? ==> imageFile == old(imageFile) && imageUrl == old(imageUrl) && useImageUrl == old(useImageUrl)
      ensures OneImageSource(old(imageFile), old(imageUrl)) ==> OneImageSource(imageFile, imageUrl)
      ensures file.Some? ==> OneImageSource(imageFile, imageUrl)
      ensures selected == old(selected) && title == old(title) && price == old(price)
      ensures description == old(description) && accounts == old(accounts) && selectAll == old(selectAll)
      ensures errors == old(errors)
    {
      if file.Some? {
        imageFile := file;
        useImageUrl := false;
        imageUrl := "";
      }
    }

    /** `handleImageUrlChange`: a non-empty URL clears the file. */
    method ImageUrlChange(url: string)
      modifies this
      ensures imageUrl == url
      ensures url != "" ==> imageFile == None && useImageUrl
      ensures url == "" ==> imageFile == old(imageFile) && useImageUrl == old(useImageUrl)
      ensures OneImageSource(imageFile, imageUrl)
      ensures selected == old(selected) && title == old(title) && price == old(price)
      ensures description == old(description) && accounts == old(accounts) && selectAll == old(selectAll)
      ensures errors == old(errors)
    {
      imageUrl := url;
      if url != "" {
        useImageUrl := true;
        imageFile := None;
      }
    }

    /** `validateForm`: records the errors and answers whether there are none. */
    method ValidateForm(toNumber: NumberParser) returns (valid: bool)
      modifies this
      ensures errors == FormErrors(selected, title, description, price, imageFile, imageUrl, toNumber)
      ensures valid <==> errors == map[]
      ensures selected == old(selected) && title == old(title) && description == old(description)
      ensures price == old(price) && imageFile == old(imageFile) && imageUrl == old(imageUrl)
      ensures accounts == old(accounts) && selectAll == old(selectAll) && useImageUrl == old(useImageUrl)
    {
      var newErrors := CollectErrors(selected, title, description, price, imageFile, imageUrl, toNumber);
      errors := newErrors;
      valid := |errors.Keys| == 0;
    }

    /** `handleSubmit`: returns the request sent, the alert shown and
        whether the page moved on to the posts list. */
    method Submit(toNumber: NumberParser, outcome: Outcome)
      returns (sent: Option<seq<Field>>, alert: Option<string>, navigated: bool)
      modifies this
      ensures errors == FormErrors(old(selected), old(title), old(description), old(price),
                                   old(imageFile), old(imageUrl), toNumber)
      ensures errors != map[] ==> sent == None && alert == None && !navigated
      ensures errors == map[] ==>
        sent == Some(Payload(old(selected), old(title), old(description), old(price), old(imageFile), old(imageUrl)))
      ensures errors == map[] && outcome.Created? ==>
        alert == Some(SuccessMessage(outcome.message, |old(selected)|)) && navigated
      ensures errors == map[] && outcome.Failed? ==> alert == Some(FailureMessage(outcome.error)) && !navigated
      ensures selected == old(selected) && title == old(title) && price == old(price)
      ensures imageFile == old(imageFile) && imageUrl == old(imageUrl)
      ensures description == old(description) && accounts == old(accounts) && selectAll == old(selectAll)
      ensures useImageUrl == old(useImageUrl)
    {
      var valid := ValidateForm(toNumber);
      if !valid {
        return None, None, false;
      }
      var fields := [AccountIds(JsonIds(selected)), Title(title), Description(description), Price(price)];
      if imageFile.Some? {
        fields := fields + [ImageFile(imageFile.value)];
      } else if imageUrl != "" {
        fields := fields + [ImageUrl(imageUrl)];
      }
      assert fields == Payload(selected, title, description, price, imageFile, imageUrl);
      sent := Some(fields);
      match outcome
      case Created(message) =>
        alert := Some(SuccessMessage(message, |selected|));
        navigated := true;
      case Failed(error) =>
        alert := Some(FailureMessage(error));
        navigated := false;
    }
  }
}
