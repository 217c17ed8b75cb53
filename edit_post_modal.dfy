/** The edit-post dialog: the form starts from the post, fields change one
    at a time, and a new image is optional. `parseFloat`, `parseInt` and
    the server's answer are parameters. */
module EditPostModal {

  import opened Common
  import opened Text
  import opened CreatePostModal

  /** JavaScript's `parseInt(text)`; `None` is NaN. */
  type IntParser = string -> Option<int>

  const UpdatedMessage: string := "Post updated successfully!"
  const DefaultUpdateError: string := "Failed to update post. Please try again."

  /** The post being edited, as the posts list gives it. */
  datatype PostRecord = PostRecord(id: int, title: string, description: string, price: string,
                                   image: string, account: int, posted: bool)

  /** The form's values; `account` is `None` when `parseInt` gave NaN. */
  datatype EditForm = EditForm(title: string, description: string, price: string,
                               account: Option<int>, posted: bool)

  /** The form a post opens with. */
  function FormOf(post: PostRecord): (f: EditForm)
    ensures f.title == post.title && f.description == post.description && f.price == post.price
    ensures f.account == Some(post.account) && f.posted == post.posted
  {
    EditForm(post.title, post.description, post.price, Some(post.account), post.posted)
  }

  /** A change event from one of the form's inputs. */
  datatype InputEvent = TextInput(name: string, value: string) | CheckboxInput(name: string, checked: bool)

  /** `handleInputChange`: the named field takes the checkbox's flag, the
      account the integer parsed from the value, any other field the raw
      value. A name the form does not read changes nothing it reads. */
  function ApplyInput(f: EditForm, e: InputEvent, parseInt: IntParser): (g: EditForm)
    ensures e.CheckboxInput? && e.name == "posted" ==> g == f.(posted := e.checked)
    ensures e.TextInput? && e.name == "account" ==> g == f.(account := parseInt(e.value))
    ensures e.TextInput? && e.name == "title" ==> g == f.(title := e.value)
    ensures e.TextInput? && e.name == "description" ==> g == f.(description := e.value)
    ensures e.TextInput? && e.name == "price" ==> g == f.(price := e.value)
    ensures e.name !in {"title", "description", "price", "account", "posted"} ==> g == f
  {
    match e
    case CheckboxInput(name, checked) => if name == "posted" then f.(posted := checked) else f
    case TextInput(name, value) =>
      if name == "account" then f.(account := parseInt(value))
      else if name == "title" then f.(title := value)
      else if name == "description" then f.(description := value)
      else if name == "price" then f.(price := value)
      else f
  }

  /** Editing one field leaves every other field as it was. */
  lemma InputChangesOneField(f: EditForm, value: string, parseInt: IntParser)
    ensures var g := ApplyInput(f, TextInput("title", value), parseInt);
      g.description == f.description && g.price == f.price && g.account == f.account && g.posted == f.posted
    ensures var g := ApplyInput(f, TextInput("price", value), parseInt);
      g.title == f.title && g.description == f.description && g.account == f.account && g.posted == f.posted
    ensures var g := ApplyInput(f, TextInput("account", value), parseInt);
      g.title == f.title && g.description == f.description && g.price == f.price && g.posted == f.posted
  {
  }

  /** `!formData.account`: NaN and 0 count as no account. */
  predicate NoAccount(account: Option<int>) {
    account.None? || account.value == 0
  }

  /** The first failing check, in order: title, description, price,
      account. No image is required. */
  function EditError(f: EditForm, parse: FloatParser): (error: Option<string>)
    ensures error.None? <==>
      !IsBlank(f.title) && !IsBlank(f.description) && !PriceRefused(f.price, parse) && !NoAccount(f.account)
    ensures IsBlank(f.title) ==> error == Some(TitleRequired)
    ensures !IsBlank(f.title) && IsBlank(f.description) ==> error == Some(DescriptionRequired)
    ensures !IsBlank(f.title) && !IsBlank(f.description) && PriceRefused(f.price, parse) ==> error == Some(InvalidPrice)
  {
    if IsBlank(f.title) then Some(TitleRequired)
    else if IsBlank(f.description) then Some(DescriptionRequired)
    else if PriceRefused(f.price, parse) then Some(InvalidPrice)
    else if NoAccount(f.account) then Some(AccountRequired)
    else None
  }

  /** A post opened and left unchanged passes validation whenever its own
      fields do; its image plays no part. */
  lemma UnchangedPostValid(post: PostRecord, parse: FloatParser)
    requires !IsBlank(post.title) && !IsBlank(post.description) && !PriceRefused(post.price, parse)
    requires post.account != 0
    ensures EditError(FormOf(post), parse) == None
  {
  }

  function BoolText(b: bool): string {
    if b then "true" else "false"
  }

  /** The request: the five fields, then the new image only if one was
      chosen. */
  function UpdateRequest(f: EditForm, image: Option<File>): (entries: seq<FormEntry>)
    requires f.account.Some?
    ensures |entries| == (if image.Some? then 6 else 5)
    ensures entries[3] == TextEntry("account", IntToString(f.account.value))
    ensures entries[4] == TextEntry("posted", BoolText(f.posted))
    ensures image.Some? ==> entries[5] == FileEntry("image", image.value)
    ensures forall i :: 0 <= i < 5 ==> entries[i].TextEntry?
  {
    [TextEntry("title", f.title), TextEntry("description", f.description), TextEntry("price", f.price),
     TextEntry("account", IntToString(f.account.value)), TextEntry("posted", BoolText(f.posted))] +
    (if image.Some? then [FileEntry("image", image.value)] else [])
  }

  /** The dialog's state. */
  class Dialog {
    var post: Option<PostRecord>
    var form: EditForm
    var image: Option<File>
    var preview: Preview
    var error: string

    constructor()
      ensures post == None && image == None && preview == NoPreview && error == ""
    {
      post := None;
      form := EditForm("", "", "", Some(0), false);
      image := None;
      preview := NoPreview;
      error := "";
    }

    /** Opening the dialog on a post: the form is the post's, the preview
        its image, and no new image is chosen. */
    method Open(p: PostRecord)
      modifies this
      ensures post == Some(p) && form == FormOf(p) && preview == Url(p.image) && image == None
      ensures error == old(error)
    {
      post := Some(p);
      form := EditForm(p.title, p.description, p.price, Some(p.account), p.posted);
      preview := Url(p.image);
      image := None;
    }

    /** `handleInputChange`. */
    method InputChange(e: InputEvent, parseInt: IntParser)
      modifies this
      ensures form == ApplyInput(old(form), e, parseInt)
      ensures post == old(post) && image == old(image) && preview == old(preview) && error == old(error)
    {
      match e
      case CheckboxInput(name, checked) =>
        if name == "posted" {
          form := form.(posted := checked);
        }
      case TextInput(name, value) =>
        if name == "account" {
          form := form.(account := parseInt(value));
        } else if name == "title" {
          form := form.(title := value);
        } else if name == "description" {
          form := form.(description := value);
        } else if name == "price" {
          form := form.(price := value);
        }
    }

    /** `handleImageChange`, with the same checks as the create dialog. */
    method ImageChange(file: Option<File>)
      modifies this
      ensures file.None? ==> unchanged(this)
      ensures file.Some? && ImageCheck(file.value).Some? ==>
        error == ImageCheck(file.value).value && image == old(image) && preview == old(preview)
      ensures file.Some? && ImageCheck(file.value).None? ==>
        image == file && error == "" && preview == DataOf(file.value)
      ensures post == old(post) && form == old(form)
    {
      if file.Some? {
        var f := file.value;
        if f.size > MaxImageBytes {
          error := ImageTooLarge;
          return;
        }
        if !StartsWith(f.mimeType, "image/") {
          error := NotAnImage;
          return;
        }
        image := file;
        error := "";
        preview := DataOf(f);
      }
    }

    /** "Cancel Change": back to the post's own image. The button is shown
        only while a post is open. */
    method CancelImageChange()
      requires post.Some?
      modifies this
      ensures post == old(post) && form == old(form) && error == old(error)
      ensures image == None && preview == Url(old(post).value.image)
    {
      image := None;
      preview := Url(post.value.image);
    }

    /** `handleSubmit`: returns the id and request of the update sent, if
        any, and the toast. */
    method Submit(parse: FloatParser, outcome: Outcome)
      returns (sent: Option<(int, seq<FormEntry>)>, notice: Notice)
      modifies this
      ensures old(post).None? ==> sent == None && notice == Quiet && error == ""
      ensures old(post).Some? && EditError(old(form), parse).Some? ==>
        sent == None && notice == Quiet && error == EditError(old(form), parse).value
      ensures old(post).Some? && EditError(old(form), parse).None? ==>
        sent == Some((old(post).value.id, UpdateRequest(old(form), old(image))))
      ensures old(post).Some? && EditError(old(form), parse).None? && outcome.Saved? ==>
        notice == SuccessNotice(UpdatedMessage) && error == ""
      ensures old(post).Some? && EditError(old(form), parse).None? && outcome.Failed? ==>
        notice == ErrorNotice(ErrorOr(outcome.error, DefaultUpdateError)) &&
        error == ErrorOr(outcome.error, DefaultUpdateError)
      ensures post == old(post) && form == old(form) && image == old(image) && preview == old(preview)
    {
      error := "";
      notice := Quiet;
      sent := None;
      if post.None? {
        return;
      }
      if IsBlank(form.title) {
        error := TitleRequired;
        return;
      }
      if IsBlank(form.description) {
        error := DescriptionRequired;
        return;
      }
      if PriceRefused(form.price, parse) {
        error := InvalidPrice;
        return;
      }
      if NoAccount(form.account) {
        error := AccountRequired;
        return;
      }
      sent := Some((post.value.id, UpdateRequest(form, image)));
      match outcome
      case Saved =>
        notice := SuccessNotice(UpdatedMessage);
      case Failed(e) =>
        error := ErrorOr(e, DefaultUpdateError);
        notice := ErrorNotice(error);
    }
  }
}
