/** The bulk posts dialog: a TXT file of products, optional images and the
    accounts to post with, sent as one multipart request to the bulk upload
    with images. The server's answer is a parameter of `Submit`. */
module BulkPostsModal {

  import opened Common
  import opened Text
  import opened Selection
  import ProductUpload

  const TxtRequiredMessage: string := "Please select a TXT file"
  const NoAccountMessage: string := "Please select at least one account"
  const NotImagesMessage: string := "Some files are not valid images"
  const UploadFailedMessage: string := "Upload failed"
  const DefaultErrorMessage: string := "Failed to upload TXT file"

  predicate IsTxt(f: File) {
    EndsWith(f.name, ".txt")
  }

  predicate IsImage(f: File) {
    StartsWith(f.mimeType, "image/")
  }

  /** JavaScript's `a || b` on a possibly missing string: an absent or empty
      `a` gives `b`. */
  function Or(a: Option<string>, b: string): (r: string)
    ensures a.Some? && a.value != "" ==> r == a.value
    ensures a.None? || a.value == "" ==> r == b
  {
    if a.Some? && a.value != "" then a.value else b
  }

  /** The images kept from a selection: the image files, in order. */
  function ValidImages(files: seq<File>): (r: seq<File>)
    ensures forall f :: f in r <==> f in files && IsImage(f)
  {
    Filter(files, IsImage)
  }

  /** Some file is dropped iff some chosen file is not an image. */
  lemma DroppedIffNotImage(files: seq<File>)
    ensures |ValidImages(files)| != |files| <==> exists i :: 0 <= i < |files| && !IsImage(files[i])
  {
    if exists i :: 0 <= i < |files| && !IsImage(files[i]) {
      FilterShorter(files, IsImage);
    } else {
      FilterAll(files, IsImage);
    }
  }

  /** One entry of the multipart request. */
  datatype FormField = TxtField(file: File) | AccountField(id: string) | ImageField(image: File)

  function AccountIdField(id: int): FormField {
    AccountField(IntToString(id))
  }

  function ImageFileField(f: File): FormField {
    ImageField(f)
  }

  /** The request: the TXT file, then one `account_ids[]` entry per selected
      account, then one `images` entry per image, each in selection order. */
  function Form(txt: File, selected: seq<int>, images: seq<File>): seq<FormField> {
    [TxtField(txt)] + Map(selected, AccountIdField) + Map(images, ImageFileField)
  }

  /** What the server reads as `getlist('account_ids[]')`. */
  function AccountIdValues(fields: seq<FormField>): seq<string> {
    if fields == [] then []
    else (if fields[0].AccountField? then [fields[0].id] else []) + AccountIdValues(fields[1..])
  }

  /** What the server reads as `getlist('images')`. */
  function ImageValues(fields: seq<FormField>): seq<File> {
    if fields == [] then []
    else (if fields[0].ImageField? then [fields[0].image] else []) + ImageValues(fields[1..])
  }

  lemma {:induction false} ValuesAppend(a: seq<FormField>, b: seq<FormField>)
    ensures AccountIdValues(a + b) == AccountIdValues(a) + AccountIdValues(b)
    ensures ImageValues(a + b) == ImageValues(a) + ImageValues(b)
  {
    if a != [] {
      assert (a + b)[1..] == a[1..] + b;
      ValuesAppend(a[1..], b);
    } else {
      assert a + b == b;
    }
  }

  lemma {:induction false} AccountFieldsRead(selected: seq<int>)
    ensures AccountIdValues(Map(selected, AccountIdField)) == Map(selected, IntToString)
    ensures ImageValues(Map(selected, AccountIdField)) == []
  {
    if selected != [] {
      assert Map(selected, AccountIdField)[1..] == Map(selected[1..], AccountIdField);
      assert Map(selected, IntToString)[1..] == Map(selected[1..], IntToString);
      AccountFieldsRead(selected[1..]);
    }
  }

  lemma {:induction false} ImageFieldsRead(images: seq<File>)
    ensures ImageValues(Map(images, ImageFileField)) == images
    ensures AccountIdValues(Map(images, ImageFileField)) == []
  {
    if images != [] {
      assert Map(images, ImageFileField)[1..] == Map(images[1..], ImageFileField);
      ImageFieldsRead(images[1..]);
    }
  }

  /** The server receives the selected account ids, as integers and in
      order, and the images in order. */
  lemma FormReadBack(txt: File, selected: seq<int>, images: seq<File>)
    ensures ProductUpload.ParseIds(AccountIdValues(Form(txt, selected, images))) == ProductUpload.Ids(selected)
    ensures ImageValues(Form(txt, selected, images)) == images
  {
    var head := [TxtField(txt)];
    var ids := Map(selected, AccountIdField);
    var imgs := Map(images, ImageFileField);
    assert Form(txt, selected, images) == (head + ids) + imgs;
    assert AccountIdValues(Form(txt, selected, images)) == Map(selected, IntToString) by {
      ValuesAppend(head, ids);
      ValuesAppend(head + ids, imgs);
      AccountFieldsRead(selected);
      ImageFieldsRead(images);
      assert AccountIdValues(head) == [];
    }
    assert ImageValues(Form(txt, selected, images)) == images by {
      ValuesAppend(head, ids);
      ValuesAppend(head + ids, imgs);
      AccountFieldsRead(selected);
      ImageFieldsRead(images);
      assert ImageValues(head) == [];
    }
    ProductUpload.ParseIdsOfWritten(selected);
  }

  /** How the request ended: a thrown error (a network failure, say) with
      its message, or a reply with its `ok` flag, `message` and `error`. */
  datatype Outcome = Thrown(message: string) | Replied(ok: bool, message: string, error: Option<string>)

  datatype UploadResult = UploadResult(success: bool, message: string)

  /** The message a failed upload shows. */
  function FailureMessage(outcome: Outcome): string
    requires !(outcome.Replied? && outcome.ok)
  {
    match outcome
    case Thrown(m) => Or(Some(m), DefaultErrorMessage)
    case Replied(_, _, error) => Or(Some(Or(error, UploadFailedMessage)), DefaultErrorMessage)
  }

  /** A reply that is not OK shows the server's error, or "Upload failed";
      a thrown error without a message falls back to the default. */
  lemma FailureMessages(outcome: Outcome)
    requires !(outcome.Replied? && outcome.ok)
    ensures outcome.Replied? ==> FailureMessage(outcome) == Or(outcome.error, UploadFailedMessage)
    ensures outcome == Thrown("") ==> FailureMessage(outcome) == DefaultErrorMessage
  {
  }

  /** The dialog's state. */
  class Dialog {
    var accounts: seq<int>
    var selected: seq<int>
    var txtFile: Option<File>
    var imageFiles: seq<File>
    var result: Option<UploadResult>

    constructor(accounts: seq<int>)
      ensures this.accounts == accounts && selected == [] && txtFile == None && imageFiles == [] && result == None
    {
      this.accounts := accounts;
      selected := [];
      txtFile := None;
      imageFiles := [];
      result := None;
    }

    /** `handleFileChange`: a file whose name does not end in ".txt" is
        refused and the earlier choice is kept. */
    method FileChange(file: Option<File>) returns (notice: Notice)
      modifies this
      ensures file.None? ==> unchanged(this) && notice == Quiet
      ensures file.Some? && !IsTxt(file.value) ==> unchanged(this) && notice == ErrorNotice(TxtRequiredMessage)
      ensures file.Some? && IsTxt(file.value) ==>
        txtFile == file && result == None && notice == Quiet &&
        accounts == old(accounts) && selected == old(selected) && imageFiles == old(imageFiles)
    {
      notice := Quiet;
      if file.Some? {
        if !EndsWith(file.value.name, ".txt") {
          return ErrorNotice(TxtRequiredMessage);
        }
        txtFile := file;
        result := None;
      }
    }

    /** `handleImageFilesChange`: keeps the image files of the selection and
        warns when it dropped some. */
    method ImageFilesChange(files: Option<seq<File>>) returns (notice: Notice)
      modifies this
      ensures files.None? ==> unchanged(this) && notice == Quiet
      ensures files.Some? ==>
        imageFiles == ValidImages(files.value) && result == None &&
        (notice == ErrorNotice(NotImagesMessage) <==> exists i :: 0 <= i < |files.value| && !IsImage(files.value[i])) &&
        (notice == Quiet || notice == ErrorNotice(NotImagesMessage)) &&
        accounts == old(accounts) && selected == old(selected) && txtFile == old(txtFile)
    {
      notice := Quiet;
      if files.Some? {
        var valid := ValidImages(files.value);
        DroppedIffNotImage(files.value);
        if |valid| != |files.value| {
          notice := ErrorNotice(NotImagesMessage);
        }
        imageFiles := valid;
        result := None;
      }
    }

    /** `handleAccountToggle`. */
    method AccountToggle(id: int)
      modifies this
      ensures selected == Toggle(old(selected), id)
      ensures accounts == old(accounts) && txtFile == old(txtFile) && imageFiles == old(imageFiles) && result == old(result)
    {
      if id in selected {
        selected := Without(selected, id);
      } else {
        selected := selected + [id];
      }
    }

    /** `handleSelectAllAccounts`. */
    method SelectAllAccounts()
      modifies this
      ensures selected == SelectAllOrNone(old(selected), old(accounts))
      ensures accounts == old(accounts) && txtFile == old(txtFile) && imageFiles == old(imageFiles) && result == old(result)
    {
      if |selected| == |accounts| {
        selected := [];
      } else {
        selected := accounts;
      }
    }

    /** `handleSubmit`: returns the request sent, if any. */
    method Submit(outcome: Outcome) returns (sent: Option<seq<FormField>>, notice: Notice)
      modifies this
      ensures old(txtFile).None? ==> sent == None && notice == ErrorNotice(TxtRequiredMessage) && unchanged(this)
      ensures old(txtFile).Some? && old(selected) == [] ==>
        sent == None && notice == ErrorNotice(NoAccountMessage) && unchanged(this)
      ensures old(txtFile).Some? && old(selected) != [] ==>
        sent == Some(Form(old(txtFile).value, old(selected), old(imageFiles)))
      ensures old(txtFile).Some? && old(selected) != [] && outcome.Replied? && outcome.ok ==>
        result == Some(UploadResult(true, outcome.message)) && notice == SuccessNotice(outcome.message) &&
        txtFile == None && imageFiles == [] && selected == []
      ensures old(txtFile).Some? && old(selected) != [] && !(outcome.Replied? && outcome.ok) ==>
        result == Some(UploadResult(false, FailureMessage(outcome))) && notice == ErrorNotice(FailureMessage(outcome)) &&
        txtFile == old(txtFile) && imageFiles == old(imageFiles) && selected == old(selected)
      ensures accounts == old(accounts)
    {
      if txtFile.None? {
        return None, ErrorNotice(TxtRequiredMessage);
      }
      if |selected| == 0 {
        return None, ErrorNotice(NoAccountMessage);
      }
      result := None;
      var form := [TxtField(txtFile.value)];
      for n := 0 to |selected|
        invariant form == [TxtField(txtFile.value)] + Map(selected[..n], AccountIdField)
      {
        assert Map(selected[..n + 1], AccountIdField) == Map(selected[..n], AccountIdField) + [AccountIdField(selected[n])];
        form := form + [AccountField(IntToString(selected[n]))];
      }
      assert selected[..|selected|] == selected;
      var withAccounts := form;
      for n := 0 to |imageFiles|
        invariant form == withAccounts + Map(imageFiles[..n], ImageFileField)
      {
        assert Map(imageFiles[..n + 1], ImageFileField) == Map(imageFiles[..n], ImageFileField) + [ImageFileField(imageFiles[n])];
        form := form + [ImageField(imageFiles[n])];
      }
      assert imageFiles[..|imageFiles|] == imageFiles;
      sent := Some(form);
      match outcome
      case Replied(true, message, _) =>
        result := Some(UploadResult(true, message));
        notice := SuccessNotice(message);
        txtFile := None;
        imageFiles := [];
        selected := [];
      case _ =>
        var errorMessage := FailureMessage(outcome);
        result := Some(UploadResult(false, errorMessage));
        notice := ErrorNotice(errorMessage);
    }

    /** `handleClose`: the images chosen stay. */
    method Close()
      modifies this
      ensures txtFile == None && selected == [] && result == None
      ensures accounts == old(accounts) && imageFiles == old(imageFiles)
    {
      txtFile := None;
      selected := [];
      result := None;
    }
  }
}
