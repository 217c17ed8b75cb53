/** The CSV bulk-upload page: a CSV file of posts and the accounts to post
    with. The request itself goes through the API client; its outcome is a
    parameter of `Submit`. */
module CsvUploadPage {

  import opened Common
  import opened Text
  import opened Selection

  const CsvRequiredMessage: string := "Please select a CSV file"
  const NoAccountMessage: string := "Please select at least one account"
  const DefaultErrorMessage: string := "Failed to upload CSV. Please try again."

  predicate IsCsv(f: File) {
    EndsWith(f.name, ".csv")
  }

  /** The checks `handleSubmit` makes before sending: the error it raises,
      if any. */
  function SubmitCheck(csvFile: Option<File>, selected: seq<int>): (error: Option<string>)
    ensures error.None? <==> csvFile.Some? && selected != []
    ensures csvFile.None? ==> error == Some(CsvRequiredMessage)
    ensures csvFile.Some? && selected == [] ==> error == Some(NoAccountMessage)
  {
    if csvFile.None? then Some(CsvRequiredMessage)
    else if |selected| == 0 then Some(NoAccountMessage)
    else None
  }

  /** The submit button's `disabled` condition. */
  predicate SubmitDisabled(loading: bool, csvFile: Option<File>, selected: seq<int>) {
    loading || csvFile.None? || |selected| == 0
  }

  /** When not loading, the button is enabled exactly when the submit checks
      pass, so an enabled button always sends. */
  lemma ButtonMatchesChecks(loading: bool, csvFile: Option<File>, selected: seq<int>)
    ensures !SubmitDisabled(loading, csvFile, selected) ==> SubmitCheck(csvFile, selected).None?
    ensures !loading ==> (SubmitDisabled(loading, csvFile, selected) <==> SubmitCheck(csvFile, selected).Some?)
  {
  }

  /** How the request ended: the server's reply body, or an error carrying
      the reply's `error` field when there was one. */
  datatype Outcome = Answered(success: bool, message: string) | Failed(error: Option<string>)

  datatype UploadResult = UploadResult(success: bool, message: string)

  function FailureMessage(error: Option<string>): (m: string)
    ensures error.Some? && error.value != "" ==> m == error.value
    ensures error.None? || error.value == "" ==> m == DefaultErrorMessage
  {
    if error.Some? && error.value != "" then error.value else DefaultErrorMessage
  }

  /** The page state. */
  class Page {
    var accounts: seq<int>
    var selected: seq<int>
    var csvFile: Option<File>
    var result: Option<UploadResult>

    constructor(accounts: seq<int>)
      ensures this.accounts == accounts && selected == [] && csvFile == None && result == None
    {
      this.accounts := accounts;
      selected := [];
      csvFile := None;
      result := None;
    }

    /** `handleFileChange`: a name not ending in ".csv" is refused and the
        earlier choice kept. */
    method FileChange(file: Option<File>) returns (notice: Notice)
      modifies this
      ensures file.None? ==> unchanged(this) && notice == Quiet
      ensures file.Some? && !IsCsv(file.value) ==> unchanged(this) && notice == ErrorNotice(CsvRequiredMessage)
      ensures file.Some? && IsCsv(file.value) ==>
        csvFile == file && result == None && notice == Quiet &&
        accounts == old(accounts) && selected == old(selected)
    {
      notice := Quiet;
      if file.Some? {
        if !EndsWith(file.value.name, ".csv") {
          return ErrorNotice(CsvRequiredMessage);
        }
        csvFile := file;
        result := None;
      }
    }

    /** `handleAccountToggle`. */
    method AccountToggle(id: int)
      modifies this
      ensures selected == Toggle(old(selected), id)
      ensures accounts == old(accounts) && csvFile == old(csvFile) && result == old(result)
    {
      if id in selected {
        selected := Without(selected, id);
      } else {
        selected := selected + [id];
      }
    }

    /** `handleSelectAllAccounts`. */
    method SelectAllAccounts()
      modifies this
      ensures selected == SelectAllOrNone(old(selected), old(accounts))
      ensures accounts == old(accounts) && csvFile == old(csvFile) && result == old(result)
    {
      if |selected| == |accounts| {
        selected := [];
      } else {
        selected := accounts;
      }
    }

    /** `handleSubmit`: returns the file and ids sent, if anything was sent. */
    method Submit(outcome: Outcome) returns (sent: Option<(File, seq<int>)>, notice: Notice)
      modifies this
      ensures SubmitCheck(old(csvFile), old(selected)).Some? ==>
        sent == None && notice == ErrorNotice(SubmitCheck(old(csvFile), old(selected)).value) && unchanged(this)
      ensures SubmitCheck(old(csvFile), old(selected)).None? ==> sent == Some((old(csvFile).value, old(selected)))
      ensures SubmitCheck(old(csvFile), old(selected)).None? && outcome.Answered? ==>
        result == Some(UploadResult(outcome.success, outcome.message)) &&
        (outcome.success ==> csvFile == None && notice == SuccessNotice(outcome.message)) &&
        (!outcome.success ==> csvFile == old(csvFile) && notice == Quiet)
      ensures SubmitCheck(old(csvFile), old(selected)).None? && outcome.Failed? ==>
        result == Some(UploadResult(false, FailureMessage(outcome.error))) &&
        notice == ErrorNotice(FailureMessage(outcome.error)) && csvFile == old(csvFile)
      ensures accounts == old(accounts) && selected == old(selected)
    {
      if csvFile.None? {
        return None, ErrorNotice(CsvRequiredMessage);
      }
      if |selected| == 0 {
        return None, ErrorNotice(NoAccountMessage);
      }
      result := None;
      sent := Some((csvFile.value, selected));
      match outcome
      case Answered(success, message) =>
        result := Some(UploadResult(success, message));
        notice := Quiet;
        if success {
          notice := SuccessNotice(message);
          csvFile := None;
        }
      case Failed(error) =>
        var errorMessage := FailureMessage(error);
        notice := ErrorNotice(errorMessage);
        result := Some(UploadResult(false, errorMessage));
    }
  }
}
