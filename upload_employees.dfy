/**
 * The CSV upload page: the division options, the file picker's type gate,
 * and the submit handler's two validation gates and its outcome.
 */
module UploadEmployees {
  import opened Wrappers
  import opened Responses

  /** A picked file: its name and its browser-reported media type. */
  datatype File = File(name: string, mediaType: string)

  /** The multipart body: the file and the chosen division. */
  datatype UploadRequest = UploadRequest(file: File, divisionId: string)

  const LoadFailed := "Could not load division options."
  const NotCsv := "Please upload a valid CSV file"
  const NoFile := "Please select a CSV file"
  const NoDivision := "Please select a division"

  /** `err.message || 'Something went wrong'` for a request that threw or
    * came back not ok (`throw new Error(data.detail || 'Upload failed')`). */
  function FailureText(outcome: Outcome): string {
    var message := match outcome
      case Thrown(m) => m
      case Responded(_, _, detail) => ErrorText(detail, "Upload failed");
    if message != "" then message else "Something went wrong"
  }

  /** A failed upload always explains itself: the server's text when it sent
    * a non-empty one, 'Upload failed' when it sent none, and the generic
    * message exactly when the thrown message would have been empty. */
  lemma FailureTextCases(outcome: Outcome)
    ensures FailureText(outcome) != ""
    ensures outcome.Responded? && outcome.detail.DetailText? && outcome.detail.text != "" ==>
      FailureText(outcome) == outcome.detail.text
    ensures outcome.Responded? && (outcome.detail.NoDetail? || outcome.detail == DetailText("")) ==>
      FailureText(outcome) == "Upload failed"
    ensures FailureText(outcome) == "Something went wrong" <==>
      (outcome.Thrown? && (outcome.message == "" || outcome.message == "Something went wrong"))
      || (outcome.Responded? && (outcome.detail == DetailList([]) || outcome.detail == DetailText("Something went wrong")))
  {
    if outcome.Responded? {
      ErrorTextCases(outcome.detail, "Upload failed");
      if outcome.detail.DetailList? && outcome.detail.entries != [] {
        assert |ErrorText(outcome.detail, "Upload failed")| >= 15;
      }
    }
  }

  class UploadPage {
    var file: Option<File>
    var divisionId: string
    var divisions: seq<int>
    var error: string
    var loading: bool

    constructor ()
      ensures file == None && divisionId == "" && divisions == [] && error == "" && !loading
    {
      file := None;
      divisionId := "";
      divisions := [];
      error := "";
      loading := false;
    }

    /** The divisions effect: `fetched` is the list, `None` when the request
      * or its JSON failed. */
    method LoadDivisions(fetched: Option<seq<int>>)
      modifies this
      ensures fetched.Some? ==> divisions == fetched.value && error == old(error)
      ensures fetched.None? ==> divisions == old(divisions) && error == LoadFailed
      ensures file == old(file) && divisionId == old(divisionId) && loading == old(loading)
    {
      match fetched {
        case Some(ds) => divisions := ds;
        case None => error := LoadFailed;
      }
    }

    /** The division select changed. */
    method SelectDivision(value: string)
      modifies this
      ensures divisionId == value
      ensures file == old(file) && divisions == old(divisions) && error == old(error) && loading == old(loading)
    {
      divisionId := value;
    }

    /** `handleFileChange`: `picked` is the first selected file, if any. */
    method HandleFileChange(picked: Option<File>)
      modifies this
      ensures picked.Some? && picked.value.mediaType != "text/csv" ==> error == NotCsv && file == None
      ensures !(picked.Some? && picked.value.mediaType != "text/csv") ==> error == "" && file == picked
      ensures divisionId == old(divisionId) && divisions == old(divisions) && loading == old(loading)
    {
      if picked.Some? && picked.value.mediaType != "text/csv" {
        error := NotCsv;
        file := None;
        return;
      }
      error := "";
      file := picked;
    }

    /** `handleSubmit`. `outcome` is what the POST produced; it is not
      * consulted when a gate stops the submit. Returns the request sent, if
      * any, and whether the page navigated to the dashboard. */
    method HandleSubmit(outcome: Outcome) returns (request: Option<UploadRequest>, navigateHome: bool)
      modifies this
      ensures file == old(file) && divisionId == old(divisionId) && divisions == old(divisions)
      ensures file.None? ==> request == None && !navigateHome && error == NoFile && loading == old(loading)
      ensures file.Some? && divisionId == "" ==>
        request == None && !navigateHome && error == NoDivision && loading == old(loading)
      ensures file.Some? && divisionId != "" ==>
        && request == Some(UploadRequest(file.value, divisionId)) && !loading
        && (outcome.Responded? && outcome.ok ==> navigateHome && error == "")
        && (!(outcome.Responded? && outcome.ok) ==> !navigateHome && error == FailureText(outcome))
    {
      request, navigateHome := None, false;
      error := "";
      if file.None? {
        error := NoFile;
        return;
      }
      if divisionId == "" {
        error := NoDivision;
        return;
      }
      request := Some(UploadRequest(file.value, divisionId));
      loading := true;
      if outcome.Responded? && outcome.ok {
        navigateHome := true;
      } else {
        error := FailureText(outcome);
      }
      loading := false;
    }
  }
}
