/**
 * The create/edit employee form: the initial form, field edits, the
 * required-field check, the numeric conversion of the identifier fields, the
 * choice of request, and the mapping of a 422 response onto field messages.
 */
module EmployeeForm {
  import opened Wrappers
  import opened Text
  import opened Responses
  import EmployeesData

  type Form = map<string, JsValue>

  /** The empty-string defaults the form starts from. */
  const Defaults: Form := map[
    "first_name" := JsStr(""), "surname" := JsStr(""), "contact_number" := JsStr(""),
    "department_id" := JsStr(""), "rank_id" := JsStr(""), "division_id" := JsStr(""),
    "position_id" := JsStr(""), "salary_band_id" := JsStr(""), "start_date" := JsStr("")]

  /** `{ ...defaults, ...initialData }`. */
  function InitialForm(initialData: Form): Form {
    Defaults + initialData
  }

  /** A key of `initialData` takes its value from there; every other default
    * key holds the empty string; no other key is present. */
  lemma InitialFormSpec(initialData: Form, k: string)
    ensures k in initialData ==> k in InitialForm(initialData) && InitialForm(initialData)[k] == initialData[k]
    ensures k !in initialData && k in Defaults ==> k in InitialForm(initialData) && InitialForm(initialData)[k] == JsStr("")
    ensures k in InitialForm(initialData) <==> k in initialData || k in Defaults
  {
  }

  /** One entry of `requiredFields`. */
  datatype RequiredField = RequiredField(key: string, caption: string)

  const RequiredFields: seq<RequiredField> := [
    RequiredField("first_name", "first name"),
    RequiredField("surname", "surname"),
    RequiredField("rank_id", "rank"),
    RequiredField("department_id", "department"),
    RequiredField("division_id", "division"),
    RequiredField("position_id", "position"),
    RequiredField("salary_band_id", "salary band"),
    RequiredField("contact_number", "contact number"),
    RequiredField("start_date", "start date")]

  function MissingMessage(caption: string): string {
    "Please select a " + caption + "."
  }

  predicate DistinctKeys(fields: seq<RequiredField>) {
    forall i, j :: 0 <= i < j < |fields| ==> fields[i].key != fields[j].key
  }

  lemma RequiredKeysDistinct()
    ensures DistinctKeys(RequiredFields)
  {
  }

  /** The `localErrors` dictionary after the `forEach` over `fields`. */
  function RequiredErrors(form: Form, fields: seq<RequiredField>): map<string, string> {
    if fields == [] then map[]
    else
      var m := RequiredErrors(form, fields[..|fields| - 1]);
      var f := fields[|fields| - 1];
      if !Truthy(Get(form, f.key)) then m[f.key := MissingMessage(f.caption)] else m
  }

  /** With distinct keys, a field has an entry iff its value is falsy, and that
    * entry is its own message. */
  lemma {:induction false} RequiredErrorsAt(form: Form, fields: seq<RequiredField>, i: int)
    requires DistinctKeys(fields) && 0 <= i < |fields|
    ensures fields[i].key in RequiredErrors(form, fields) <==> !Truthy(Get(form, fields[i].key))
    ensures fields[i].key in RequiredErrors(form, fields) ==>
      RequiredErrors(form, fields)[fields[i].key] == MissingMessage(fields[i].caption)
  {
    var init := fields[..|fields| - 1];
    if i < |fields| - 1 {
      assert init[i] == fields[i];
      RequiredErrorsAt(form, init, i);
    } else {
      RequiredErrorsOnly(form, init, fields[i].key);
    }
  }

  /** Every entry belongs to a listed field whose value is falsy. */
  lemma {:induction false} RequiredErrorsOnly(form: Form, fields: seq<RequiredField>, k: string)
    ensures k in RequiredErrors(form, fields) ==>
      exists i | 0 <= i < |fields| :: fields[i].key == k && !Truthy(Get(form, k))
  {
    if fields != [] {
      var init := fields[..|fields| - 1];
      RequiredErrorsOnly(form, init, k);
      if k in RequiredErrors(form, init) {
        var i :| 0 <= i < |init| && init[i].key == k && !Truthy(Get(form, k));
        assert fields[i] == init[i];
      }
    }
  }

  /** The required-field loop of `handleSubmit`: builds `localErrors`. */
  method MissingFieldErrors(form: Form) returns (errs: map<string, string>)
    ensures errs == RequiredErrors(form, RequiredFields)
  {
    errs := map[];
    var i := 0;
    while i < |RequiredFields|
      invariant 0 <= i <= |RequiredFields|
      invariant errs == RequiredErrors(form, RequiredFields[..i])
    {
      var f := RequiredFields[i];
      assert RequiredFields[..i + 1][..i] == RequiredFields[..i];
      if !Truthy(Get(form, f.key)) {
        errs := errs[f.key := MissingMessage(f.caption)];
      }
      i := i + 1;
    }
    assert RequiredFields[..i] == RequiredFields;
  }

  /** Of the nine required fields, exactly those with a falsy value are
    * reported, each with its own message, and nothing else is reported. */
  lemma MissingFieldsSpec(form: Form, i: int, k: string)
    requires 0 <= i < |RequiredFields|
    ensures RequiredFields[i].key in RequiredErrors(form, RequiredFields) <==> !Truthy(Get(form, RequiredFields[i].key))
    ensures RequiredFields[i].key in RequiredErrors(form, RequiredFields) ==>
      RequiredErrors(form, RequiredFields)[RequiredFields[i].key] == MissingMessage(RequiredFields[i].caption)
    ensures k in RequiredErrors(form, RequiredFields) ==> exists j | 0 <= j < |RequiredFields| :: RequiredFields[j].key == k
  {
    RequiredKeysDistinct();
    RequiredErrorsAt(form, RequiredFields, i);
    RequiredErrorsOnly(form, RequiredFields, k);
  }

  /** An untouched create form reports every one of the nine fields. */
  lemma BlankFormMissesEverything(i: int)
    requires 0 <= i < |RequiredFields|
    ensures RequiredFields[i].key in RequiredErrors(InitialForm(map[]), RequiredFields)
  {
    RequiredKeysDistinct();
    assert InitialForm(map[]) == Defaults;
    assert RequiredFields[i].key in Defaults;
    RequiredErrorsAt(InitialForm(map[]), RequiredFields, i);
  }

  /** `Number(v)` as it ends up in the JSON body: a decimal digit string or a
    * number gives that number, the empty string and `null` give 0, and any
    * other text or a missing key is `NaN`, which serialises as `null`. */
  function ToNumber(v: Option<JsValue>): JsValue {
    match v
    case None => JsNull
    case Some(JsNum(n)) => JsNum(n)
    case Some(JsNull) => JsNum(0)
    case Some(JsStr(s)) => if AllDigits(s) then JsNum(ParseDigits(s)) else JsNull
  }

  /** The value of a select, the decimal text of a catalog id, converts back
    * to that id. */
  lemma ToNumberOfDecimal(n: nat)
    ensures ToNumber(Some(JsStr(NatToString(n)))) == JsNum(n)
  {
    ParseNatToString(n);
  }

  const NumericKeys: seq<string> := ["department_id", "rank_id", "position_id", "division_id", "salary_band_id"]

  /** `parsedForm`: the form with its five identifier fields converted. */
  function ParsedForm(form: Form): Form {
    form["department_id" := ToNumber(Get(form, "department_id"))]
        ["rank_id" := ToNumber(Get(form, "rank_id"))]
        ["position_id" := ToNumber(Get(form, "position_id"))]
        ["division_id" := ToNumber(Get(form, "division_id"))]
        ["salary_band_id" := ToNumber(Get(form, "salary_band_id"))]
  }

  /** The five identifier fields are converted and every other field is sent
    * unchanged; no field is dropped. */
  lemma ParsedFormSpec(form: Form, k: string)
    ensures k in ParsedForm(form) <==> k in form || k in NumericKeys
    ensures k in NumericKeys ==> ParsedForm(form)[k] == ToNumber(Get(form, k))
    ensures k in form && k !in NumericKeys ==> ParsedForm(form)[k] == form[k]
  {
  }

  datatype Request = Request(verb: string, path: string, body: Form)

  /** The request `handleSubmit` sends; the path is relative to the API base URL. */
  function BuildRequest(isEdit: bool, form: Form): (r: Request)
    ensures r.body == ParsedForm(form)
    ensures isEdit ==> r.verb == "PUT" && r.path == "/employees/" + TemplateText(Get(form, "id"))
    ensures !isEdit ==> r.verb == "POST" && r.path == "/employees"
  {
    if isEdit then Request("PUT", "/employees/" + TemplateText(Get(form, "id")), ParsedForm(form))
    else Request("POST", "/employees", ParsedForm(form))
  }

  /** Editing a stored employee addresses that employee: different ids give
    * different paths. */
  lemma EditPathsDistinct(a: Form, b: Form, i: int, j: int)
    requires Get(a, "id") == Some(JsNum(i)) && Get(b, "id") == Some(JsNum(j)) && i != j
    ensures BuildRequest(true, a).path != BuildRequest(true, b).path
  {
    var p, q := "/employees/", IntToString(i);
    if BuildRequest(true, a).path == BuildRequest(true, b).path {
      assert (p + q)[|p|..] == q;
      assert (p + IntToString(j))[|p|..] == IntToString(j);
      IntToStringInjective(i, j);
      assert false;
    }
  }

  /** The `fieldErrors` dictionary after the `forEach` over `entries`. */
  function FieldErrorsOf(entries: seq<DetailEntry>): map<string, string> {
    if entries == [] then map[]
    else
      var m := FieldErrorsOf(entries[..|entries| - 1]);
      var e := entries[|entries| - 1];
      match FieldKey(e)
      case None => m
      case Some(k) => m[k := e.msg]
  }

  /** A field has a message iff some entry names it. */
  lemma {:induction false} FieldErrorsKeys(entries: seq<DetailEntry>, k: string)
    ensures k in FieldErrorsOf(entries) <==> exists i | 0 <= i < |entries| :: FieldKey(entries[i]) == Some(k)
  {
    if entries != [] {
      var init := entries[..|entries| - 1];
      FieldErrorsKeys(init, k);
      if exists i | 0 <= i < |init| :: FieldKey(init[i]) == Some(k) {
        var i :| 0 <= i < |init| && FieldKey(init[i]) == Some(k);
        assert entries[i] == init[i];
      }
      if exists i | 0 <= i < |entries| :: FieldKey(entries[i]) == Some(k) {
        var i :| 0 <= i < |entries| && FieldKey(entries[i]) == Some(k);
        if i < |init| {
          assert init[i] == entries[i];
        }
      }
    }
  }

  /** The message of a field is that of the last entry naming it. */
  lemma {:induction false} FieldErrorsLastWins(entries: seq<DetailEntry>, i: int)
    requires 0 <= i < |entries| && FieldKey(entries[i]).Some?
    requires forall j :: i < j < |entries| ==> FieldKey(entries[j]) != FieldKey(entries[i])
    ensures FieldKey(entries[i]).value in FieldErrorsOf(entries)
    ensures FieldErrorsOf(entries)[FieldKey(entries[i]).value] == entries[i].msg
  {
    var init := entries[..|entries| - 1];
    if i < |entries| - 1 {
      assert init[i] == entries[i];
      forall j | i < j < |init| ensures FieldKey(init[j]) != FieldKey(init[i]) {
        assert init[j] == entries[j];
      }
      FieldErrorsLastWins(init, i);
    }
  }

  /** The 422 loop of `handleSubmit`: builds `fieldErrors`. */
  method FieldErrorsFrom(entries: seq<DetailEntry>) returns (m: map<string, string>)
    ensures m == FieldErrorsOf(entries)
    ensures forall k :: k in m ==> k != ""
  {
    m := map[];
    var i := 0;
    while i < |entries|
      invariant 0 <= i <= |entries|
      invariant m == FieldErrorsOf(entries[..i])
      invariant forall k :: k in m ==> k != ""
    {
      assert entries[..i + 1][..i] == entries[..i];
      var field := FieldKey(entries[i]);
      if field.Some? {
        m := m[field.value := entries[i].msg];
      }
      i := i + 1;
    }
    assert entries[..i] == entries;
  }

  /** The form component's state. */
  class EmployeeFormPage {
    const isEdit: bool
    var form: Form
    var options: EmployeesData.Meta
    var errors: map<string, string>
    var loading: bool
    var optionLoading: bool
    var generalError: string

    constructor (initialData: Form, isEdit: bool)
      ensures this.isEdit == isEdit && form == InitialForm(initialData)
      ensures options == EmployeesData.EmptyMeta && errors == map[]
      ensures !loading && optionLoading && generalError == ""
    {
      this.isEdit := isEdit;
      form := InitialForm(initialData);
      options := EmployeesData.EmptyMeta;
      errors := map[];
      loading := false;
      optionLoading := true;
      generalError := "";
    }

    /** `fetchOptions`: `fetched` is the five catalog lists, `None` when a
      * request or its JSON failed. */
    method FetchOptions(fetched: Option<EmployeesData.Meta>)
      modifies this
      ensures fetched.Some? ==> options == fetched.value
      ensures fetched.None? ==> options == old(options)
      ensures !optionLoading
      ensures form == old(form) && errors == old(errors) && loading == old(loading)
      ensures generalError == old(generalError)
    {
      if fetched.Some? {
        options := fetched.value;
      }
      optionLoading := false;
    }

    /** `handleChange`: sets the named field and clears its error. */
    method HandleChange(name: string, value: string)
      modifies this
      ensures form == old(form)[name := JsStr(value)]
      ensures errors == old(errors) - {name}
      ensures options == old(options) && loading == old(loading)
      ensures optionLoading == old(optionLoading) && generalError == old(generalError)
    {
      form := form[name := JsStr(value)];
      errors := errors - {name};
    }

    /** `handleSubmit`. Returns the request sent, if any, and whether the page
      * navigated to the dashboard. */
    method HandleSubmit(outcome: Outcome) returns (request: Option<Request>, navigateHome: bool)
      modifies this
      ensures form == old(form) && options == old(options) && optionLoading == old(optionLoading)
      ensures !loading
      ensures RequiredErrors(old(form), RequiredFields) != map[] ==>
        && request == None && !navigateHome
        && errors == RequiredErrors(old(form), RequiredFields) && generalError == ""
      ensures RequiredErrors(old(form), RequiredFields) == map[] ==>
        request == Some(BuildRequest(isEdit, old(form)))
      ensures RequiredErrors(old(form), RequiredFields) == map[] && outcome.Thrown? ==>
        && !navigateHome && errors == map[] && generalError == outcome.message
      ensures RequiredErrors(old(form), RequiredFields) == map[] && outcome.Responded? && outcome.ok ==>
        && navigateHome && errors == map[] && generalError == ""
      ensures RequiredErrors(old(form), RequiredFields) == map[] && outcome.Responded? && !outcome.ok ==>
        && !navigateHome
        && (outcome.status == 422 && outcome.detail.DetailList? ==>
              errors == FieldErrorsOf(outcome.detail.entries) && generalError == "")
        && (!(outcome.status == 422 && outcome.detail.DetailList?) ==>
              errors == map[] && generalError == ErrorText(outcome.detail, "Unknown error"))
    {
      loading := true;
      errors := map[];
      generalError := "";
      request, navigateHome := None, false;

      var localErrors := MissingFieldErrors(form);
      if localErrors != map[] {
        errors := localErrors;
        loading := false;
        return;
      }

      request := Some(BuildRequest(isEdit, form));
      match outcome {
        case Thrown(message) =>
          generalError := message;
        case Responded(ok, status, detail) =>
          if !ok {
            if status == 422 && detail.DetailList? {
              var fieldErrors := FieldErrorsFrom(detail.entries);
              errors := fieldErrors;
            } else {
              generalError := ErrorText(detail, "Unknown error");
            }
          } else {
            navigateHome := true;
          }
      }
      loading := false;
    }
  }
}
