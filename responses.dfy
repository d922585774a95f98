/**
 * The JSON values the two forms handle and the text a failed response is
 * turned into: form values with JavaScript truthiness and string
 * conversion, and the `detail` member of an error body.
 */
module Responses {
  import opened Wrappers
  import opened Text

  /** A form value: a string from an input, a number from the fetched
    * employee (identifiers are integral), or JSON `null`. */
  datatype JsValue = JsStr(s: string) | JsNum(n: int) | JsNull

  /** JavaScript truthiness; an absent key reads as `undefined`, which is falsy. */
  predicate Truthy(v: Option<JsValue>) {
    match v
    case None => false
    case Some(JsStr(s)) => s != ""
    case Some(JsNum(n)) => n != 0
    case Some(JsNull) => false
  }

  /** The value under `key`, `None` for `undefined`. */
  function Get(m: map<string, JsValue>, key: string): Option<JsValue> {
    if key in m then Some(m[key]) else None
  }

  /** `${v}` of a template literal. */
  function TemplateText(v: Option<JsValue>): string {
    match v
    case None => "undefined"
    case Some(JsStr(s)) => s
    case Some(JsNum(n)) => IntToString(n)
    case Some(JsNull) => "null"
  }

  /** One item of a validation error's `loc` path. */
  datatype LocItem = LocText(s: string) | LocNumber(n: int)

  /** One entry of a 422 `detail` array: its `loc` path (absent when the
    * entry has none) and its `msg`. */
  datatype DetailEntry = DetailEntry(loc: Option<seq<LocItem>>, msg: string)

  /** The `detail` member of an error body. */
  datatype Detail = NoDetail | DetailText(text: string) | DetailList(entries: seq<DetailEntry>)

  /** The outcome of a request: `fetch` or `res.json()` threw with a
    * message, or a response arrived with its `ok` flag, status and the
    * `detail` of its body (only read when `ok` is false). */
  datatype Outcome = Thrown(message: string) | Responded(ok: bool, status: int, detail: Detail)

  /** `String(list)` of an array of `n` plain objects. */
  function ObjectListText(n: nat): string {
    if n == 0 then ""
    else if n == 1 then "[object Object]"
    else ObjectListText(n - 1) + ",[object Object]"
  }

  /** The array text is empty only for the empty array, and otherwise holds
    * one 15-character rendering per element and a comma between neighbours. */
  lemma {:induction false} ObjectListTextLength(n: nat)
    ensures |ObjectListText(n)| == if n == 0 then 0 else 16 * n - 1
  {
    if n > 1 {
      ObjectListTextLength(n - 1);
    }
  }

  /** `new Error(detail || fallback).message`. */
  function ErrorText(detail: Detail, fallback: string): (r: string)
    ensures detail.DetailList? ==> |r| == if detail.entries == [] then 0 else 16 * |detail.entries| - 1
  {
    match detail
    case NoDetail => fallback
    case DetailText(t) => if t != "" then t else fallback
    case DetailList(es) => ObjectListTextLength(|es|); ObjectListText(|es|)
  }

  /** The message is the server's text when that text is non-empty, the
    * fallback when there is no detail or an empty one, and is empty only for an
    * empty detail array or an empty fallback. */
  lemma ErrorTextCases(detail: Detail, fallback: string)
    ensures detail.DetailText? && detail.text != "" ==> ErrorText(detail, fallback) == detail.text
    ensures detail.NoDetail? || detail == DetailText("") ==> ErrorText(detail, fallback) == fallback
    ensures ErrorText(detail, fallback) == "" <==>
      detail == DetailList([]) || (fallback == "" && (detail.NoDetail? || detail == DetailText("")))
  {
  }

  /** `err.loc?.[1]` when truthy, as the object key it becomes. */
  function FieldKey(e: DetailEntry): (k: Option<string>)
    ensures k.Some? ==> k.value != ""
  {
    match e.loc
    case None => None
    case Some(items) =>
      if |items| < 2 then None
      else match items[1]
        case LocText(s) => if s != "" then Some(s) else None
        case LocNumber(n) => if n != 0 then Some(IntToString(n)) else None
  }
}
