/** The two execution list pages: the colour each execution status is shown
    in, and the message a failed fetch of the list leaves on the page. The
    global page derives its message from the error response's body; the
    per-crew page shows one fixed message. */
module ExecutionsView {
  import opened Wrappers
  import opened Text
  import opened ODict
  import Execution

  // ---------------------------------------------------------------------
  // Status colours

  /** `getStatusColor`, written identically on both pages. */
  function StatusColor(status: string): string {
    if status == "completed" then "success"
    else if status == "failed" then "error"
    else if status == "in_progress" then "warning"
    else "default"
  }

  /** The three statuses an execution record takes get three different
      colours; every other status gets the neutral one. */
  lemma StatusColors(status: string)
    ensures StatusColor(status) == "default" <==>
      status != "completed" && status != "failed" && status != "in_progress"
    ensures StatusColor(status) == "success" <==> status == "completed"
    ensures StatusColor(status) == "error" <==> status == "failed"
    ensures StatusColor(status) == "warning" <==> status == "in_progress"
  {
  }

  /** A record that the execute endpoint created is shown green when it
      completed and red when it failed; a record still running is amber. */
  lemma RecordStatusColor(r: Execution.Response)
    requires !r.CrewNotFound?
    ensures StatusColor(Execution.StatusOf(r)) == if r.Completed? then "success" else "error"
    ensures StatusColor("in_progress") == "warning"
  {
  }

  // ---------------------------------------------------------------------
  // Response bodies as JavaScript sees them

  /** A parsed JSON body. Numbers are integers here. */
  datatype Json =
    | JNull
    | JBool(b: bool)
    | JNum(n: int)
    | JStr(s: string)
    | JArray(items: seq<Json>)
    | JObject(fields: seq<(string, Json)>)

  /** JavaScript truthiness. */
  predicate Truthy(j: Json) {
    match j
    case JNull => false
    case JBool(b) => b
    case JNum(n) => n != 0
    case JStr(s) => s != ""
    case JArray(_) => true
    case JObject(_) => true
  }

  /** `String(j)`, as a template literal or `toString()` renders a value. */
  function Rendered(j: Json): string
    decreases j, 1
  {
    match j
    case JNull => "null"
    case JBool(b) => if b then "true" else "false"
    case JNum(n) => IntText(n)
    case JStr(s) => s
    case JArray(items) => Joined(items, ",")
    case JObject(_) => "[object Object]"
  }

  /** `items.join(sep)`: `null` elements become empty. */
  function Joined(items: seq<Json>, sep: string): string
    decreases JArray(items), 0
  {
    Join(seq(|items|, i requires 0 <= i < |items| => if items[i].JNull? then "" else Rendered(items[i])), sep)
  }

  /** The value of a parsed object's property, if it has one. */
  function Field(fields: seq<(string, Json)>, name: string): Option<Json> {
    if fields == [] then None
    else if fields[0].0 == name then Some(fields[0].1)
    else Field(fields[1..], name)
  }

  /** `e.name` for a property name: `None` is `undefined`; reading a
      property of `null` throws, which is `Err`. */
  function Property(e: Json, name: string): Result<Option<Json>, string> {
    match e
    case JNull => Err("TypeError")
    case JObject(fields) => Ok(Field(fields, name))
    case _ => Ok(None)
  }

  // ---------------------------------------------------------------------
  // The global executions page

  const FetchFailedMessage: string := "Failed to fetch executions"

  /** The response carried by a failed request, when there was one. */
  datatype HttpResponse = HttpResponse(status: int, data: Option<Json>)

  /** What the failure handler does: show an empty list, show a message, or
      throw while composing the message. */
  datatype Handled = EmptyList | Message(text: string) | Threw

  /** One line for an item of a validation error list:
      `<loc joined by '.'>: <msg>`, with an empty location when `loc` is
      missing or falsy. A truthy `loc` that is not an array has no `join`,
      and `null` has no properties: both throw. */
  function ValidationLine(e: Json): Option<string> {
    match Property(e, "loc")
    case Err(_) => None
    case Ok(loc) =>
      match Location(loc)
      case None => None
      case Some(place) => Some(place + ": " + Template(Property(e, "msg").value))
  }

  /** `e.loc ? e.loc.join('.') : ''`, or `None` when it throws. */
  function Location(loc: Option<Json>): Option<string> {
    if loc.None? || !Truthy(loc.value) then Some("")
    else if loc.value.JArray? then Some(Joined(loc.value.items, "."))
    else None
  }

  /** A value inside a template literal: `undefined` is spelled out. */
  function Template(v: Option<Json>): string {
    if v.None? then "undefined" else Rendered(v.value)
  }

  /** `data.map(...)`: every line, or `None` once one item throws. */
  function ValidationLines(items: seq<Json>): (lines: Option<seq<string>>)
    ensures lines.Some? <==> forall i :: 0 <= i < |items| ==> ValidationLine(items[i]).Some?
    ensures lines.Some? ==> |lines.value| == |items|
    ensures lines.Some? ==> forall i :: 0 <= i < |items| ==> lines.value[i] == ValidationLine(items[i]).value
  {
    if items == [] then Some([])
    else
      match ValidationLine(items[0])
      case None => None
      case Some(line) =>
        match ValidationLines(items[1..])
        case None => None
        case Some(rest) => Some([line] + rest)
  }

  /** One value of a validation error object: a string as it is, otherwise
      its truthy `msg` or, failing that, `JSON.stringify` of it. */
  function ObjectValueText(e: Json, stringify: Json -> string): Option<string> {
    match e
    case JNull => None
    case JStr(s) => Some(s)
    case _ =>
      var msg := Property(e, "msg").value;
      if msg.Some? && Truthy(msg.value) then Some(Rendered(msg.value)) else Some(stringify(e))
  }

  function ObjectValueTexts(values: seq<Json>, stringify: Json -> string): (texts: Option<seq<string>>)
    ensures texts.Some? ==> |texts.value| == |values|
  {
    if values == [] then Some([])
    else
      match ObjectValueText(values[0], stringify)
      case None => None
      case Some(t) =>
        match ObjectValueTexts(values[1..], stringify)
        case None => None
        case Some(rest) => Some([t] + rest)
  }

  /** The message for a truthy response body: a string verbatim; a list as
      one line per item; a truthy `detail` as its text (objects through
      `JSON.stringify`); any other object as its values joined by `, `. */
  function BodyMessage(data: Json, stringify: Json -> string): Handled
    requires Truthy(data)
  {
    match data
    case JStr(s) => Message(s)
    case JArray(items) =>
      (match ValidationLines(items)
       case None => Threw
       case Some(lines) => Message(Join(lines, "\n")))
    // `true` or a non-zero number: no `detail`, and not an object.
    case JBool(_) => Message(FetchFailedMessage)
    case JNum(_) => Message(FetchFailedMessage)
    case JNull => Message(FetchFailedMessage)
    case JObject(fields) =>
      var detail := Field(fields, "detail");
      if detail.Some? && Truthy(detail.value) then
        Message(if detail.value.JArray? || detail.value.JObject? then stringify(detail.value) else Rendered(detail.value))
      else
        match ObjectValueTexts(ValuesOf(fields), stringify)
        case None => Threw
        case Some(texts) => Message(Join(texts, ", "))
  }

  /** The catch block of `fetchExecutions`: a 404 shows an empty list;
      otherwise the message starts as the fixed one and is replaced by one
      drawn from a truthy body. `stringify` is `JSON.stringify`. */
  function FailureHandled(response: Option<HttpResponse>, stringify: Json -> string): Handled {
    if response.Some? && response.value.status == 404 then EmptyList
    else if response.None? || response.value.data.None? || !Truthy(response.value.data.value) then
      Message(FetchFailedMessage)
    else BodyMessage(response.value.data.value, stringify)
  }

  /** What a page keeps about the list it shows. */
  datatype Page = Page(loading: bool, error: Option<string>, executions: seq<Json>)

  /** The global page after a failed fetch. When composing the message
      throws, nothing is set and the page stays as it was. */
  function FetchFailed(page: Page, response: Option<HttpResponse>, stringify: Json -> string): Page {
    match FailureHandled(response, stringify)
    case EmptyList => page.(executions := [], loading := false)
    case Message(m) => page.(error := Some(m), loading := false)
    case Threw => page
  }

  /** The per-crew page after a failed fetch, whatever the failure. */
  function CrewFetchFailed(page: Page): Page {
    page.(error := Some(FetchFailedMessage), loading := false)
  }

  // ---------------------------------------------------------------------
  // Properties of the failure handling

  /** A 404 empties the list and stops loading, and sets no error. */
  lemma NotFoundShowsEmptyList(page: Page, data: Option<Json>, stringify: Json -> string)
    ensures var next := FetchFailed(page, Some(HttpResponse(404, data)), stringify);
      next.executions == [] && !next.loading && next.error == page.error
  {
  }

  /** Without a response, or with an empty or falsy body, the fixed message
      is shown. */
  lemma NoBodyShowsFixedMessage(page: Page, response: Option<HttpResponse>, stringify: Json -> string)
    requires response.Some? ==> response.value.status != 404
    requires response.Some? ==> response.value.data.None? || !Truthy(response.value.data.value)
    ensures FetchFailed(page, response, stringify).error == Some("Failed to fetch executions")
  {
  }

  /** A string body is the message, verbatim; the empty string is falsy and
      gives the fixed message instead. */
  lemma StringBodyShownVerbatim(page: Page, status: int, s: string, stringify: Json -> string)
    requires status != 404
    ensures FetchFailed(page, Some(HttpResponse(status, Some(JStr(s)))), stringify).error ==
      Some(if s == "" then FetchFailedMessage else s)
  {
  }

  /** A list body of validation errors shows one line per item, in order:
      splitting the message at line breaks gives back each item's line,
      provided no line contains a break of its own. */
  lemma ValidationListOneLinePerItem(page: Page, status: int, items: seq<Json>, stringify: Json -> string)
    requires status != 404 && |items| >= 1
    requires forall i :: 0 <= i < |items| ==> ValidationLine(items[i]).Some?
    requires forall i :: 0 <= i < |items| ==> '\n' !in ValidationLine(items[i]).value
    ensures var next := FetchFailed(page, Some(HttpResponse(status, Some(JArray(items)))), stringify);
      next.error.Some? && !next.loading &&
      var lines := Split(next.error.value, "\n");
      |lines| == |items| && forall i :: 0 <= i < |items| ==> lines[i] == ValidationLine(items[i]).value
  {
    var lines := ValidationLines(items).value;
    var message := Join(lines, "\n");
    assert FailureHandled(Some(HttpResponse(status, Some(JArray(items)))), stringify) == Message(message);
    assert forall k :: 0 <= k < |lines| ==> '\n' !in lines[k];
    SplitJoin(lines, '\n');
  }

  /** An item with a `loc` list and a `msg` string reads `<loc parts joined
      by '.'>: <msg>`. */
  lemma LocatedLine(e: Json, parts: seq<Json>, msg: string)
    requires e.JObject? && Field(e.fields, "loc") == Some(JArray(parts)) && Field(e.fields, "msg") == Some(JStr(msg))
    ensures ValidationLine(e) == Some(Joined(parts, ".") + ": " + msg)
  {
    assert Template(Some(JStr(msg))) == msg;
  }

  /** An item without `loc` reads `: <msg>`: the location is empty. */
  lemma UnlocatedLine(e: Json, msg: string)
    requires e.JObject? && Field(e.fields, "loc").None? && Field(e.fields, "msg") == Some(JStr(msg))
    ensures ValidationLine(e) == Some(": " + msg)
  {
    assert Template(Some(JStr(msg))) == msg;
    assert "" + ": " + msg == ": " + msg;
  }

  /** A `null` item in a list body makes the handler throw before it sets
      anything: the page keeps loading and shows no message. */
  lemma NullItemLeavesPageLoading(page: Page, status: int, items: seq<Json>, i: nat, stringify: Json -> string)
    requires status != 404 && i < |items| && items[i] == JNull
    ensures FetchFailed(page, Some(HttpResponse(status, Some(JArray(items)))), stringify) == page
  {
    assert ValidationLine(items[i]).None?;
  }

  /** The per-crew page shows what the global page shows for a failure
      without a response, and, unlike the global page, an error for a 404. */
  lemma CrewPageIgnoresTheResponse(page: Page, data: Option<Json>, stringify: Json -> string)
    ensures CrewFetchFailed(page) == FetchFailed(page, None, stringify)
    ensures CrewFetchFailed(page).error.Some?
    ensures FetchFailed(page, Some(HttpResponse(404, data)), stringify).error == page.error
  {
  }
}
