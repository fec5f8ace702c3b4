/** The tool registry agents draw on, and the filter that picks the tools a
    list of names asks for. The tool objects wrap external services; here each
    is identified by the name it is imported under. */
module Tools {
  import opened Wrappers
  import opened ODict

  /** A tool object, identified by its module-level binding. */
  datatype Tool = Tool(binding: string)

  /** `TOOLS`: every tool by the name agents refer to it with, in
      declaration order. */
  const Table: Dict<Tool> := [
    ("WebSearch", Tool("search_tool")),
    ("Weather", Tool("weather_tool")),
    ("News", Tool("news_tool")),
    ("CreateJiraIssue", Tool("create_issue_tool")),
    ("UpdateJiraIssue", Tool("update_issue_tool")),
    ("DeleteJiraIssue", Tool("delete_issue_tool")),
    ("AddJiraComment", Tool("add_comment_tool")),
    ("GetJiraIssue", Tool("get_issue_tool")),
    ("SearchJiraIssues", Tool("search_issues_tool")),
    ("CreateConfluencePage", Tool("create_page_tool")),
    ("UpdateConfluencePage", Tool("update_page_tool")),
    ("DeleteConfluencePage", Tool("delete_page_tool")),
    ("GetConfluencePage", Tool("get_page_tool")),
    ("SearchConfluencePages", Tool("search_pages_tool"))
  ]

  /** The dictionary comprehension over the requested names: a known name is
      assigned its tool, an unknown one is skipped. A name asked for twice
      keeps the position of its first request. (Stated over any table, so
      that proofs about it need not unfold the fourteen entries.) */
  function Filtered(table: Dict<Tool>, names: seq<string>): Dict<Tool> {
    if names == [] then []
    else
      var before := Filtered(table, names[..|names| - 1]);
      var n := names[|names| - 1];
      match Get(table, n)
      case None => before
      case Some(t) => Put(before, n, t)
  }

  /** `get_available_tools(tool_names)`: the whole table when no list is
      given, otherwise the filtered one. */
  function Available(names: Option<seq<string>>): Dict<Tool> {
    match names
    case None => Table
    case Some(ns) => Filtered(Table, ns)
  }

  /** The filtered dictionary holds a name exactly when it was asked for and
      is in the table, and then holds the table's tool for it. */
  lemma {:induction false} FilteredGet(table: Dict<Tool>, names: seq<string>, k: string)
    ensures Get(Filtered(table, names), k) == if k in names then Get(table, k) else None
    decreases |names|
  {
    if names != [] {
      var init := names[..|names| - 1];
      var n := names[|names| - 1];
      FilteredGet(table, init, k);
      assert names == init + [n];
      assert k in names <==> k in init || k == n;
      match Get(table, n)
      case None =>
      case Some(t) =>
        PutGet(Filtered(table, init), n, t, k);
    }
  }

  /** What `get_available_tools` answers for any name: the table's entry when
      no list is given or the name is in the list, and nothing otherwise.
      Unknown names are dropped rather than raised. */
  lemma AvailableGet(names: Option<seq<string>>, k: string)
    ensures Get(Available(names), k) ==
      if names.None? || k in names.value then Get(Table, k) else None
  {
    if names.Some? {
      FilteredGet(Table, names.value, k);
    }
  }

  /** The names in the answer are exactly those both requested and known. */
  lemma AvailableKeys(names: Option<seq<string>>, k: string)
    ensures k in Keys(Available(names)) <==>
      k in Keys(Table) && (names.None? || k in names.value)
  {
    AvailableGet(names, k);
    GetSpec(Available(names), k);
    GetSpec(Table, k);
  }

  /** The filtered answer is a proper dictionary: no name twice. */
  lemma {:induction false} FilteredUnique(table: Dict<Tool>, names: seq<string>)
    ensures UniqueKeys(Filtered(table, names))
    decreases |names|
  {
    if names != [] {
      var init := names[..|names| - 1];
      FilteredUnique(table, init);
      match Get(table, names[|names| - 1])
      case None =>
      case Some(t) => PutUnique(Filtered(table, init), names[|names| - 1], t);
    }
  }
}
