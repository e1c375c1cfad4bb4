/**
 * The data steps of the intent-classification pipeline: the text that is
 * embedded, the metadata filters of the two retrievals, the merge of the
 * retrieved schema documents into one DDL string per table, and the
 * fallback when the language model's reply cannot be read.
 *
 * The embedder, the retrievers, the language model, `ast.literal_eval`,
 * `orjson.loads` and `build_table_ddl` are foreign code: decoders and the
 * DDL builder are function inputs; a decoder answers `None` where the
 * foreign call raises or the key read after it is missing.
 */
module IntentClassification {
  import opened Optional
  import opened Strings

  // ---------------------------------------------------------------------
  // Embedded text

  /** `"\n".join(previous questions) + "\n" + query`. */
  function EmbeddingQuery(previousQuestions: seq<string>, query: string): (text: string)
    ensures |text| > |query| && text[|text| - |query| - 1] == '\n' && text[|text| - |query|..] == query
  {
    Join(previousQuestions, '\n') + "\n" + query
  }

  /** Without history the embedded text is the query behind a newline. */
  lemma NoHistoryLeadingNewline(query: string)
    ensures EmbeddingQuery([], query) == "\n" + query
  {
  }

  /** The embedded text splits back, line by line, into the previous questions followed by the query. */
  lemma EmbeddingQueryLines(previousQuestions: seq<string>, query: string)
    requires previousQuestions != []
    requires forall i :: 0 <= i < |previousQuestions| ==> '\n' !in previousQuestions[i]
    requires '\n' !in query
    ensures Split(EmbeddingQuery(previousQuestions, query), '\n') == previousQuestions + [query]
  {
    JoinConcat(previousQuestions, [query], '\n');
    assert Join([query], '\n') == query;
    SplitJoin(previousQuestions + [query], '\n');
  }

  // ---------------------------------------------------------------------
  // Retrieval filters

  /** A metadata filter: a comparison, or a group of filters under AND / OR. */
  datatype Filter = Condition(field: string, op: string, value: string) | Group(op: string, conditions: seq<Filter>)

  /** `field == value`. */
  function Equals(field: string, value: string): Filter {
    Condition(field, "==", value)
  }

  /** `if project_id:` — a missing or empty project id adds no condition. */
  predicate HasProject(projectId: Option<string>) {
    projectId.Some? && projectId.value != ""
  }

  /** The conditions, with the project condition appended when there is a project. */
  function WithProject(conditions: seq<Filter>, projectId: Option<string>): (r: seq<Filter>)
    ensures HasProject(projectId) ==> r == conditions + [Equals("project_id", projectId.value)]
    ensures !HasProject(projectId) ==> r == conditions
  {
    if HasProject(projectId) then conditions + [Equals("project_id", projectId.value)] else conditions
  }

  /** The filter of `table_retrieval`. */
  function TableFilter(projectId: Option<string>): (f: Filter)
    ensures f.Group? && f.op == "AND" && |f.conditions| >= 1
    ensures f.conditions[0] == Equals("type", "TABLE_DESCRIPTION")
    ensures |f.conditions| == 2 <==> HasProject(projectId)
    ensures HasProject(projectId) ==> f.conditions[1] == Equals("project_id", projectId.value)
  {
    Group("AND", WithProject([Equals("type", "TABLE_DESCRIPTION")], projectId))
  }

  /** The filter of `dbschema_retrieval` for the given table names. */
  function SchemaFilter(tableNames: seq<string>, projectId: Option<string>): (f: Filter)
    ensures f.Group? && f.op == "AND" && |f.conditions| >= 2
    ensures f.conditions[0] == Equals("type", "TABLE_SCHEMA")
    ensures f.conditions[1].Group? && f.conditions[1].op == "OR"
    ensures |f.conditions[1].conditions| == |tableNames|
    ensures forall i :: 0 <= i < |tableNames| ==> f.conditions[1].conditions[i] == Equals("name", tableNames[i])
    ensures |f.conditions| == 3 <==> HasProject(projectId)
    ensures HasProject(projectId) ==> f.conditions[2] == Equals("project_id", projectId.value)
  {
    var byName := seq(|tableNames|, i requires 0 <= i < |tableNames| => Equals("name", tableNames[i]));
    Group("AND", WithProject([Equals("type", "TABLE_SCHEMA"), Group("OR", byName)], projectId))
  }

  /**
   * `dbschema_retrieval`'s filter: the name of each retrieved table
   * document, in order. `nameOf` decodes a document's content and reads its
   * `name`; when it fails for any document the step raises (`None`).
   */
  method DbSchemaFilter(tableContents: seq<string>, nameOf: string -> Option<string>, projectId: Option<string>)
    returns (filter: Option<Filter>)
    ensures filter.None? <==> exists i :: 0 <= i < |tableContents| && nameOf(tableContents[i]).None?
    ensures filter.Some? ==> filter.value == SchemaFilter(seq(|tableContents|, i requires 0 <= i < |tableContents| => nameOf(tableContents[i]).value), projectId)
  {
    var tableNames: seq<string> := [];
    for i := 0 to |tableContents|
      invariant |tableNames| == i
      invariant forall j :: 0 <= j < i ==> nameOf(tableContents[j]) == Some(tableNames[j])
    {
      var name := nameOf(tableContents[i]);
      if name.None? {
        return None;
      }
      tableNames := tableNames + [name.value];
    }
    assert tableNames == seq(|tableContents|, i requires 0 <= i < |tableContents| => nameOf(tableContents[i]).value);
    filter := Some(SchemaFilter(tableNames, projectId));
  }

  // ---------------------------------------------------------------------
  // Merging schema documents

  /** A column description, kept as its opaque text. */
  type ColumnText = string

  /**
   * A decoded schema document or a merged entry: its `type`, its `columns`
   * and its other keys. A missing key is `None`.
   */
  datatype Entry = Entry(kind: Option<string>, columns: Option<seq<ColumnText>>, fields: map<string, string>)

  /** A retrieved schema document: its raw content and its `meta["name"]`. */
  datatype Document = Document(content: string, name: string)

  /** The merged entries by table name, and the names in first-seen order (a Python dict's order). */
  datatype Schemas = Schemas(order: seq<string>, entries: map<string, Entry>)

  const TableKind: string := "TABLE"
  const TableColumnsKind: string := "TABLE_COLUMNS"

  /** The order lists each entry's name exactly once. */
  predicate Valid(s: Schemas) {
    && (forall i, j :: 0 <= i < j < |s.order| ==> s.order[i] != s.order[j])
    && (forall n :: n in s.order ==> n in s.entries)
    && (forall n :: n in s.entries ==> n in s.order)
  }

  /** An entry is kept when it has both a `type` and `columns`. */
  predicate Complete(e: Entry) {
    e.kind.Some? && e.columns.Some?
  }

  /** An entry that produces DDL: complete and of type `TABLE`. */
  predicate YieldsDdl(e: Entry) {
    Complete(e) && e.kind.value == TableKind
  }

  /** Adds or replaces the entry for `name`; a new name goes to the end of the order. */
  function Put(s: Schemas, name: string, e: Entry): (r: Schemas)
    ensures Valid(s) ==> Valid(r)
    ensures r.entries == s.entries[name := e]
    ensures r.order == if name in s.entries then s.order else s.order + [name]
  {
    if name in s.entries then Schemas(s.order, s.entries[name := e]) else Schemas(s.order + [name], s.entries[name := e])
  }

  /** One iteration of the merge loop for a decoded document; `None` where the loop raises. */
  function Merge(s: Schemas, name: string, content: Entry): (r: Option<Schemas>)
    ensures Valid(s) && r.Some? ==> Valid(r.value)
    ensures r.None? <==> content.kind.None? || (content.kind == Some(TableColumnsKind) && content.columns.None?)
  {
    if content.kind.None? then None
    else if content.kind.value == TableKind then
      if name !in s.entries then Some(Put(s, name, content))
      else Some(Put(s, name, content.(columns := Some(s.entries[name].columns.GetOr([])))))
    else if content.kind.value == TableColumnsKind then
      if content.columns.None? then None
      else if name !in s.entries then Some(Put(s, name, Entry(None, content.columns, map[])))
      else
        var prior := s.entries[name];
        if prior.columns.None? then Some(Put(s, name, prior.(columns := content.columns)))
        else Some(Put(s, name, prior.(columns := Some(prior.columns.value + content.columns.value))))
    else Some(s)
  }

  /** The merge of decoded documents, in order, into `s`; `None` as soon as one raises. */
  function MergeAll(s: Schemas, items: seq<(string, Entry)>): (r: Option<Schemas>)
    ensures Valid(s) && r.Some? ==> Valid(r.value)
    decreases |items|
  {
    if items == [] then Some(s)
    else
      match MergeAll(s, items[..|items| - 1])
      case None => None
      case Some(t) => Merge(t, items[|items| - 1].0, items[|items| - 1].1)
  }

  /** Merging one more document merges it into the merge of the ones before. */
  lemma MergeAllSnoc(s: Schemas, items: seq<(string, Entry)>, x: (string, Entry))
    ensures MergeAll(s, items + [x]) == if MergeAll(s, items).None? then None else Merge(MergeAll(s, items).value, x.0, x.1)
  {
    assert (items + [x])[..|items|] == items;
  }

  /** The DDL strings of the DDL-yielding entries named in `order`, in that order. */
  function Ddls(order: seq<string>, entries: map<string, Entry>, buildDdl: Entry -> string): (ddls: seq<string>)
    requires forall n :: n in order ==> n in entries
    ensures |ddls| <= |order|
    ensures forall d :: d in ddls ==> exists n :: n in order && YieldsDdl(entries[n]) && d == buildDdl(entries[n])
    decreases |order|
  {
    if order == [] then []
    else
      var n := order[|order| - 1];
      assert forall m :: m in order[..|order| - 1] ==> m in order;
      Ddls(order[..|order| - 1], entries, buildDdl) + (if YieldsDdl(entries[n]) then [buildDdl(entries[n])] else [])
  }

  /** The schemas before any document. */
  const NoSchemas: Schemas := Schemas([], map[])

  /** The decoded documents, or `None` when one of them cannot be decoded. */
  function Decoded(docs: seq<Document>, decode: string -> Option<Entry>): (r: Option<seq<(string, Entry)>>)
    ensures r.Some? ==> |r.value| == |docs|
    ensures r.Some? ==> forall i :: 0 <= i < |docs| ==> decode(docs[i].content).Some? && r.value[i] == (docs[i].name, decode(docs[i].content).value)
    ensures r.None? <==> exists i :: 0 <= i < |docs| && decode(docs[i].content).None?
    decreases |docs|
  {
    if docs == [] then Some([])
    else
      var last := docs[|docs| - 1];
      match Decoded(docs[..|docs| - 1], decode)
      case None => None
      case Some(items) =>
        match decode(last.content)
        case None => None
        case Some(e) => Some(items + [(last.name, e)])
  }

  /** What `construct_db_schemas` returns, or `None` when it raises. */
  function DbSchemas(docs: seq<Document>, decode: string -> Option<Entry>, buildDdl: Entry -> string): Option<seq<string>> {
    match Decoded(docs, decode)
    case None => None
    case Some(items) =>
      match MergeAll(NoSchemas, items)
      case None => None
      case Some(s) => Some(Ddls(s.order, s.entries, buildDdl))
  }

  /** `construct_db_schemas`: merges the documents by name, drops incomplete entries and builds the DDL of each table. */
  method ConstructDbSchemas(docs: seq<Document>, decode: string -> Option<Entry>, buildDdl: Entry -> string)
    returns (result: Option<seq<string>>)
    ensures result == DbSchemas(docs, decode, buildDdl)
  {
    var order: seq<string> := [];
    var entries: map<string, Entry> := map[];
    ghost var items: seq<(string, Entry)> := [];
    assert Valid(NoSchemas);
    for i := 0 to |docs|
      invariant Decoded(docs[..i], decode) == Some(items)
      invariant Valid(Schemas(order, entries))
      invariant MergeAll(NoSchemas, items) == Some(Schemas(order, entries))
    {
      assert docs[..i + 1][..i] == docs[..i];
      var content := decode(docs[i].content);
      if content.None? {
        assert Decoded(docs, decode).None? by {
          assert decode(docs[i].content).None?;
        }
        return None;
      }
      var e := content.value;
      var name := docs[i].name;
      MergeAllSnoc(NoSchemas, items, (name, e));
      if e.kind.None? {
        RaisesAt(docs, decode, buildDdl, i, items + [(name, e)]);
        return None;
      }
      if e.kind.value == TableKind {
        if name !in entries {
          order := order + [name];
          entries := entries[name := e];
        } else {
          entries := entries[name := e.(columns := Some(entries[name].columns.GetOr([])))];
        }
      } else if e.kind.value == TableColumnsKind {
        if e.columns.None? {
          RaisesAt(docs, decode, buildDdl, i, items + [(name, e)]);
          return None;
        }
        if name !in entries {
          order := order + [name];
          entries := entries[name := Entry(None, e.columns, map[])];
        } else if entries[name].columns.None? {
          entries := entries[name := entries[name].(columns := e.columns)];
        } else {
          entries := entries[name := entries[name].(columns := Some(entries[name].columns.value + e.columns.value))];
        }
      }
      items := items + [(name, e)];
    }
    assert docs[..|docs|] == docs;
    var ddls := BuildDdls(order, entries, buildDdl);
    result := Some(ddls);
  }

  /** The last loop of `construct_db_schemas`: the DDL of every complete `TABLE` entry, in order. */
  method BuildDdls(order: seq<string>, entries: map<string, Entry>, buildDdl: Entry -> string) returns (ddls: seq<string>)
    requires forall n :: n in order ==> n in entries
    ensures ddls == Ddls(order, entries, buildDdl)
  {
    ddls := [];
    for i := 0 to |order|
      invariant ddls == Ddls(order[..i], entries, buildDdl)
    {
      assert order[..i + 1][..i] == order[..i];
      if YieldsDdl(entries[order[i]]) {
        ddls := ddls + [buildDdl(entries[order[i]])];
      }
    }
    assert order[..|order|] == order;
  }

  /** Once the merge of a prefix raises, the merge of the whole sequence raises. */
  lemma {:induction false} MergeStuck(s: Schemas, items: seq<(string, Entry)>, k: int)
    requires 0 <= k <= |items|
    requires MergeAll(s, items[..k]).None?
    ensures MergeAll(s, items).None?
    decreases |items| - k
  {
    if k < |items| {
      assert items[..k + 1][..k] == items[..k];
      MergeStuck(s, items, k + 1);
    } else {
      assert items[..k] == items;
    }
  }

  /** When the merge raises on the document at `i`, the whole step raises. */
  lemma RaisesAt(docs: seq<Document>, decode: string -> Option<Entry>, buildDdl: Entry -> string, i: int, items: seq<(string, Entry)>)
    requires 0 <= i < |docs|
    requires Decoded(docs[..i + 1], decode) == Some(items)
    requires MergeAll(NoSchemas, items).None?
    ensures DbSchemas(docs, decode, buildDdl).None?
  {
    match Decoded(docs, decode)
    case None =>
    case Some(all) =>
      assert all[..i + 1] == items;
      MergeStuck(NoSchemas, all, i + 1);
  }

  /** One `TABLE_COLUMNS` document for `name` per column list, in order. */
  function ColumnDocuments(name: string, columnLists: seq<seq<ColumnText>>): (items: seq<(string, Entry)>)
    ensures |items| == |columnLists|
    ensures forall i :: 0 <= i < |items| ==> items[i].0 == name
    decreases |columnLists|
  {
    if columnLists == [] then []
    else ColumnDocuments(name, columnLists[..|columnLists| - 1]) + [(name, Entry(Some(TableColumnsKind), Some(columnLists[|columnLists| - 1]), map[]))]
  }

  /** The columns an entry already has for `name`: none when there is no entry or it has no columns. */
  function PriorColumns(s: Schemas, name: string): seq<ColumnText> {
    if name in s.entries then s.entries[name].columns.GetOr([]) else []
  }

  /** The type an entry already has for `name`: none when there is no entry. */
  function PriorKind(s: Schemas, name: string): Option<string> {
    if name in s.entries then s.entries[name].kind else None
  }

  /** One `TABLE_COLUMNS` document appends its columns to the entry and keeps its type. */
  lemma MergeColumnDocument(s: Schemas, name: string, columns: seq<ColumnText>)
    ensures var r := Merge(s, name, Entry(Some(TableColumnsKind), Some(columns), map[]));
      && r.Some? && name in r.value.entries
      && r.value.entries[name].columns == Some(PriorColumns(s, name) + columns)
      && r.value.entries[name].kind == PriorKind(s, name)
  {
    if !(name in s.entries && s.entries[name].columns.Some?) {
      assert PriorColumns(s, name) == [];
      assert PriorColumns(s, name) + columns == columns;
    }
  }

  /** A `TABLE_COLUMNS` document after a merge that succeeded appends its columns to that merge's entry. */
  lemma MergeAllColumnDocument(s: Schemas, items: seq<(string, Entry)>, name: string, columns: seq<ColumnText>)
    requires MergeAll(s, items).Some?
    ensures var t := MergeAll(s, items).value;
      var r := MergeAll(s, items + [(name, Entry(Some(TableColumnsKind), Some(columns), map[]))]);
      && r.Some? && name in r.value.entries
      && r.value.entries[name].columns == Some(PriorColumns(t, name) + columns)
      && r.value.entries[name].kind == PriorKind(t, name)
  {
    MergeAllSnoc(s, items, (name, Entry(Some(TableColumnsKind), Some(columns), map[])));
    MergeColumnDocument(MergeAll(s, items).value, name, columns);
  }

  /** The last column list adds the last column document, and flattens to the last block of columns. */
  lemma ColumnListsLast(name: string, columnLists: seq<seq<ColumnText>>)
    requires |columnLists| >= 1
    ensures var n := |columnLists| - 1;
      ColumnDocuments(name, columnLists) ==
        ColumnDocuments(name, columnLists[..n]) + [(name, Entry(Some(TableColumnsKind), Some(columnLists[n]), map[]))]
    ensures var n := |columnLists| - 1;
      Flatten(columnLists) == Flatten(columnLists[..n]) + columnLists[n]
  {
  }

  /** A single column document for a name appends its columns to what the entry had. */
  lemma OneColumnDocument(s: Schemas, name: string, columnLists: seq<seq<ColumnText>>)
    requires |columnLists| == 1
    ensures var r := MergeAll(s, ColumnDocuments(name, columnLists));
      && r.Some? && name in r.value.entries
      && r.value.entries[name].columns == Some(PriorColumns(s, name) + Flatten(columnLists))
      && r.value.entries[name].kind == PriorKind(s, name)
  {
    ColumnListsLast(name, columnLists);
    assert ColumnDocuments(name, columnLists[..0]) == [] && Flatten(columnLists[..0]) == [];
    assert MergeAll(s, []) == Some(s);
    assert PriorColumns(s, name) + Flatten(columnLists) == PriorColumns(s, name) + columnLists[0];
    MergeAllColumnDocument(s, [], name, columnLists[0]);
  }

  /** Column documents for one name append their columns, in document order, to what the entry had. */
  lemma {:induction false} ColumnDocumentsConcatenate(s: Schemas, name: string, columnLists: seq<seq<ColumnText>>)
    requires |columnLists| >= 1
    ensures var r := MergeAll(s, ColumnDocuments(name, columnLists));
      && r.Some? && name in r.value.entries
      && r.value.entries[name].columns == Some(PriorColumns(s, name) + Flatten(columnLists))
      && r.value.entries[name].kind == PriorKind(s, name)
    decreases |columnLists|
  {
    if |columnLists| == 1 {
      OneColumnDocument(s, name, columnLists);
    } else {
      var n := |columnLists| - 1;
      ColumnListsLast(name, columnLists);
      ColumnDocumentsConcatenate(s, name, columnLists[..n]);
      var before := PriorColumns(s, name);
      assert before + Flatten(columnLists[..n]) + columnLists[n] == before + Flatten(columnLists);
      MergeAllColumnDocument(s, ColumnDocuments(name, columnLists[..n]), name, columnLists[n]);
    }
  }

  /** The lists concatenated in order. */
  function Flatten(lists: seq<seq<ColumnText>>): seq<ColumnText>
    decreases |lists|
  {
    if lists == [] then [] else Flatten(lists[..|lists| - 1]) + lists[|lists| - 1]
  }

  /** A `TABLE` document for a known name replaces the entry's type and fields but keeps its columns. */
  lemma TableDocumentKeepsColumns(s: Schemas, name: string, content: Entry)
    requires name in s.entries
    requires content.kind == Some(TableKind)
    ensures var r := Merge(s, name, content);
      && r.Some? && r.value.order == s.order
      && r.value.entries[name] == Entry(Some(TableKind), Some(s.entries[name].columns.GetOr([])), content.fields)
  {
  }

  /** A name that only ever had column documents has no type, so it yields no DDL. */
  lemma ColumnsOnlyNameYieldsNothing(name: string, columnLists: seq<seq<ColumnText>>, buildDdl: Entry -> string)
    requires |columnLists| >= 1
    ensures var r := MergeAll(NoSchemas, ColumnDocuments(name, columnLists));
      r.Some? && Ddls(r.value.order, r.value.entries, buildDdl) == []
  {
    ColumnDocumentsConcatenate(NoSchemas, name, columnLists);
    var items := ColumnDocuments(name, columnLists);
    var r := MergeAll(NoSchemas, items).value;
    NamesOnlyFromItems(NoSchemas, items);
    assert r.entries.Keys == {name};
    DdlsNone(r.order, r.entries, buildDdl);
  }

  /** Every name the merge adds comes from a merged document. */
  lemma {:induction false} NamesOnlyFromItems(s: Schemas, items: seq<(string, Entry)>)
    requires MergeAll(s, items).Some?
    ensures forall n :: n in MergeAll(s, items).value.entries ==> n in s.entries || exists i :: 0 <= i < |items| && items[i].0 == n
    decreases |items|
  {
    if items != [] {
      var k := |items| - 1;
      NamesOnlyFromItems(s, items[..k]);
      forall n | n in MergeAll(s, items).value.entries
        ensures n in s.entries || exists i :: 0 <= i < |items| && items[i].0 == n
      {
        if n != items[k].0 {
          assert n in MergeAll(s, items[..k]).value.entries;
          if n !in s.entries {
            var i :| 0 <= i < k && items[..k][i].0 == n;
            assert items[i].0 == n;
          }
        }
      }
    }
  }

  /** Every named entry that yields DDL contributes it. */
  lemma {:induction false} DdlsComplete(order: seq<string>, entries: map<string, Entry>, buildDdl: Entry -> string)
    requires forall n :: n in order ==> n in entries
    ensures forall n :: n in order && YieldsDdl(entries[n]) ==> buildDdl(entries[n]) in Ddls(order, entries, buildDdl)
    decreases |order|
  {
    if order != [] {
      var front := order[..|order| - 1];
      assert forall m :: m in order <==> m in front || m == order[|order| - 1];
      DdlsComplete(front, entries, buildDdl);
    }
  }

  /** One name contributes its DDL exactly when its entry yields one. */
  lemma DdlsSingle(n: string, entries: map<string, Entry>, buildDdl: Entry -> string)
    requires n in entries
    ensures Ddls([n], entries, buildDdl) == if YieldsDdl(entries[n]) then [buildDdl(entries[n])] else []
  {
    assert [n][..0] == [];
  }

  /** The DDLs of two runs of names are the DDLs of the first run followed by those of the second. */
  lemma {:induction false} DdlsConcat(o1: seq<string>, o2: seq<string>, entries: map<string, Entry>, buildDdl: Entry -> string)
    requires forall n :: n in o1 + o2 ==> n in entries
    ensures Ddls(o1 + o2, entries, buildDdl) == Ddls(o1, entries, buildDdl) + Ddls(o2, entries, buildDdl)
    decreases |o2|
  {
    if o2 == [] {
      assert o1 + o2 == o1;
    } else {
      var k := |o2| - 1;
      assert (o1 + o2)[..|o1 + o2| - 1] == o1 + o2[..k];
      assert (o1 + o2)[|o1 + o2| - 1] == o2[k];
      assert forall m :: m in o1 + o2[..k] ==> m in o1 + o2;
      DdlsConcat(o1, o2[..k], entries, buildDdl);
    }
  }

  /** Entries without a type yield no DDL. */
  lemma {:induction false} DdlsNone(order: seq<string>, entries: map<string, Entry>, buildDdl: Entry -> string)
    requires forall n :: n in order ==> n in entries && entries[n].kind.None?
    ensures Ddls(order, entries, buildDdl) == []
    decreases |order|
  {
    if order != [] {
      assert forall m :: m in order[..|order| - 1] ==> m in order;
      DdlsNone(order[..|order| - 1], entries, buildDdl);
    }
  }

  /** The names in the order they first appear. */
  function FirstSeen(names: seq<string>): (r: seq<string>)
    ensures forall n :: n in r <==> n in names
    decreases |names|
  {
    if names == [] then []
    else
      var p := FirstSeen(names[..|names| - 1]);
      var n := names[|names| - 1];
      assert forall m :: m in names <==> m in names[..|names| - 1] || m == n;
      if n in p then p else p + [n]
  }

  /** The names of the `TABLE` and `TABLE_COLUMNS` documents, in order. */
  function TableNames(items: seq<(string, Entry)>): (r: seq<string>)
    ensures |r| <= |items|
    decreases |items|
  {
    if items == [] then []
    else
      var last := items[|items| - 1];
      TableNames(items[..|items| - 1]) + (if last.1.kind == Some(TableKind) || last.1.kind == Some(TableColumnsKind) then [last.0] else [])
  }

  /** A merge step appends a `TABLE` or `TABLE_COLUMNS` document's name to the order when it is new, and otherwise keeps the order. */
  lemma MergeOrder(s: Schemas, name: string, content: Entry)
    requires Merge(s, name, content).Some?
    ensures Merge(s, name, content).value.order ==
      if (content.kind == Some(TableKind) || content.kind == Some(TableColumnsKind)) && name !in s.entries then s.order + [name]
      else s.order
  {
  }

  /** The first-seen names of one more name: it is added unless already seen. */
  lemma FirstSeenSnoc(names: seq<string>, name: string)
    ensures FirstSeen(names + [name]) == if name in names then FirstSeen(names) else FirstSeen(names) + [name]
  {
    assert (names + [name])[..|names|] == names;
  }

  /** The merged entries appear in the order their names were first seen among the table documents. */
  lemma {:induction false} MergeKeepsFirstSeenOrder(items: seq<(string, Entry)>)
    requires MergeAll(NoSchemas, items).Some?
    ensures MergeAll(NoSchemas, items).value.order == FirstSeen(TableNames(items))
    decreases |items|
  {
    if items != [] {
      var k := |items| - 1;
      var name, e := items[k].0, items[k].1;
      assert items == items[..k] + [items[k]];
      MergeAllSnoc(NoSchemas, items[..k], items[k]);
      MergeKeepsFirstSeenOrder(items[..k]);
      assert Valid(NoSchemas);
      var t := MergeAll(NoSchemas, items[..k]).value;
      assert Valid(t);
      MergeOrder(t, name, e);
      var before := TableNames(items[..k]);
      if e.kind == Some(TableKind) || e.kind == Some(TableColumnsKind) {
        assert TableNames(items) == before + [name];
        FirstSeenSnoc(before, name);
        assert name in t.entries <==> name in t.order;
      } else {
        assert TableNames(items) == before;
      }
    }
  }

  // ---------------------------------------------------------------------
  // Post-processing

  /** The three keys read from the language model's JSON reply. */
  datatype IntentReply = IntentReply(rephrasedQuestion: string, results: string, reasoning: string)

  /** The pipeline's output. */
  datatype IntentResult = IntentResult(rephrasedQuestion: string, intent: string, reasoning: string, dbSchemas: seq<string>)

  /**
   * `post_process`: the reply's three keys, or, when there is no reply or it
   * cannot be decoded, the `TEXT_TO_SQL` fallback with empty texts. The
   * schemas pass through either way.
   */
  function PostProcess(replies: seq<string>, decode: string -> Option<IntentReply>, dbSchemas: seq<string>): (r: IntentResult)
    ensures r.dbSchemas == dbSchemas
    ensures replies == [] || decode(replies[0]).None? ==> r == IntentResult("", "TEXT_TO_SQL", "", dbSchemas)
    ensures replies != [] && decode(replies[0]).Some? ==>
      var reply := decode(replies[0]).value;
      r.rephrasedQuestion == reply.rephrasedQuestion && r.intent == reply.results && r.reasoning == reply.reasoning
  {
    if replies == [] then IntentResult("", "TEXT_TO_SQL", "", dbSchemas)
    else
      match decode(replies[0])
      case None => IntentResult("", "TEXT_TO_SQL", "", dbSchemas)
      case Some(reply) => IntentResult(reply.rephrasedQuestion, reply.results, reply.reasoning, dbSchemas)
  }
}
