/**
 * What queries mean on a table that many tenants share, and the theorem that a rewritten
 * query means the original one on the context tenant's rows alone.
 */
module OrgScopeMeaning {
  import opened Wrappers
  import opened OrgScope

  /** A stored row: its tenant column, and every other column. */
  datatype Row = Row(tenant: string, cells: map<string, Json>)

  type Table = seq<Row>

  /**
   * The parts of the query language that scoping does not depend on, left arbitrary: conditions on
   * other columns and relations, what an update assigns, where a nested relation write moves a row,
   * and what a call returns for the rows it picked (order, paging, projection, aggregates, errors).
   */
  datatype Language = Language(
    condition: (string, Json, Row) -> bool,
    tenantCondition: (Json, string) -> bool,
    tenantWrite: (Json, string) -> string,
    assign: (Args, map<string, Json>) -> map<string, Json>,
    moved: (Json, Row) -> Row,
    answer: (Operation, Args, seq<Row>) -> Json)

  // ── filters ──────────────────────────────────────────────────────────────

  predicate TenantIs(lang: Language, value: Json, tenant: string) {
    match value
    case Undefined => true
    case Str(s) => tenant == s
    case Obj(m) =>
      if m.Keys == {"equals"} && m["equals"].Str? then tenant == m["equals"].s else lang.tenantCondition(value, tenant)
    case _ => lang.tenantCondition(value, tenant)
  }

  /** `where` holds of a row: every key does, with AND, OR and NOT nested to any depth. */
  predicate Matches(lang: Language, column: string, where_: Json, row: Row)
    decreases where_, 1
  {
    match where_
    case Undefined => true
    case Obj(m) => forall key <- m :: KeyHolds(lang, column, key, m[key], row)
    case _ => lang.condition("", where_, row)
  }

  predicate KeyHolds(lang: Language, column: string, key: string, value: Json, row: Row)
    decreases value, 2
  {
    if value.Undefined? then true
    else if key == "AND" then
      if value.Arr? then forall w <- value.items :: Matches(lang, column, w, row) else Matches(lang, column, value, row)
    else if key == "OR" then
      if value.Arr? then exists w <- value.items :: Matches(lang, column, w, row) else Matches(lang, column, value, row)
    else if key == "NOT" then
      if value.Arr? then forall w <- value.items :: !Matches(lang, column, w, row)
      else !Matches(lang, column, value, row)
    else if key == column then TenantIs(lang, value, row.tenant)
    else lang.condition(key, value, row)
  }

  // ── writes ───────────────────────────────────────────────────────────────

  function WrittenTenant(lang: Language, value: Json, tenant: string): string {
    match value
    case Undefined => tenant
    case Str(s) => s
    case Obj(m) => if m.Keys == {"set"} && m["set"].Str? then m["set"].s else lang.tenantWrite(value, tenant)
    case _ => lang.tenantWrite(value, tenant)
  }

  /** An update moves a row when it writes the tenant column, or through any nested relation write. */
  function Updated(lang: Language, column: string, data: Json, row: Row): Row {
    if !data.Obj? then row
    else if exists key <- data.fields :: key != column && IsRelationWrite(data.fields[key]) then lang.moved(data, row)
    else Row(if column in data.fields then WrittenTenant(lang, data.fields[column], row.tenant) else row.tenant,
             lang.assign(data.fields - {column}, row.cells))
  }

  /** A new row; one that names no tenant gets that of the place it is created in. */
  function Created(lang: Language, column: string, data: Json, home: string): Row {
    if !data.Obj? then Row(home, map[])
    else
      var m := data.fields;
      var tenant :=
        if column in m then WrittenTenant(lang, m[column], home)
        else if "organization" in m && ConnectId(m["organization"]).Some? then ConnectId(m["organization"]).value
        else home;
      Row(tenant, lang.assign(m - {column, "organization"}, map[]))
  }

  // ── operations on a table ────────────────────────────────────────────────

  function Filter(p: Row -> bool, t: Table): Table {
    if t == [] then []
    else if p(t[0]) then [t[0]] + Filter(p, t[1..])
    else Filter(p, t[1..])
  }

  /** Replace each row of `t` that satisfies `p` by its update. */
  function UpdateWhere(p: Row -> bool, f: Row -> Row, t: Table): Table {
    if t == [] then [] else [if p(t[0]) then f(t[0]) else t[0]] + UpdateWhere(p, f, t[1..])
  }

  /** Replace the first row that satisfies `p`, the one a unique lookup finds. */
  function UpdateFirst(p: Row -> bool, f: Row -> Row, t: Table): Table {
    if t == [] then []
    else if p(t[0]) then [f(t[0])] + t[1..]
    else [t[0]] + UpdateFirst(p, f, t[1..])
  }

  function RemoveFirst(p: Row -> bool, t: Table): Table {
    if t == [] then []
    else if p(t[0]) then t[1..]
    else [t[0]] + RemoveFirst(p, t[1..])
  }

  function Not(p: Row -> bool): Row -> bool {
    (row: Row) => !p(row)
  }

  function MatchesOf(lang: Language, column: string, where_: Json): Row -> bool {
    (row: Row) => Matches(lang, column, where_, row)
  }

  function UpdateOf(lang: Language, column: string, data: Json): Row -> Row {
    (row: Row) => Updated(lang, column, data, row)
  }

  function UpTo1(rows: seq<Row>): seq<Row> {
    if rows == [] then [] else [rows[0]]
  }

  function Map(f: Row -> Row, rows: seq<Row>): seq<Row> {
    seq(|rows|, i requires 0 <= i < |rows| => f(rows[i]))
  }

  function CreatedAll(lang: Language, column: string, data: seq<Json>, home: string): seq<Row> {
    seq(|data|, i requires 0 <= i < |data| => Created(lang, column, data[i], home))
  }

  /** The arguments that say what to return, not which rows to touch. */
  function Rest(args: Args): Args {
    args - {"where", "data", "create", "update"}
  }

  /** The table after an operation, and what the caller gets. */
  function Run(lang: Language, column: string, op: Operation, args: Args, t: Table, home: string): (Table, Json) {
    var p := MatchesOf(lang, column, Get(args, "where"));
    var found := Filter(p, t);
    var rest := Rest(args);
    var data := Get(args, "data");
    match op
    case UpdateMany =>
      var f := UpdateOf(lang, column, data);
      (UpdateWhere(p, f, t), lang.answer(op, rest, Map(f, found)))
    case DeleteMany => (Filter(Not(p), t), lang.answer(op, rest, found))
    case FindUnique | FindUniqueOrThrow => (t, lang.answer(op, rest, UpTo1(found)))
    case Update =>
      var f := UpdateOf(lang, column, data);
      (UpdateFirst(p, f, t), lang.answer(op, rest, Map(f, UpTo1(found))))
    case Delete => (RemoveFirst(p, t), lang.answer(op, rest, UpTo1(found)))
    case Create =>
      var row := Created(lang, column, data, home);
      (t + [row], lang.answer(op, rest, [row]))
    case CreateMany | CreateManyAndReturn =>
      var rows := CreatedAll(lang, column, if data.Arr? then data.items else [data], home);
      (t + rows, lang.answer(op, rest, rows))
    case Upsert =>
      if found != [] then
        var f := UpdateOf(lang, column, Get(args, "update"));
        (UpdateFirst(p, f, t), lang.answer(op, rest, Map(f, UpTo1(found))))
      else
        var row := Created(lang, column, Get(args, "create"), home);
        (t + [row], lang.answer(op, rest, [row]))
    case _ => (t, lang.answer(op, rest, found))
  }

  predicate IsOf(org: string, row: Row) {
    row.tenant == org
  }

  /** The rows of one tenant. */
  function Own(org: string, t: Table): Table {
    Filter((row: Row) => IsOf(org, row), t)
  }

  /** The rows of everybody else. */
  function Others(org: string, t: Table): Table {
    Filter((row: Row) => !IsOf(org, row), t)
  }

  // ── what rewriting does to each part ─────────────────────────────────────

  predicate IsColumn(column: string) {
    column == "organizationId" || column == "id"
  }

  lemma ContextMeansTenant(lang: Language, value: Json, org: string, tenant: string)
    ensures MatchesContext(value, org, "equals") ==> (TenantIs(lang, value, tenant) <==> tenant == org)
    ensures MatchesContext(value, org, "set") ==> WrittenTenant(lang, value, tenant) == org
  {
  }

  /** A scoped `where` holds of a row exactly when the row is the tenant's and the original holds. */
  lemma ScopedWhereMeaning(lang: Language, column: string, where_: Json, org: string, row: Row)
    requires IsColumn(column) && ScopedWhere(where_, org, column).Success?
    ensures Matches(lang, column, ScopedWhere(where_, org, column).value, row) <==>
            IsOf(org, row) && Matches(lang, column, where_, row)
  {
    var base := if where_.Obj? then where_.fields else map[];
    var scoped := base[column := Str(org)];
    assert column != "AND" && column != "OR" && column != "NOT";
    assert KeyHolds(lang, column, column, scoped[column], row) <==> IsOf(org, row);
    forall key | key in base && key != column
      ensures KeyHolds(lang, column, key, scoped[key], row) <==> KeyHolds(lang, column, key, base[key], row)
    {
    }
    if column in base {
      ContextMeansTenant(lang, base[column], org, row.tenant);
      assert KeyHolds(lang, column, column, base[column], row) <==> IsOf(org, row);
    }
  }

  /** Guarded data updates the tenant's rows as the original does, and keeps them the tenant's. */
  lemma GuardedDataMeaning(lang: Language, column: string, data: Json, org: string, row: Row)
    requires GuardWriteData(data, org, column).Success? && IsOf(org, row)
    ensures Updated(lang, column, GuardWriteData(data, org, column).value, row) == Updated(lang, column, data, row)
    ensures IsOf(org, Updated(lang, column, data, row))
  {
    if data.Obj? && column in data.fields {
      ContextMeansTenant(lang, data.fields[column], org, row.tenant);
      var scoped := data.fields[column := Str(org)];
      assert scoped - {column} == data.fields - {column};
      assert forall key <- scoped :: key != column ==> key in data.fields && scoped[key] == data.fields[key];
    }
  }

  /** Scoped data creates, anywhere, the row that the original creates at the tenant's. */
  lemma ScopedDataMeaning(lang: Language, data: Json, org: string, home: string)
    requires ScopedCreateData(data, org, "organizationId").Success?
    ensures Created(lang, "organizationId", ScopedCreateData(data, org, "organizationId").value, home) ==
            Created(lang, "organizationId", data, org)
    ensures IsOf(org, Created(lang, "organizationId", data, org))
  {
    var m := data.fields;
    if "organizationId" in m {
      ContextMeansTenant(lang, m["organizationId"], org, home);
      ContextMeansTenant(lang, m["organizationId"], org, org);
    }
    var named := {"organizationId", "organization"};
    assert m["organizationId" := Str(org)] - named == m - named;
  }

  // ── tables of many tenants ───────────────────────────────────────────────

  /** `p'` selects what `p` selects among the tenant's rows. */
  ghost predicate Narrows(p': Row -> bool, p: Row -> bool, org: string) {
    forall row {:trigger p'(row)} {:trigger p(row)} :: p'(row) <==> IsOf(org, row) && p(row)
  }

  /** `f'` updates the tenant's rows as `f` does, and leaves them the tenant's. */
  ghost predicate Agrees(f': Row -> Row, f: Row -> Row, org: string) {
    forall row {:trigger f'(row)} {:trigger f(row)} :: IsOf(org, row) ==> f'(row) == f(row) && IsOf(org, f(row))
  }

  lemma {:induction false} FilterNarrows(p': Row -> bool, p: Row -> bool, org: string, t: Table)
    requires Narrows(p', p, org)
    ensures Filter(p', t) == Filter(p, Own(org, t))
    ensures forall row :: row in Filter(p', t) ==> IsOf(org, row)
  {
    if t != [] {
      FilterNarrows(p', p, org, t[1..]);
      if IsOf(org, t[0]) {
        assert Own(org, t) == [t[0]] + Own(org, t[1..]);
        assert Own(org, t)[1..] == Own(org, t[1..]);
      }
    }
  }

  lemma {:induction false} UpdateWhereNarrows(p': Row -> bool, p: Row -> bool, f': Row -> Row, f: Row -> Row,
      org: string, t: Table)
    requires Narrows(p', p, org) && Agrees(f', f, org)
    ensures Own(org, UpdateWhere(p', f', t)) == UpdateWhere(p, f, Own(org, t))
    ensures Others(org, UpdateWhere(p', f', t)) == Others(org, t)
  {
    if t != [] {
      UpdateWhereNarrows(p', p, f', f, org, t[1..]);
      var t' := UpdateWhere(p', f', t);
      assert t'[1..] == UpdateWhere(p', f', t[1..]);
      if IsOf(org, t[0]) {
        assert Own(org, t) == [t[0]] + Own(org, t[1..]);
        assert Own(org, t)[1..] == Own(org, t[1..]);
      }
    }
  }

  lemma {:induction false} UpdateFirstNarrows(p': Row -> bool, p: Row -> bool, f': Row -> Row, f: Row -> Row,
      org: string, t: Table)
    requires Narrows(p', p, org) && Agrees(f', f, org)
    ensures Own(org, UpdateFirst(p', f', t)) == UpdateFirst(p, f, Own(org, t))
    ensures Others(org, UpdateFirst(p', f', t)) == Others(org, t)
  {
    if t != [] {
      UpdateFirstNarrows(p', p, f', f, org, t[1..]);
      var t' := UpdateFirst(p', f', t);
      assert t'[1..] == if p'(t[0]) then t[1..] else UpdateFirst(p', f', t[1..]);
      if IsOf(org, t[0]) {
        assert Own(org, t) == [t[0]] + Own(org, t[1..]);
        assert Own(org, t)[1..] == Own(org, t[1..]);
      }
    }
  }

  lemma {:induction false} RemoveFirstNarrows(p': Row -> bool, p: Row -> bool, org: string, t: Table)
    requires Narrows(p', p, org)
    ensures Own(org, RemoveFirst(p', t)) == RemoveFirst(p, Own(org, t))
    ensures Others(org, RemoveFirst(p', t)) == Others(org, t)
  {
    if t != [] {
      RemoveFirstNarrows(p', p, org, t[1..]);
      if !p'(t[0]) {
        assert RemoveFirst(p', t)[1..] == RemoveFirst(p', t[1..]);
      }
      if IsOf(org, t[0]) {
        assert Own(org, t) == [t[0]] + Own(org, t[1..]);
        assert Own(org, t)[1..] == Own(org, t[1..]);
      }
    }
  }

  lemma {:induction false} RemoveAllNarrows(p': Row -> bool, p: Row -> bool, org: string, t: Table)
    requires Narrows(p', p, org)
    ensures Own(org, Filter(Not(p'), t)) == Filter(Not(p), Own(org, t))
    ensures Others(org, Filter(Not(p'), t)) == Others(org, t)
  {
    if t != [] {
      RemoveAllNarrows(p', p, org, t[1..]);
      if !p'(t[0]) {
        assert Filter(Not(p'), t)[1..] == Filter(Not(p'), t[1..]);
      }
      if IsOf(org, t[0]) {
        assert Own(org, t) == [t[0]] + Own(org, t[1..]);
        assert Own(org, t)[1..] == Own(org, t[1..]);
      }
    }
  }

  lemma {:induction false} AppendOwn(org: string, t: Table, rows: seq<Row>)
    requires forall row :: row in rows ==> IsOf(org, row)
    ensures Own(org, t + rows) == Own(org, t) + rows
    ensures Others(org, t + rows) == Others(org, t)
  {
    if t != [] {
      AppendOwn(org, t[1..], rows);
      assert (t + rows)[1..] == t[1..] + rows;
    } else if rows != [] {
      AppendOwn(org, [], rows[1..]);
      assert [] + rows == rows && [] + rows[1..] == rows[1..];
    }
  }

  // ── the theorem, strategy by strategy ────────────────────────────────────

  /**
   * Sending `args'` on the whole table is running `args` on the tenant's rows alone: the same
   * answer, the same rows for the tenant afterwards, and nobody else's row changed, gone or new.
   */
  ghost predicate Confined(
    lang: Language, column: string, op: Operation, args': Args, args: Args, org: string, t: Table, home: string) {
    var (after', answer') := Run(lang, column, op, args', t, home);
    var (after, answer) := Run(lang, column, op, args, Own(org, t), org);
    answer' == answer && Own(org, after') == after && Others(org, after') == Others(org, t)
  }

  lemma WhereNarrows(lang: Language, column: string, where_: Json, org: string)
    requires IsColumn(column) && ScopedWhere(where_, org, column).Success?
    ensures Narrows(MatchesOf(lang, column, ScopedWhere(where_, org, column).value),
            MatchesOf(lang, column, where_), org)
  {
    forall row ensures MatchesOf(lang, column, ScopedWhere(where_, org, column).value)(row) <==>
                       IsOf(org, row) && MatchesOf(lang, column, where_)(row) {
      ScopedWhereMeaning(lang, column, where_, org, row);
    }
  }

  lemma DataAgrees(lang: Language, column: string, data: Json, org: string)
    requires GuardWriteData(data, org, column).Success?
    ensures Agrees(UpdateOf(lang, column, GuardWriteData(data, org, column).value), UpdateOf(lang, column, data), org)
  {
    forall row | IsOf(org, row)
      ensures UpdateOf(lang, column, GuardWriteData(data, org, column).value)(row) == UpdateOf(lang, column, data)(row)
      ensures IsOf(org, UpdateOf(lang, column, data)(row))
    {
      GuardedDataMeaning(lang, column, data, org, row);
    }
  }

  /** The guarded `key` updates the tenant's rows as the caller's does, given or not. */
  lemma GuardKeyAgrees(lang: Language, column: string, args: Args, key: string, org: string)
    requires GuardKey(args, key, org, column).Success?
    ensures var args' := GuardKey(args, key, org, column).value;
            && Agrees(UpdateOf(lang, column, Get(args', key)), UpdateOf(lang, column, Get(args, key)), org)
            && (forall other :: other != key ==> Get(args', other) == Get(args, other))
            && args' - {key} == args - {key}
  {
    if key in args {
      DataAgrees(lang, column, args[key], org);
    }
  }

  lemma MapAgrees(f': Row -> Row, f: Row -> Row, org: string, rows: seq<Row>)
    requires Agrees(f', f, org) && forall row :: row in rows ==> IsOf(org, row)
    ensures Map(f', rows) == Map(f, rows)
  {
  }

  lemma LocatedConfined(lang: Language, column: string, op: Operation, args: Args, org: string, t: Table, home: string)
    requires IsColumn(column) && ScopeWhereAndData(args, org, column).Success?
    requires StrategyOf(op) == Some(FilterWhere) || StrategyOf(op) == Some(UniqueWhere)
    ensures Confined(lang, column, op, ScopeWhereAndData(args, org, column).value, args, org, t, home)
  {
    var args' := ScopeWhereAndData(args, org, column).value;
    var scoped := ScopedWhere(Get(args, "where"), org, column).value;
    GuardKeyAgrees(lang, column, args["where" := scoped], "data", org);
    WhereNarrows(lang, column, Get(args, "where"), org);
    assert Get(args', "where") == scoped;
    assert Rest(args') == Rest(args);
    LocatedRowsConfined(lang, column, op, args', args, org, t, home);
  }

  /** The one row that a unique lookup finds and updates. */
  lemma FirstRowNarrows(p': Row -> bool, p: Row -> bool, f': Row -> Row, f: Row -> Row, org: string, t: Table)
    requires Narrows(p', p, org) && Agrees(f', f, org)
    ensures Filter(p', t) == Filter(p, Own(org, t))
    ensures Map(f', UpTo1(Filter(p', t))) == Map(f, UpTo1(Filter(p, Own(org, t))))
    ensures Own(org, UpdateFirst(p', f', t)) == UpdateFirst(p, f, Own(org, t))
    ensures Others(org, UpdateFirst(p', f', t)) == Others(org, t)
  {
    FilterNarrows(p', p, org, t);
    MapAgrees(f', f, org, UpTo1(Filter(p', t)));
    UpdateFirstNarrows(p', p, f', f, org, t);
  }

  /**
   * `args'` picks the tenant's rows that `args` picks, updates them alike with `key`, and asks for the same of
   * them.
   */
  ghost predicate LocatesAlike(lang: Language, column: string, args': Args, args: Args, key: string, org: string) {
    && Narrows(MatchesOf(lang, column, Get(args', "where")), MatchesOf(lang, column, Get(args, "where")), org)
    && Agrees(UpdateOf(lang, column, Get(args', key)), UpdateOf(lang, column, Get(args, key)), org)
    && Rest(args') == Rest(args)
  }

  lemma UpdateManyConfined(lang: Language, column: string, args': Args, args: Args, org: string, t: Table, home: string)
    requires LocatesAlike(lang, column, args', args, "data", org)
    ensures Confined(lang, column, UpdateMany, args', args, org, t, home)
  {
    var p', p := MatchesOf(lang, column, Get(args', "where")), MatchesOf(lang, column, Get(args, "where"));
    var f', f := UpdateOf(lang, column, Get(args', "data")), UpdateOf(lang, column, Get(args, "data"));
    FilterNarrows(p', p, org, t);
    MapAgrees(f', f, org, Filter(p', t));
    UpdateWhereNarrows(p', p, f', f, org, t);
  }

  lemma UpdateConfined(lang: Language, column: string, args': Args, args: Args, org: string, t: Table, home: string)
    requires LocatesAlike(lang, column, args', args, "data", org)
    ensures Confined(lang, column, Update, args', args, org, t, home)
  {
    var p', p := MatchesOf(lang, column, Get(args', "where")), MatchesOf(lang, column, Get(args, "where"));
    var f', f := UpdateOf(lang, column, Get(args', "data")), UpdateOf(lang, column, Get(args, "data"));
    FirstRowNarrows(p', p, f', f, org, t);
  }

  lemma DeleteManyConfined(lang: Language, column: string, args': Args, args: Args, org: string, t: Table, home: string)
    requires LocatesAlike(lang, column, args', args, "data", org)
    ensures Confined(lang, column, DeleteMany, args', args, org, t, home)
  {
    var p', p := MatchesOf(lang, column, Get(args', "where")), MatchesOf(lang, column, Get(args, "where"));
    FilterNarrows(p', p, org, t);
    RemoveAllNarrows(p', p, org, t);
  }

  lemma DeleteConfined(lang: Language, column: string, args': Args, args: Args, org: string, t: Table, home: string)
    requires LocatesAlike(lang, column, args', args, "data", org)
    ensures Confined(lang, column, Delete, args', args, org, t, home)
  {
    var p', p := MatchesOf(lang, column, Get(args', "where")), MatchesOf(lang, column, Get(args, "where"));
    FilterNarrows(p', p, org, t);
    RemoveFirstNarrows(p', p, org, t);
  }

  predicate IsRead(op: Operation) {
    (StrategyOf(op) == Some(FilterWhere) || StrategyOf(op) == Some(UniqueWhere))
    && !op.UpdateMany? && !op.DeleteMany? && !op.Update? && !op.Delete?
  }

  lemma ReadConfined(lang: Language, column: string, op: Operation, args': Args, args: Args, org: string, t: Table,
      home: string)
    requires IsRead(op) && LocatesAlike(lang, column, args', args, "data", org)
    ensures Confined(lang, column, op, args', args, org, t, home)
  {
    FilterNarrows(MatchesOf(lang, column, Get(args', "where")), MatchesOf(lang, column, Get(args, "where")), org, t);
  }

  lemma LocatedRowsConfined(lang: Language, column: string, op: Operation, args': Args, args: Args, org: string,
      t: Table, home: string)
    requires StrategyOf(op) == Some(FilterWhere) || StrategyOf(op) == Some(UniqueWhere)
    requires LocatesAlike(lang, column, args', args, "data", org)
    ensures Confined(lang, column, op, args', args, org, t, home)
  {
    match op
    case UpdateMany => UpdateManyConfined(lang, column, args', args, org, t, home);
    case Update => UpdateConfined(lang, column, args', args, org, t, home);
    case DeleteMany => DeleteManyConfined(lang, column, args', args, org, t, home);
    case Delete => DeleteConfined(lang, column, args', args, org, t, home);
    case _ => ReadConfined(lang, column, op, args', args, org, t, home);
  }

  lemma CreateConfined(lang: Language, args: Args, org: string, t: Table, home: string)
    requires ScopeByColumn(CreateData, args, org, "organizationId").Success?
    ensures Confined(lang, "organizationId", Create, ScopeByColumn(CreateData, args, org, "organizationId").value,
            args, org, t, home)
  {
    var data := Get(args, "data");
    ScopedDataMeaning(lang, data, org, home);
    AppendOwn(org, t, [Created(lang, "organizationId", data, org)]);
    assert Rest(args["data" := ScopedCreateData(data, org, "organizationId").value]) == Rest(args);
  }

  lemma CreateManyConfined(lang: Language, op: Operation, args: Args, org: string, t: Table, home: string)
    requires op.CreateMany? || op.CreateManyAndReturn?
    requires ScopeByColumn(CreateManyData, args, org, "organizationId").Success?
    ensures Confined(lang, "organizationId", op, ScopeByColumn(CreateManyData, args, org, "organizationId").value,
            args, org, t, home)
  {
    var args' := ScopeByColumn(CreateManyData, args, org, "organizationId").value;
    var data, data' := Get(args, "data"), Get(args', "data");
    var rows := if data.Arr? then data.items else [data];
    var rows' := if data'.Arr? then data'.items else [data'];
    assert |rows'| == |rows|;
    var created := CreatedAll(lang, "organizationId", rows, org);
    forall i | 0 <= i < |rows|
      ensures Created(lang, "organizationId", rows'[i], home) == created[i] && IsOf(org, created[i])
    {
      assert ScopedCreateData(rows[i], org, "organizationId") == Success(rows'[i]);
      ScopedDataMeaning(lang, rows[i], org, home);
    }
    assert CreatedAll(lang, "organizationId", rows', home) == created;
    AppendOwn(org, t, created);
    assert Rest(args') == Rest(args);
  }

  lemma UpsertParts(lang: Language, args': Args, args: Args, org: string, home: string)
    requires ScopeByColumn(UpsertBoth, args, org, "organizationId") == Success(args')
    ensures var column := "organizationId";
            && Narrows(MatchesOf(lang, column, Get(args', "where")), MatchesOf(lang, column, Get(args, "where")), org)
            && Agrees(UpdateOf(lang, column, Get(args', "update")), UpdateOf(lang, column, Get(args, "update")), org)
            && Created(lang, column, Get(args', "create"), home) == Created(lang, column, Get(args, "create"), org)
            && IsOf(org, Created(lang, column, Get(args, "create"), org))
            && Rest(args') == Rest(args)
  {
    var column := "organizationId";
    var where', create' := ScopedWhere(args["where"], org, column).value,
        ScopedCreateData(Get(args, "create"), org, column).value;
    var scoped := args["where" := where']["create" := create'];
    GuardKeyAgrees(lang, column, scoped, "update", org);
    assert Get(scoped, "update") == Get(args, "update");
    assert Get(args', "where") == where' && Get(args', "create") == create';
    assert Rest(scoped) == Rest(args);
    assert Rest(args') == Rest(scoped);
    WhereNarrows(lang, column, args["where"], org);
    ScopedDataMeaning(lang, Get(args, "create"), org, home);
  }

  /** An upsert that finds a row is an update of that row. */
  lemma UpsertIsUpdate(lang: Language, column: string, args: Args, t: Table, home: string)
    requires Filter(MatchesOf(lang, column, Get(args, "where")), t) != []
    ensures var p, f := MatchesOf(lang, column, Get(args, "where")), UpdateOf(lang, column, Get(args, "update"));
            Run(lang, column, Upsert, args, t, home) ==
            (UpdateFirst(p, f, t), lang.answer(Upsert, Rest(args), Map(f, UpTo1(Filter(p, t)))))
  {
  }

  lemma UpsertFindsConfined(lang: Language, column: string, args': Args, args: Args, org: string, t: Table,
      home: string)
    requires LocatesAlike(lang, column, args', args, "update", org)
    requires Filter(MatchesOf(lang, column, Get(args', "where")), t) != []
    ensures Confined(lang, column, Upsert, args', args, org, t, home)
  {
    var p', p := MatchesOf(lang, column, Get(args', "where")), MatchesOf(lang, column, Get(args, "where"));
    var f', f := UpdateOf(lang, column, Get(args', "update")), UpdateOf(lang, column, Get(args, "update"));
    FirstRowNarrows(p', p, f', f, org, t);
    UpsertIsUpdate(lang, column, args', t, home);
    UpsertIsUpdate(lang, column, args, Own(org, t), org);
  }

  /** An upsert that finds none is a create. */
  lemma UpsertCreatesConfined(lang: Language, column: string, args': Args, args: Args, org: string, t: Table,
      home: string)
    requires Narrows(MatchesOf(lang, column, Get(args', "where")), MatchesOf(lang, column, Get(args, "where")), org)
    requires Created(lang, column, Get(args', "create"), home) == Created(lang, column, Get(args, "create"), org)
    requires IsOf(org, Created(lang, column, Get(args, "create"), org))
    requires Rest(args') == Rest(args) && Filter(MatchesOf(lang, column, Get(args', "where")), t) == []
    ensures Confined(lang, column, Upsert, args', args, org, t, home)
  {
    FilterNarrows(MatchesOf(lang, column, Get(args', "where")), MatchesOf(lang, column, Get(args, "where")), org, t);
    AppendOwn(org, t, [Created(lang, column, Get(args, "create"), org)]);
  }

  lemma UpsertConfined(lang: Language, args': Args, args: Args, org: string, t: Table, home: string)
    requires ScopeByColumn(UpsertBoth, args, org, "organizationId") == Success(args')
    ensures Confined(lang, "organizationId", Upsert, args', args, org, t, home)
  {
    UpsertParts(lang, args', args, org, home);
    if Filter(MatchesOf(lang, "organizationId", Get(args', "where")), t) != [] {
      UpsertFindsConfined(lang, "organizationId", args', args, org, t, home);
    } else {
      UpsertCreatesConfined(lang, "organizationId", args', args, org, t, home);
    }
  }

  lemma ColumnConfined(lang: Language, column: string, op: Operation, args': Args, args: Args, org: string, t: Table,
      home: string)
    requires IsColumn(column) && StrategyOf(op).Some? && !StrategyOf(op).value.Reject?
    requires column == "organizationId" || StrategyOf(op).value in {FilterWhere, UniqueWhere}
    requires ScopeByColumn(StrategyOf(op).value, args, org, column) == Success(args')
    ensures Confined(lang, column, op, args', args, org, t, home)
  {
    match StrategyOf(op).value
    case FilterWhere => LocatedConfined(lang, column, op, args, org, t, home);
    case UniqueWhere => LocatedConfined(lang, column, op, args, org, t, home);
    case CreateData => CreateConfined(lang, args, org, t, home);
    case CreateManyData => CreateManyConfined(lang, op, args, org, t, home);
    case UpsertBoth => UpsertConfined(lang, args', args, org, t, home);
  }

  /** Every accepted query on a tenant's model is confined to the context organization. */
  lemma ScopedQueryIsOwnQuery(
    lang: Language, model: string, op: Operation, args: Option<Args>, args': Args, org: string, t: Table, home: string)
    requires IsScoped(model) && ApplyOrgScope(model, op, args, org) == Success(Some(args'))
    ensures Confined(lang, ColumnOf(model), op, args', if args.Some? then args.value else map[], org, t, home)
  {
    ColumnConfined(lang, ColumnOf(model), op, args', if args.Some? then args.value else map[], org, t, home);
  }

  // ── rewriting twice ──────────────────────────────────────────────────────

  lemma PartsAreFixed(value: Json, org: string, column: string)
    ensures ScopedWhere(value, org, column).Success? ==>
              ScopedWhere(ScopedWhere(value, org, column).value, org, column) == ScopedWhere(value, org, column)
    ensures ScopedCreateData(value, org, column).Success? ==>
              ScopedCreateData(ScopedCreateData(value, org, column).value, org, column) ==
                  ScopedCreateData(value, org, column)
    ensures GuardWriteData(value, org, column).Success? ==>
              GuardWriteData(GuardWriteData(value, org, column).value, org, column) ==
                  GuardWriteData(value, org, column)
  {
    if value.Obj? {
      var m := value.fields[column := Str(org)];
      assert m[column := Str(org)] == m;
      assert forall key <- m :: key != column ==> key in value.fields && m[key] == value.fields[key];
    } else {
      var m: map<string, Json> := map[column := Str(org)];
      assert m[column := Str(org)] == m;
    }
  }

  lemma {:induction false} RowsAreFixed(rows: seq<Json>, org: string, column: string)
    requires ScopedRows(rows, org, column).Success?
    ensures ScopedRows(ScopedRows(rows, org, column).value, org, column) == ScopedRows(rows, org, column)
  {
    if rows != [] {
      PartsAreFixed(rows[0], org, column);
      RowsAreFixed(rows[1..], org, column);
      var scoped := ScopedRows(rows, org, column).value;
      assert scoped[1..] == ScopedRows(rows[1..], org, column).value;
    }
  }

  lemma GuardKeyIsFixed(args: Args, key: string, org: string, column: string)
    requires GuardKey(args, key, org, column).Success?
    ensures GuardKey(GuardKey(args, key, org, column).value, key, org, column) == GuardKey(args, key, org, column)
  {
    if key in args {
      PartsAreFixed(args[key], org, column);
      var args' := GuardKey(args, key, org, column).value;
      assert args'[key := args'[key]] == args';
    }
  }

  lemma LocatedIsFixed(args: Args, org: string, column: string)
    requires ScopeWhereAndData(args, org, column).Success?
    ensures var args' := ScopeWhereAndData(args, org, column).value;
            ScopeWhereAndData(args', org, column) == Success(args') && Get(args', "where").Obj?
  {
    var args' := ScopeWhereAndData(args, org, column).value;
    PartsAreFixed(Get(args, "where"), org, column);
    GuardKeyIsFixed(args["where" := ScopedWhere(Get(args, "where"), org, column).value], "data", org, column);
    assert args'["where" := args'["where"]] == args';
  }

  lemma CreateManyIsFixed(args: Args, org: string, column: string)
    requires ScopeByColumn(CreateManyData, args, org, column).Success?
    ensures var args' := ScopeByColumn(CreateManyData, args, org, column).value;
            ScopeByColumn(CreateManyData, args', org, column) == Success(args')
  {
    var args' := ScopeByColumn(CreateManyData, args, org, column).value;
    var data := Get(args, "data");
    if data.Arr? {
      RowsAreFixed(data.items, org, column);
    } else {
      PartsAreFixed(data, org, column);
    }
    assert args'["data" := args'["data"]] == args';
  }

  lemma UpsertIsFixed(args: Args, org: string, column: string)
    requires ScopeByColumn(UpsertBoth, args, org, column).Success?
    ensures var args' := ScopeByColumn(UpsertBoth, args, org, column).value;
            ScopeByColumn(UpsertBoth, args', org, column) == Success(args')
  {
    var args' := ScopeByColumn(UpsertBoth, args, org, column).value;
    var where', create' := ScopedWhere(args["where"], org, column).value,
        ScopedCreateData(Get(args, "create"), org, column).value;
    PartsAreFixed(args["where"], org, column);
    PartsAreFixed(Get(args, "create"), org, column);
    GuardKeyIsFixed(args["where" := where']["create" := create'], "update", org, column);
    assert args'["where" := args'["where"]]["create" := args'["create"]] == args';
  }

  lemma ScopeByColumnIsFixed(strategy: Strategy, args: Args, org: string, column: string)
    requires !strategy.Reject? && ScopeByColumn(strategy, args, org, column).Success?
    ensures var args' := ScopeByColumn(strategy, args, org, column).value;
            ScopeByColumn(strategy, args', org, column) == Success(args')
  {
    match strategy
    case FilterWhere => LocatedIsFixed(args, org, column);
    case UniqueWhere => LocatedIsFixed(args, org, column);
    case CreateData =>
      var args' := ScopeByColumn(strategy, args, org, column).value;
      PartsAreFixed(Get(args, "data"), org, column);
      assert args'["data" := args'["data"]] == args';
    case CreateManyData => CreateManyIsFixed(args, org, column);
    case UpsertBoth => UpsertIsFixed(args, org, column);
  }

  /** What has been rewritten once is accepted again and left as it is. */
  lemma RewritingTwiceIsOnce(model: string, op: Operation, args: Option<Args>, org: string)
    requires ApplyOrgScope(model, op, args, org).Success?
    ensures ApplyOrgScope(model, op, ApplyOrgScope(model, op, args, org).value, org) ==
            ApplyOrgScope(model, op, args, org)
  {
    if model !in ORG_AGNOSTIC_MODELS {
      ScopeByColumnIsFixed(StrategyOf(op).value, if args.Some? then args.value else map[], org, ColumnOf(model));
    }
  }
}
