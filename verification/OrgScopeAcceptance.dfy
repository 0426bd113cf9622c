/**
 * Which queries the rewriter accepts, said on the arguments alone, and with which error it refuses
 * every other one.
 */
module OrgScopeAcceptance {
  import opened Wrappers
  import opened OrgScope
  import opened OrgScopeMeaning

  /** The organization itself, bare or as the only entry of one wrapper. */
  predicate Names(value: Json, org: string, wrapper: string) {
    value == Str(org) || value == Obj(map[wrapper := Str(org)])
  }

  predicate WhereFits(where_: Json, org: string, column: string) {
    || where_ == Undefined
    || (where_.Obj? && (column in where_.fields ==> Names(where_.fields[column], org, "equals")))
  }

  /** `{ connect: { id } }` with nothing beside `connect`, and the organization's own id. */
  ghost predicate Connects(relation: Json, org: string) {
    exists connect: map<string, Json> ::
      "id" in connect && connect["id"] == Str(org) && relation == Obj(map["connect" := Obj(connect)])
  }

  ghost predicate RowFits(data: Json, org: string, column: string) {
    && data.Obj?
    && (column in data.fields ==> Names(data.fields[column], org, "set"))
    && (column !in data.fields && column == "organizationId" && "organization" in data.fields ==>
          Connects(data.fields["organization"], org))
  }

  predicate IsNestedWrite(value: Json) {
    value.Obj?
    && exists verb <- {"connect", "connectOrCreate", "disconnect", "create", "createMany", "update", "updateMany",
                       "upsert", "delete", "deleteMany"} :: verb in value.fields
  }

  predicate UpdateFits(data: Json, org: string, column: string) {
    data.Obj? ==>
      && (column in data.fields ==> Names(data.fields[column], org, "set"))
      && forall key <- data.fields :: key != column ==> !IsNestedWrite(data.fields[key])
  }

  // ── the parts ────────────────────────────────────────────────────────────

  lemma NamesIsContext(value: Json, org: string, wrapper: string)
    ensures MatchesContext(value, org, wrapper) <==> Names(value, org, wrapper)
  {
    if MatchesContext(value, org, wrapper) && value.Obj? {
      assert value.fields == map[wrapper := Str(org)];
    }
  }

  /** A `where` that fits gets the tenant column on top of all it says; any other is refused. */
  lemma WhereOutcomes(where_: Json, org: string, column: string)
    ensures ScopedWhere(where_, org, column) ==
            if WhereFits(where_, org, column)
            then Success(Obj((if where_.Obj? then where_.fields else map[])[column := Str(org)]))
            else Failure(ScopeViolation)
  {
    if where_.Obj? && column in where_.fields {
      NamesIsContext(where_.fields[column], org, "equals");
    }
  }

  lemma ConnectsIsContext(relation: Json, org: string)
    ensures ConnectId(relation) == Some(org) <==> Connects(relation, org)
  {
    if ConnectId(relation) == Some(org) {
      var connect := relation.fields["connect"].fields;
      assert "id" in connect && relation.fields == map["connect" := Obj(connect)];
    }
  }

  /** Data for a new row that fits gets the tenant column, unless its relation names the tenant already. */
  lemma RowOutcomes(data: Json, org: string, column: string)
    ensures ScopedCreateData(data, org, column) ==
            if !RowFits(data, org, column) then Failure(ScopeViolation)
            else if column !in data.fields && column == "organizationId" && "organization" in data.fields
            then Success(data)
            else Success(Obj(data.fields[column := Str(org)]))
  {
    if data.Obj? {
      if column in data.fields { NamesIsContext(data.fields[column], org, "set"); }
      if "organization" in data.fields { ConnectsIsContext(data.fields["organization"], org); }
    }
  }

  lemma {:induction false} RowsOutcomes(rows: seq<Json>, org: string, column: string)
    ensures ScopedRows(rows, org, column).Success? <==> forall row :: row in rows ==> RowFits(row, org, column)
    ensures ScopedRows(rows, org, column).Failure? ==> ScopedRows(rows, org, column).error == ScopeViolation
  {
    if rows != [] {
      RowOutcomes(rows[0], org, column);
      RowsOutcomes(rows[1..], org, column);
      assert forall row :: row in rows <==> row == rows[0] || row in rows[1..];
    }
  }

  lemma NestedWriteIsRelation(value: Json)
    ensures IsRelationWrite(value) <==> IsNestedWrite(value)
  {
    if IsRelationWrite(value) {
      var verb :| verb in value.fields.Keys * RELATION_WRITE_VERBS;
      assert verb in value.fields;
    }
    if IsNestedWrite(value) {
      var verb :| verb in RELATION_WRITE_VERBS && verb in value.fields;
      assert verb in value.fields.Keys * RELATION_WRITE_VERBS;
    }
  }

  /** Update data that fits is left as it is, except that its tenant column, if any, is made plain. */
  lemma UpdateOutcomes(data: Json, org: string, column: string)
    ensures GuardWriteData(data, org, column) ==
            if !UpdateFits(data, org, column) then Failure(ScopeViolation)
            else if data.Obj? && column in data.fields then Success(Obj(data.fields[column := Str(org)]))
            else Success(data)
  {
    if data.Obj? {
      forall key | key in data.fields
        ensures IsRelationWrite(data.fields[key]) <==> IsNestedWrite(data.fields[key])
      {
        NestedWriteIsRelation(data.fields[key]);
      }
      if column in data.fields { NamesIsContext(data.fields[column], org, "set"); }
    }
  }

  // ── whole queries ────────────────────────────────────────────────────────

  /** The query names no other tenant, under any of the keys that its operation reads. */
  ghost predicate Fits(op: Operation, args: Args, org: string, column: string) {
    match op
    case FindMany | FindFirst | FindFirstOrThrow | Count | Aggregate | GroupBy | UpdateMany | DeleteMany =>
      && ("where" in args ==> WhereFits(args["where"], org, column))
      && ("data" in args ==> UpdateFits(args["data"], org, column))
    case FindUnique | FindUniqueOrThrow | Update | Delete =>
      && "where" in args && args["where"].Obj? && WhereFits(args["where"], org, column)
      && ("data" in args ==> UpdateFits(args["data"], org, column))
    case Create =>
      "data" in args && RowFits(args["data"], org, column)
    case CreateMany | CreateManyAndReturn =>
      "data" in args &&
      if args["data"].Arr? then forall row :: row in args["data"].items ==> RowFits(row, org, column)
      else RowFits(args["data"], org, column)
    case Upsert =>
      && "where" in args && args["where"].Obj? && WhereFits(args["where"], org, column)
      && "create" in args && RowFits(args["create"], org, column)
      && ("update" in args ==> UpdateFits(args["update"], org, column))
    case _ => false
  }

  /** What the rewriter never changes: every argument beside these four. */
  predicate SameBeside(args: Args, args': Args) {
    args' - {"where", "data", "create", "update"} == args - {"where", "data", "create", "update"}
  }

  lemma GuardKeyOutcomes(args: Args, key: string, org: string, column: string)
    ensures GuardKey(args, key, org, column).Success? <==> (key in args ==> UpdateFits(args[key], org, column))
    ensures GuardKey(args, key, org, column).Failure? ==> GuardKey(args, key, org, column).error == ScopeViolation
  {
    if key in args { UpdateOutcomes(args[key], org, column); }
  }

  lemma LocatedOutcomes(args: Args, org: string, column: string)
    ensures ScopeWhereAndData(args, org, column).Success? <==>
            && ("where" in args ==> WhereFits(args["where"], org, column))
            && ("data" in args ==> UpdateFits(args["data"], org, column))
    ensures ScopeWhereAndData(args, org, column).Failure? ==>
              ScopeWhereAndData(args, org, column).error == ScopeViolation
  {
    WhereOutcomes(Get(args, "where"), org, column);
    if WhereFits(Get(args, "where"), org, column) {
      GuardKeyOutcomes(args["where" := ScopedWhere(Get(args, "where"), org, column).value], "data", org, column);
    }
  }

  lemma UpsertOutcomes(args: Args, org: string, column: string)
    ensures ScopeByColumn(UpsertBoth, args, org, column).Success? <==> Fits(Upsert, args, org, column)
    ensures ScopeByColumn(UpsertBoth, args, org, column).Failure? ==>
              ScopeByColumn(UpsertBoth, args, org, column).error == ScopeViolation
  {
    WhereOutcomes(Get(args, "where"), org, column);
    RowOutcomes(Get(args, "create"), org, column);
    if Get(args, "where").Obj? && WhereFits(args["where"], org, column) && RowFits(Get(args, "create"), org, column) {
      var where', create' := ScopedWhere(args["where"], org, column).value,
          ScopedCreateData(Get(args, "create"), org, column).value;
      GuardKeyOutcomes(args["where" := where']["create" := create'], "update", org, column);
    }
  }

  lemma ColumnOutcomes(op: Operation, args: Args, org: string, column: string)
    requires StrategyOf(op).Some? && !StrategyOf(op).value.Reject?
    ensures ScopeByColumn(StrategyOf(op).value, args, org, column).Success? <==> Fits(op, args, org, column)
    ensures ScopeByColumn(StrategyOf(op).value, args, org, column).Failure? ==>
              ScopeByColumn(StrategyOf(op).value, args, org, column).error == ScopeViolation
  {
    match StrategyOf(op).value
    case FilterWhere => LocatedOutcomes(args, org, column);
    case UniqueWhere => LocatedOutcomes(args, org, column);
    case CreateData => RowOutcomes(Get(args, "data"), org, column);
    case CreateManyData =>
      RowOutcomes(Get(args, "data"), org, column);
      if Get(args, "data").Arr? { RowsOutcomes(args["data"].items, org, column); }
    case UpsertBoth => UpsertOutcomes(args, org, column);
  }

  predicate IsShared(model: string) {
    model in {"User", "RefreshToken", "Channel", "PlanDefinition"}
  }

  predicate IsTenantOwned(model: string) {
    model in {"Membership", "Role", "Invitation", "Product", "SellableSku", "InventoryItem", "BundleComponent",
              "Warehouse", "StockLevel", "StockMovement", "ChannelAccount", "ChannelListing", "OrgEntitlement",
              "UsageEvent"}
  }

  /** Operations that are declared and not refused; a tenant cannot be created from inside one. */
  predicate IsServed(model: string, op: Operation) {
    && !op.UpdateManyAndReturn? && !op.FindRaw? && !op.AggregateRaw? && !op.Undeclared?
    && (model == "Organization" ==> !op.Create? && !op.CreateMany? && !op.CreateManyAndReturn? && !op.Upsert?)
  }

  lemma ServedOperations(op: Operation)
    ensures StrategyOf(op).Some? && !StrategyOf(op).value.Reject? <==> IsServed("", op)
    ensures IsServed("", op) ==>
              (StrategyOf(op).value in {CreateData, CreateManyData, UpsertBoth} <==> !IsServed("Organization", op))
  {
  }

  lemma RegisteredModels(model: string)
    ensures model in ORG_AGNOSTIC_MODELS <==> IsShared(model)
    ensures IsScoped(model) <==> model == "Organization" || IsTenantOwned(model)
    ensures IsShared(model) ==> !IsScoped(model)
  {
  }

  lemma BesideStays(op: Operation, args: Args, org: string, column: string)
    requires StrategyOf(op).Some? && !StrategyOf(op).value.Reject?
    requires ScopeByColumn(StrategyOf(op).value, args, org, column).Success?
    ensures SameBeside(args, ScopeByColumn(StrategyOf(op).value, args, org, column).value)
  {
  }

  lemma RegisteredOutcomes(model: string, op: Operation, args: Option<Args>, org: string)
    requires IsScoped(model) && IsServed(model, op)
    ensures var input: Args := if args.Some? then args.value else map[];
            var r, scoped := ApplyOrgScope(model, op, args, org),
                ScopeByColumn(StrategyOf(op).value, input, org, ColumnOf(model));
            if scoped.Failure? then r == Failure(scoped.error) else r == Success(Some(scoped.value))
  {
    RegisteredModels(model);
    ServedOperations(op);
  }

  lemma UnregisteredOutcomes(model: string, op: Operation, args: Option<Args>, org: string)
    requires !(IsScoped(model) && IsServed(model, op))
    ensures ApplyOrgScope(model, op, args, org) ==
            if !IsServed(model, op) then Failure(UnsupportedOperation)
            else if IsShared(model) then Success(args)
            else Failure(UnregisteredModel)
  {
    RegisteredModels(model);
    ServedOperations(op);
  }

  /** The answer to every query, each refusal with its exact condition. */
  lemma ScopeOutcomes(model: string, op: Operation, args: Option<Args>, org: string)
    ensures var r := ApplyOrgScope(model, op, args, org);
            var input: Args := if args.Some? then args.value else map[];
            var column := if model == "Organization" then "id" else "organizationId";
            var isTenants := model == "Organization" || IsTenantOwned(model);
            && (r == Failure(UnsupportedOperation) <==> !IsServed(model, op))
            && (r == Failure(UnregisteredModel) <==> IsServed(model, op) && !IsShared(model) && !isTenants)
            && (r == Failure(ScopeViolation) <==> IsServed(model, op) && isTenants && !Fits(op, input, org, column))
            && (r.Success? <==> IsServed(model, op) && (IsShared(model) || (isTenants && Fits(op, input, org, column))))
            && (r.Success? && IsShared(model) ==> r.value == args)
            && (r.Success? && isTenants ==> r.value.Some? && SameBeside(input, r.value.value))
  {
    var input: Args := if args.Some? then args.value else map[];
    RegisteredModels(model);
    if IsScoped(model) && IsServed(model, op) {
      ServedOperations(op);
      RegisteredOutcomes(model, op, args, org);
      ColumnOutcomes(op, input, org, ColumnOf(model));
      if ScopeByColumn(StrategyOf(op).value, input, org, ColumnOf(model)).Success? {
        BesideStays(op, input, org, ColumnOf(model));
      }
    } else {
      UnregisteredOutcomes(model, op, args, org);
    }
  }

  /** Every served query that names no other tenant is sent, and means the original on the tenant's rows alone. */
  lemma FittingQueryIsOwnQuery(
    lang: Language, model: string, op: Operation, args: Option<Args>, org: string, t: Table, home: string)
    requires model == "Organization" || IsTenantOwned(model)
    requires IsServed(model, op)
    requires Fits(op, if args.Some? then args.value else map[], org,
                  if model == "Organization" then "id" else "organizationId")
    ensures ApplyOrgScope(model, op, args, org).Success? && ApplyOrgScope(model, op, args, org).value.Some?
    ensures Confined(lang, if model == "Organization" then "id" else "organizationId", op,
                     ApplyOrgScope(model, op, args, org).value.value, if args.Some? then args.value else map[],
                     org, t, home)
  {
    RegisteredModels(model);
    ScopeOutcomes(model, op, args, org);
    ScopedQueryIsOwnQuery(lang, model, op, args, ApplyOrgScope(model, op, args, org).value.value, org, t, home);
  }

  /** A list, count or aggregate without a filter is accepted, and is about the tenant's rows only. */
  lemma MissingFilterIsAdded(model: string, op: Operation, args: Args, org: string)
    requires IsTenantOwned(model) && "where" !in args && "data" !in args
    requires op.FindMany? || op.FindFirst? || op.FindFirstOrThrow? || op.Count? || op.Aggregate? || op.GroupBy?
    ensures ApplyOrgScope(model, op, Some(args), org) ==
            Success(Some(args["where" := Obj(map["organizationId" := Str(org)])]))
  {
    WhereOutcomes(Undefined, org, "organizationId");
    assert model != "Organization" && !IsShared(model);
  }
}
