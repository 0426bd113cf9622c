/** The query rewriter that confines every query of a client to one organization. */
module OrgScope {
  import opened Wrappers

  /** An argument value as the program passes it. */
  datatype Json =
    | Undefined
    | Null
    | Bool(b: bool)
    | Num(n: int)
    | Str(s: string)
    | Arr(items: seq<Json>)
    | Obj(fields: map<string, Json>)

  type Args = map<string, Json>

  datatype Operation =
    | FindMany | FindFirst | FindFirstOrThrow | Count | Aggregate | GroupBy | FindUnique | FindUniqueOrThrow
    | Create | CreateMany | CreateManyAndReturn | Update | Delete | UpdateMany | DeleteMany | Upsert
    | UpdateManyAndReturn | FindRaw | AggregateRaw
    | Undeclared // any operation the table does not list

  datatype Strategy = FilterWhere | UniqueWhere | CreateData | CreateManyData | UpsertBoth | Reject

  function StrategyOf(op: Operation): Option<Strategy> {
    match op
    case FindMany | FindFirst | FindFirstOrThrow | Count | Aggregate | GroupBy => Some(FilterWhere)
    case UpdateMany | DeleteMany => Some(FilterWhere)
    case FindUnique | FindUniqueOrThrow | Update | Delete => Some(UniqueWhere)
    case Create => Some(CreateData)
    case CreateMany | CreateManyAndReturn => Some(CreateManyData)
    case Upsert => Some(UpsertBoth)
    case UpdateManyAndReturn | FindRaw | AggregateRaw => Some(Reject)
    case Undeclared => None
  }

  const ORG_AGNOSTIC_MODELS := {"User", "RefreshToken", "Channel", "PlanDefinition"}
  const ORGANIZATION_MODEL := "Organization"
  const ORG_SCOPED_MODELS := {
    "Membership", "Role", "Invitation", "Product", "SellableSku", "InventoryItem", "BundleComponent", "Warehouse",
    "StockLevel", "StockMovement", "ChannelAccount", "ChannelListing", "OrgEntitlement", "UsageEvent" }

  datatype ScopeError = UnsupportedOperation | ScopeViolation | UnregisteredModel

  /** A value that provably equals the context organization: the literal, or the literal in one wrapper. */
  predicate MatchesContext(value: Json, org: string, wrapper: string) {
    || value == Str(org)
    || (value.Obj? && value.fields.Keys == {wrapper} && value.fields[wrapper] == Str(org))
  }

  /** Put the tenant column into a `where`, refusing one that names another tenant. */
  function ScopedWhere(where_: Json, org: string, column: string): Result<Json, ScopeError> {
    if !where_.Undefined? && !where_.Obj? then Failure(ScopeViolation)
    else
      var base := if where_.Obj? then where_.fields else map[];
      if column in base && !MatchesContext(base[column], org, "equals") then Failure(ScopeViolation)
      else Success(Obj(base[column := Str(org)]))
  }

  /** The id in `{ connect: { id } }`, and in no other relation form. */
  function ConnectId(relation: Json): Option<string> {
    if relation.Obj? && relation.fields.Keys == {"connect"} then
      var connect := relation.fields["connect"];
      if connect.Obj? && "id" in connect.fields && connect.fields["id"].Str? then Some(connect.fields["id"].s) else None
    else None
  }

  function ScopedCreateData(data: Json, org: string, column: string): Result<Json, ScopeError> {
    if !data.Obj? then Failure(ScopeViolation)
    else if column in data.fields then
      if MatchesContext(data.fields[column], org, "set")
      then Success(Obj(data.fields[column := Str(org)]))
      else Failure(ScopeViolation)
    else if column == "organizationId" && "organization" in data.fields then
      if ConnectId(data.fields["organization"]) == Some(org) then Success(data) else Failure(ScopeViolation)
    else Success(Obj(data.fields[column := Str(org)]))
  }

  const RELATION_WRITE_VERBS := {
    "connect", "connectOrCreate", "disconnect", "create", "createMany", "update", "updateMany", "upsert", "delete",
    "deleteMany" }

  predicate IsRelationWrite(value: Json) {
    value.Obj? && value.fields.Keys * RELATION_WRITE_VERBS != {}
  }

  /** Refuse an update that could move a row to another tenant. */
  function GuardWriteData(data: Json, org: string, column: string): Result<Json, ScopeError> {
    if !data.Obj? then Success(data)
    else if exists key <- data.fields :: key != column && IsRelationWrite(data.fields[key]) then Failure(ScopeViolation)
    else if column !in data.fields then Success(data)
    else if MatchesContext(data.fields[column], org, "set") then Success(Obj(data.fields[column := Str(org)]))
    else Failure(ScopeViolation)
  }

  function Get(args: Args, key: string): Json {
    if key in args then args[key] else Undefined
  }

  function ScopedRows(rows: seq<Json>, org: string, column: string): (r: Result<seq<Json>, ScopeError>)
    ensures r.Success? ==> |r.value| == |rows|
    ensures r.Success? ==> forall i :: 0 <= i < |rows| ==> ScopedCreateData(rows[i], org, column) == Success(r.value[i])
    ensures r.Failure? ==> exists i :: 0 <= i < |rows| && ScopedCreateData(rows[i], org, column).Failure?
  {
    if rows == [] then Success([])
    else
      var head, tail := ScopedCreateData(rows[0], org, column), ScopedRows(rows[1..], org, column);
      if head.Failure? then Failure(head.error)
      else if tail.Failure? then Failure(tail.error)
      else Success([head.value] + tail.value)
  }

  /** Guard `data` under `key` when the caller passed it, on top of the other arguments. */
  function GuardKey(args: Args, key: string, org: string, column: string): Result<Args, ScopeError> {
    if key !in args then Success(args)
    else
      var data := GuardWriteData(args[key], org, column);
      if data.Failure? then Failure(data.error) else Success(args[key := data.value])
  }

  function ScopeWhereAndData(args: Args, org: string, column: string): Result<Args, ScopeError> {
    var where_ := ScopedWhere(Get(args, "where"), org, column);
    if where_.Failure? then Failure(where_.error)
    else GuardKey(args["where" := where_.value], "data", org, column)
  }

  function ScopeByColumn(strategy: Strategy, args: Args, org: string, column: string): Result<Args, ScopeError>
    requires !strategy.Reject?
  {
    match strategy
    case FilterWhere => ScopeWhereAndData(args, org, column)
    case UniqueWhere =>
      if !Get(args, "where").Obj? then Failure(ScopeViolation) else ScopeWhereAndData(args, org, column)
    case CreateData =>
      var data := ScopedCreateData(Get(args, "data"), org, column);
      if data.Failure? then Failure(data.error) else Success(args["data" := data.value])
    case CreateManyData =>
      var data := Get(args, "data");
      if data.Arr? then
        var rows := ScopedRows(data.items, org, column);
        if rows.Failure? then Failure(rows.error) else Success(args["data" := Arr(rows.value)])
      else
        var row := ScopedCreateData(data, org, column);
        if row.Failure? then Failure(row.error) else Success(args["data" := row.value])
    case UpsertBoth =>
      if !Get(args, "where").Obj? then Failure(ScopeViolation)
      else
        var where_ := ScopedWhere(args["where"], org, column);
        if where_.Failure? then Failure(where_.error)
        else
          var create := ScopedCreateData(Get(args, "create"), org, column);
          if create.Failure? then Failure(create.error)
          else GuardKey(args["where" := where_.value]["create" := create.value], "update", org, column)
  }

  /** The tenant column of a model: `Organization` is a tenant through its own id. */
  function ColumnOf(model: string): string {
    if model == ORGANIZATION_MODEL then "id" else "organizationId"
  }

  predicate IsScoped(model: string) {
    model == ORGANIZATION_MODEL || model in ORG_SCOPED_MODELS
  }

  /** The arguments to send instead, or a refusal. `None` stands for a call without arguments. */
  function ApplyOrgScope(model: string, op: Operation, args: Option<Args>, org: string)
    : Result<Option<Args>, ScopeError>
  {
    var strategy := StrategyOf(op);
    if strategy.None? || strategy.value.Reject? then Failure(UnsupportedOperation)
    else if model in ORG_AGNOSTIC_MODELS then Success(args)
    else if !IsScoped(model) then Failure(UnregisteredModel)
    else if model == ORGANIZATION_MODEL && strategy.value in {CreateData, CreateManyData, UpsertBoth}
    then Failure(UnsupportedOperation)
    else
      var input := if args.Some? then args.value else map[];
      var scoped := ScopeByColumn(strategy.value, input, org, ColumnOf(model));
      if scoped.Failure? then Failure(scoped.error) else Success(Some(scoped.value))
  }
}
