/**
 The `ActivityType` enum of the GUI's activity log. Each constant has a
 fixed numeric id; the database entity describing it is attached once at
 start-up. Java keeps the entity in a mutable field of the enum constant;
 here the attached entities form a registry value passed in and out.
 */
module ActivityTypes {
  import opened JavaStrings

  datatype ActivityType =
    | FlowValidate | FlowReroute | SwitchRules | IslUpdateCost
    | DeletePermission | CreatePermission | UpdatePermission
    | CreateRole | DeleteRole | UpdateRole | AssignRolesToPermission
    | CreateUser | UpdateUser | DeleteUser | AssignUsersByRole
    | ChangePassword | ResetPassword | AdminResetPassword | Reset2fa
    | UpdateUserSettings

  /** The row of the activity-type table an `ActivityType` is bound to. */
  datatype ActivityTypeEntity = ActivityTypeEntity(activityName: string)

  /** Entities attached so far; a type without an entry still has a null field. */
  type Registry = map<ActivityType, ActivityTypeEntity>

  /** `ActivityType.values()`, in declaration order. */
  const Values: seq<ActivityType> := [
    FlowValidate, FlowReroute, SwitchRules, IslUpdateCost,
    DeletePermission, CreatePermission, UpdatePermission,
    CreateRole, DeleteRole, UpdateRole, AssignRolesToPermission,
    CreateUser, UpdateUser, DeleteUser, AssignUsersByRole,
    ChangePassword, ResetPassword, AdminResetPassword, Reset2fa,
    UpdateUserSettings
  ]

  /** `getId()`: the constructor argument of each constant. */
  function Id(t: ActivityType): int {
    match t
    case FlowValidate => 1
    case FlowReroute => 2
    case SwitchRules => 3
    case IslUpdateCost => 4
    case DeletePermission => 5
    case CreatePermission => 6
    case UpdatePermission => 7
    case CreateRole => 8
    case DeleteRole => 9
    case UpdateRole => 10
    case AssignRolesToPermission => 11
    case CreateUser => 12
    case UpdateUser => 13
    case DeleteUser => 14
    case AssignUsersByRole => 15
    case ChangePassword => 16
    case ResetPassword => 17
    case AdminResetPassword => 18
    case Reset2fa => 19
    case UpdateUserSettings => 20
  }

  /** Ids run 1..20 in declaration order, and every constant is listed once. */
  lemma IdsFollowDeclarationOrder()
    ensures |Values| == 20
    ensures forall i :: 0 <= i < |Values| ==> Id(Values[i]) == i + 1
  {
  }

  /** Each constant sits at index `id - 1` of `values()`. */
  lemma PositionOf(t: ActivityType)
    ensures 1 <= Id(t) <= |Values| && Values[Id(t) - 1] == t
  {
  }

  lemma IdsDistinct(s: ActivityType, t: ActivityType)
    ensures Id(s) == Id(t) <==> s == t
  {
  }

  /** The loop of `getActivityById` over a suffix of the constants. */
  function FindById(ts: seq<ActivityType>, id: int): (r: Option<ActivityType>)
    ensures r.Some? ==> r.value in ts && Id(r.value) == id
    ensures r.None? <==> forall i :: 0 <= i < |ts| ==> Id(ts[i]) != id
    decreases |ts|
  {
    if |ts| == 0 then None
    else if Id(ts[0]) == id then Some(ts[0])
    else
      assert forall i :: 1 <= i < |ts| ==> ts[i] == ts[1..][i - 1];
      FindById(ts[1..], id)
  }

  /** `getActivityById(id)`: the constant with that id, or null (`None`). */
  function GetActivityById(id: int): (r: Option<ActivityType>)
    ensures r.Some? <==> 1 <= id <= 20
    ensures r.Some? ==> Id(r.value) == id
  {
    IdsFollowDeclarationOrder();
    assert 1 <= id <= 20 ==> Id(Values[id - 1]) == id;
    FindById(Values, id)
  }

  /**
   `setActivityTypeEntity(entity)`: the field is written only while it is
   still null; `entity` is `None` when the argument is null.
   */
  function SetActivityTypeEntity(reg: Registry, t: ActivityType, entity: Option<ActivityTypeEntity>): (reg': Registry)
    ensures t in reg ==> reg' == reg
    ensures t !in reg && entity.Some? ==> t in reg' && reg'[t] == entity.value
    ensures t !in reg && entity.None? ==> t !in reg'
    ensures forall u :: u != t ==> (u in reg' <==> u in reg) && (u in reg ==> reg'[u] == reg[u])
  {
    if t in reg then reg
    else match entity
      case Some(e) => reg[t := e]
      case None => reg
  }

  /** Once set, the entity never changes, whatever later calls pass. */
  lemma {:induction false} SetOnce(reg: Registry, t: ActivityType, first: ActivityTypeEntity,
                                   later: seq<Option<ActivityTypeEntity>>)
    requires t !in reg
    ensures var r := SetAll(SetActivityTypeEntity(reg, t, Some(first)), t, later);
            t in r && r[t] == first
    decreases |later|
  {
    if |later| > 0 {
      var r1 := SetActivityTypeEntity(reg, t, Some(first));
      assert SetActivityTypeEntity(r1, t, later[0]) == r1;
      SetOnceFrom(r1, t, later[1..]);
    }
  }

  lemma {:induction false} SetOnceFrom(reg: Registry, t: ActivityType, later: seq<Option<ActivityTypeEntity>>)
    requires t in reg
    ensures SetAll(reg, t, later) == reg
    decreases |later|
  {
    if |later| > 0 {
      SetOnceFrom(SetActivityTypeEntity(reg, t, later[0]), t, later[1..]);
    }
  }

  /** Applies successive `setActivityTypeEntity` calls to one constant. */
  function SetAll(reg: Registry, t: ActivityType, entities: seq<Option<ActivityTypeEntity>>): Registry
    decreases |entities|
  {
    if |entities| == 0 then reg
    else SetAll(SetActivityTypeEntity(reg, t, entities[0]), t, entities[1..])
  }

  /** The exception `getActivityByName` can raise: a constant whose entity is still null. */
  datatype NameLookup = Found(t: ActivityType) | NotFound | NullEntity(t: ActivityType)

  /** A constant that the scan passes over: its entity is set and its name differs. */
  predicate Skipped(reg: Registry, t: ActivityType, name: string) {
    t in reg && !EqualsIgnoreCase(reg[t].activityName, name)
  }

  /** The loop of `getActivityByName` over a suffix of the constants. */
  function FindByName(reg: Registry, ts: seq<ActivityType>, name: string): (r: NameLookup)
    ensures r.Found? ==> r.t in reg && EqualsIgnoreCase(reg[r.t].activityName, name)
    ensures r.NullEntity? ==> r.t !in reg
    ensures r.Found? || r.NullEntity? ==>
              exists k :: 0 <= k < |ts| && ts[k] == r.t && (forall j :: 0 <= j < k ==> Skipped(reg, ts[j], name))
    ensures r.NotFound? <==> forall j :: 0 <= j < |ts| ==> Skipped(reg, ts[j], name)
    decreases |ts|
  {
    if |ts| == 0 then NotFound
    else if ts[0] !in reg then NullEntity(ts[0])
    else if EqualsIgnoreCase(reg[ts[0]].activityName, name) then Found(ts[0])
    else
      var r := FindByName(reg, ts[1..], name);
      assert forall j :: 1 <= j < |ts| ==> ts[j] == ts[1..][j - 1];
      assert r.Found? || r.NullEntity? ==>
               exists k :: 0 <= k < |ts| && ts[k] == r.t && (forall j :: 0 <= j < k ==> Skipped(reg, ts[j], name)) by {
        if r.Found? || r.NullEntity? {
          var k :| 0 <= k < |ts[1..]| && ts[1..][k] == r.t
                   && forall j :: 0 <= j < k ==> Skipped(reg, ts[1..][j], name);
          assert ts[k + 1] == r.t;
          assert forall j :: 0 <= j < k + 1 ==> Skipped(reg, ts[j], name);
        }
      }
      r
  }

  /**
   `getActivityByName(name)`: the first constant in declaration order whose
   entity name equals `name` ignoring case; reaching a
   constant whose entity is unset throws a `NullPointerException`.
   */
  function GetActivityByName(reg: Registry, name: string): (r: NameLookup)
    ensures r.Found? ==> r.t in reg && EqualsIgnoreCase(reg[r.t].activityName, name)
    ensures r.NullEntity? ==> r.t !in reg
  {
    FindByName(reg, Values, name)
  }

  /** A found constant is the first match: no constant with a smaller id matches. */
  lemma GetActivityByNameFindsFirst(reg: Registry, name: string)
    ensures var r := GetActivityByName(reg, name);
            r.Found? ==> forall u :: u in reg && EqualsIgnoreCase(reg[u].activityName, name) ==> Id(r.t) <= Id(u)
  {
    var r := FindByName(reg, Values, name);
    if r.Found? {
      var k :| 0 <= k < |Values| && Values[k] == r.t && forall j :: 0 <= j < k ==> Skipped(reg, Values[j], name);
      IdsFollowDeclarationOrder();
      forall u | u in reg && EqualsIgnoreCase(reg[u].activityName, name)
        ensures Id(r.t) <= Id(u)
      {
        PositionOf(u);
      }
    }
  }

  /** The result is null exactly when every entity is set and none has the name. */
  lemma GetActivityByNameNotFound(reg: Registry, name: string)
    ensures GetActivityByName(reg, name).NotFound? <==> forall t :: Skipped(reg, t, name)
  {
    var r := FindByName(reg, Values, name);
    if forall j :: 0 <= j < |Values| ==> Skipped(reg, Values[j], name) {
      forall t ensures Skipped(reg, t, name) {
        PositionOf(t);
      }
    }
  }

  /** Once every entity is attached, the lookup never throws. */
  lemma GetActivityByNameTotal(reg: Registry, name: string)
    requires forall t :: t in reg
    ensures !GetActivityByName(reg, name).NullEntity?
  {
  }
}
