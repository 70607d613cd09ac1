/**
 * Image management (image/service.py): versions of named images, one default version
 * per name, and the web ports that images of different names must not share.
 */
module Images {
  import opened Order
  import opened Decimal
  import opened VersionKeys

  // ---- the table ---------------------------------------------------------------------

  /** Rows are keyed by a digest of name and version; no two of them collide. */
  datatype ImageId = ImageId(name: string, version: string)

  /** One entry of `access_mode`; `port` is what `int(str(port))` gives, None when that raises. */
  datatype Access = Access(name: string, port: Option<int>)

  datatype ImageRow = ImageRow(framework: Option<string>, versionKey: string, isDefault: bool, uploadedBy: string,
                               access: seq<Access>, data: map<string, string>, createdAt: string)

  type Table = map<ImageId, ImageRow>

  /** A row of the instance registry, as far as the in-use checks look; `imageName` may be empty. */
  datatype Instance = Instance(framework: string, version: string, imageName: string)

  datatype Outcome = Done | Invalid | NotFound | InUse | PortConflict

  // ---- web ports -----------------------------------------------------------------------

  const WEB_PORT_MIN := 19101
  const WEB_PORT_MAX := 19200
  const WEB: string := "web_svc_port"

  predicate GoodAccess(a: Access) { a.name == WEB ==> a.port.Some? && WEB_PORT_MIN <= a.port.value <= WEB_PORT_MAX }

  /** The web ports an access mode asks for. */
  function WebPorts(access: seq<Access>): set<int> {
    set a | a in access && a.name == WEB && a.port.Some? :: a.port.value
  }

  /** The web ports that images of other names use. */
  function Taken(t: Table, name: string): set<int> {
    set id, n | id in t && id.name != name && n in WebPorts(t[id].access) :: n
  }

  /** The two port checks of registration and update. */
  function PortCheck(t: Table, name: string, access: seq<Access>): Outcome {
    if exists a :: a in access && !GoodAccess(a) then Invalid
    else if !(WebPorts(access) !! Taken(t, name)) then PortConflict
    else Done
  }

  /** No image of another name asks for a web port that the access mode asks for. */
  ghost predicate PortsOwn(t: Table, name: string, access: seq<Access>) {
    forall a, id, b | a in access && a.name == "web_svc_port" && id in t && id.name != name && b in t[id].access && b.name == "web_svc_port" ::
      a.port.Some? && a.port != b.port
  }

  lemma PortCheckMeans(t: Table, name: string, access: seq<Access>)
    ensures PortCheck(t, name, access) == Done ==> PortsOwn(t, name, access)
    ensures PortCheck(t, name, access) == PortConflict ==> !PortsOwn(t, name, access)
  {
    if n :| n in WebPorts(access) && n in Taken(t, name) {
      var id :| id in t && id.name != name && n in WebPorts(t[id].access);
      var a :| a in access && a.name == WEB && a.port == Some(n);
      var b :| b in t[id].access && b.name == WEB && b.port == Some(n);
      assert !PortsOwn(t, name, access);
    } else {
      forall a, id, b | PortCheck(t, name, access) == Done
                        && a in access && a.name == WEB && id in t && id.name != name && b in t[id].access && b.name == WEB
        ensures a.port.Some? && a.port != b.port
      {
        assert GoodAccess(a);
        assert a.port.value in WebPorts(access);
        assert b.port.Some? ==> b.port.value in WebPorts(t[id].access);
      }
    }
  }

  // ---- defaults -------------------------------------------------------------------------

  predicate HasDefault(t: Table, name: string) { exists id :: id in t && id.name == name && t[id].isDefault }

  ghost predicate AtMostOneDefault(t: Table) {
    forall i, j | i in t && j in t && i.name == j.name && t[i].isDefault && t[j].isDefault :: i == j
  }

  ghost predicate EveryNameHasDefault(t: Table) { forall id | id in t :: HasDefault(t, id.name) }

  ghost predicate PortsSeparate(t: Table) {
    forall i, j | i in t && j in t && i.name != j.name :: WebPorts(t[i].access) !! WebPorts(t[j].access)
  }

  ghost predicate RowsWellFormed(t: Table) {
    forall id | id in t :: t[id].versionKey == VersionKey(id.version) && forall a | a in t[id].access :: GoodAccess(a)
  }

  /** What every operation keeps. */
  ghost predicate Inv(t: Table) {
    AtMostOneDefault(t) && EveryNameHasDefault(t) && PortsSeparate(t) && RowsWellFormed(t)
  }

  // ---- the operations ------------------------------------------------------------------------

  datatype Upload = Upload(framework: Option<string>, uploadedBy: string, access: seq<Access>, data: map<string, string>)

  /** The fields of an update that are not None; `data` holds those stored in the row's data. */
  datatype Change = Change(framework: Option<string>, access: Option<seq<Access>>, data: map<string, string>)

  const MUTABLE: set<string> :=
    {"description", "package_path", "image_archive_path", "runtime_spec", "env_vars", "workspace", "mounts"}

  /** The row holds exactly what was uploaded. */
  predicate Stored(row: ImageRow, up: Upload) {
    row.framework == up.framework && row.uploadedBy == up.uploadedBy && row.access == up.access && row.data == up.data
  }

  function RegisterOutcome(t: Table, id: ImageId, up: Upload): Outcome {
    if id.name == [] || id.version == [] || up.uploadedBy == [] then Invalid else PortCheck(t, id.name, up.access)
  }

  /** The row a registration writes: a known version keeps its default flag and creation time. */
  function RegisteredRow(t: Table, id: ImageId, up: Upload, now: string): ImageRow {
    ImageRow(up.framework, VersionKey(id.version), if id in t then t[id].isDefault else !HasDefault(t, id.name),
             up.uploadedBy, up.access, up.data, if id in t then t[id].createdAt else now)
  }

  predicate Falsy(s: Option<string>) { s == None || s == Some("") }

  function ShownAs(id: ImageId, framework: Option<string>): string {
    if Falsy(framework) then id.name else framework.value
  }

  /** The framework by which the row is shown: its own, or the image's name when it has none. */
  predicate ShowsAs(id: ImageId, row: ImageRow, framework: string) {
    (row.framework == Some(framework) && framework != "") || (row.framework in {None, Some("")} && framework == id.name)
  }

  /** The framework by which instances without an image name refer to the image. */
  function DisplayFramework(t: Table, id: ImageId): string
    requires id in t
  {
    ShownAs(id, t[id].framework)
  }

  predicate LegacyUse(t: Table, id: ImageId, i: Instance)
    requires id in t
  {
    i.version == id.version && i.framework == DisplayFramework(t, id) && i.imageName == []
  }

  /** The instance names the image by its primary key. */
  predicate KeyUse(id: ImageId, i: Instance) { i.version == id.version && i.imageName == id.name }

  predicate Uses(t: Table, id: ImageId, i: Instance)
    requires id in t
  {
    KeyUse(id, i) || LegacyUse(t, id, i)
  }

  function Patched(data: map<string, string>, change: map<string, string>): map<string, string> {
    data + (map k | k in change && k in MUTABLE :: change[k])
  }

  function UpdateOutcome(t: Table, id: ImageId, c: Change, instances: set<Instance>): Outcome {
    if c.framework.None? && c.access.None? && c.data == map[] then Invalid
    else if id !in t then NotFound
    else if c.access.Some? && PortCheck(t, id.name, c.access.value) != Done then PortCheck(t, id.name, c.access.value)
    else if c.framework.Some? && c.framework != t[id].framework && exists i :: i in instances && LegacyUse(t, id, i) then InUse
    else if c.framework.None? && c.access.None? && c.data.Keys !! MUTABLE then Invalid
    else Done
  }

  function UpdatedRow(row: ImageRow, c: Change): ImageRow {
    row.(framework := if c.framework.Some? then c.framework else row.framework,
         access := if c.access.Some? then c.access.value else row.access,
         data := Patched(row.data, c.data))
  }

  function DeregisterOutcome(t: Table, id: ImageId, instances: set<Instance>): Outcome {
    if id !in t then NotFound else if exists i :: i in instances && Uses(t, id, i) then InUse else Done
  }

  function WithDefault(t: Table, id: ImageId, flag: bool): Table
    requires id in t
  {
    t[id := t[id].(isDefault := flag)]
  }

  /** A version of the name whose key no other version's key exceeds. */
  predicate Latest(t: Table, id: ImageId) {
    id in t && forall j | j in t && j.name == id.name :: !StrLess(t[id].versionKey, t[j].versionKey)
  }

  /** The table after a removal: a removed default hands over to a latest remaining version. */
  ghost predicate Deregistered(t: Table, id: ImageId, t': Table)
    requires id in t
  {
    var rest := t - {id};
    if t[id].isDefault && exists j :: j in rest && j.name == id.name
    then exists j :: j in rest && j.name == id.name && Latest(rest, j) && t' == WithDefault(rest, j, true)
    else t' == rest
  }

  /** The table in which `id` is the only default of its name. */
  function SoleDefault(t: Table, id: ImageId): Table {
    map j | j in t :: if j.name == id.name then t[j].(isDefault := j == id) else t[j]
  }

  lemma SoleDefaultMeans(t: Table, id: ImageId)
    ensures var t' := SoleDefault(t, id);
      t'.Keys == t.Keys && forall j | j in t :: t'[j] == t[j].(isDefault := if j.name == id.name then j == id else t[j].isDefault)
  {
  }

  lemma DeregisteredMeans(t: Table, id: ImageId, t': Table)
    requires id in t && Deregistered(t, id, t')
    ensures t'.Keys == t.Keys - {id} && forall j | j in t' :: t'[j] == t[j].(isDefault := t'[j].isDefault)
  {
    hide Latest;
  }

  datatype Op =
    | Register(id: ImageId, up: Upload, now: string)
    | Update(id: ImageId, change: Change, instances: set<Instance>)
    | Deregister(id: ImageId, instances: set<Instance>)
    | MakeDefault(id: ImageId)

  /** One operation, from table to table. */
  ghost predicate Step(t: Table, op: Op, t': Table) {
    match op
    case Register(id, up, now) =>
      if RegisterOutcome(t, id, up) == Done then t' == t[id := RegisteredRow(t, id, up, now)] else t' == t
    case Update(id, c, instances) =>
      if UpdateOutcome(t, id, c, instances) == Done then t' == t[id := UpdatedRow(t[id], c)] else t' == t
    case Deregister(id, instances) =>
      if DeregisterOutcome(t, id, instances) == Done then Deregistered(t, id, t') else t' == t
    case MakeDefault(id) => if id in t then t' == SoleDefault(t, id) else t' == t
  }

  // ---- what every operation keeps ----------------------------------------------------------------

  lemma PortsStaySeparate(t: Table, id: ImageId, row: ImageRow)
    requires PortsSeparate(t) && WebPorts(row.access) !! Taken(t, id.name)
    ensures PortsSeparate(t[id := row])
  {
    forall j | j in t && j.name != id.name ensures WebPorts(row.access) !! WebPorts(t[j].access) {
      assert forall p | p in WebPorts(t[j].access) :: p in Taken(t, id.name);
    }
  }

  /** Access modes and version keys do not depend on which rows are default, or on which rows are gone. */
  lemma FlagsOnly(t: Table, t': Table)
    requires PortsSeparate(t) && RowsWellFormed(t) && t'.Keys <= t.Keys
    requires forall id | id in t' :: t'[id].access == t[id].access && t'[id].versionKey == t[id].versionKey
    ensures PortsSeparate(t') && RowsWellFormed(t')
  {
  }

  /** Writing one row leaves one default per name, if the row keeps its flag or is the first of its name. */
  lemma RowKeepsDefaults(t: Table, id: ImageId, row: ImageRow)
    requires AtMostOneDefault(t) && EveryNameHasDefault(t)
    requires row.isDefault == if id in t then t[id].isDefault else !HasDefault(t, id.name)
    ensures AtMostOneDefault(t[id := row]) && EveryNameHasDefault(t[id := row])
  {
  }

  lemma RegisterKeepsInv(t: Table, id: ImageId, up: Upload, now: string)
    requires Inv(t) && RegisterOutcome(t, id, up) == Done
    ensures Inv(t[id := RegisteredRow(t, id, up, now)])
  {
    var row := RegisteredRow(t, id, up, now);
    PortsStaySeparate(t, id, row);
    RowKeepsDefaults(t, id, row);
    hide PortsSeparate, AtMostOneDefault, EveryNameHasDefault, VersionKey;
  }

  /** An update touches what it names: not the default flag, the key, the uploader or fields outside the mutable ones. */
  lemma UpdateTouchesOnlyNamed(row: ImageRow, c: Change, field: string)
    ensures var after := UpdatedRow(row, c);
            && after.isDefault == row.isDefault && after.versionKey == row.versionKey
            && after.uploadedBy == row.uploadedBy && after.createdAt == row.createdAt
            && after.framework == (if c.framework.Some? then c.framework else row.framework)
            && after.access == (if c.access.Some? then c.access.value else row.access)
            && (field in after.data <==> field in row.data || (field in c.data && field in MUTABLE))
            && (field in after.data ==>
                  after.data[field] == if field in c.data && field in MUTABLE then c.data[field] else row.data[field])
            && UpdatedRow(after, c) == after
  {
    var change := map k | k in c.data && k in MUTABLE :: c.data[k];
    assert row.data + change + change == row.data + change;
  }

  /** The fields of the data that an update may change. */
  predicate IsMutable(field: string) {
    || field == "description" || field == "package_path" || field == "image_archive_path" || field == "runtime_spec"
    || field == "env_vars" || field == "workspace" || field == "mounts"
  }

  /** What an accepted update has been checked for, and what it leaves. */
  lemma UpdateMeans(t: Table, id: ImageId, c: Change, instances: set<Instance>)
    requires UpdateOutcome(t, id, c, instances) == Done
    ensures id in t && (c.access.Some? ==> PortsOwn(t, id.name, c.access.value))
    ensures c.framework.Some? && c.framework != t[id].framework ==>
              forall i | i in instances && i.version == id.version && i.imageName == "" :: !ShowsAs(id, t[id], i.framework)
    ensures var row := UpdatedRow(t[id], c);
      && row.framework == (if c.framework.Some? then c.framework else t[id].framework)
      && row.access == (if c.access.Some? then c.access.value else t[id].access)
      && forall field :: field in row.data <==> field in t[id].data || (field in c.data && IsMutable(field))
  {
    if c.access.Some? { PortCheckMeans(t, id.name, c.access.value); }
    forall i | c.framework.Some? && c.framework != t[id].framework && i in instances && i.version == id.version && i.imageName == ""
      ensures !ShowsAs(id, t[id], i.framework)
    {
      assert !LegacyUse(t, id, i);
    }
    hide PortCheck, PortsOwn;
  }

  lemma UpdateKeepsInv(t: Table, id: ImageId, c: Change)
    requires Inv(t) && id in t && (c.access.Some? ==> PortCheck(t, id.name, c.access.value) == Done)
    ensures Inv(t[id := UpdatedRow(t[id], c)])
  {
    var row := UpdatedRow(t[id], c);
    UpdateTouchesOnlyNamed(t[id], c, "");
    RowKeepsDefaults(t, id, row);
    if c.access.Some? {
      PortsStaySeparate(t, id, row);
      hide PortsSeparate, AtMostOneDefault, EveryNameHasDefault, VersionKey;
    } else {
      FlagsOnly(t, t[id := row]);
      hide PortsSeparate, AtMostOneDefault, EveryNameHasDefault, VersionKey;
    }
  }

  lemma HandOverKeepsInv(t: Table, id: ImageId, heir: ImageId)
    requires Inv(t) && id in t && t[id].isDefault && heir in t && heir != id && heir.name == id.name
    ensures Inv(WithDefault(t - {id}, heir, true))
  {
    hide PortsSeparate, RowsWellFormed;
    var t' := WithDefault(t - {id}, heir, true);
    FlagsOnly(t, t');
    assert AtMostOneDefault(t');
    hide AtMostOneDefault;
    forall j | j in t' ensures HasDefault(t', j.name) {
      var d :| d in t && d.name == j.name && t[d].isDefault;
      var e := if d == id then heir else d;
      assert e in t' && t'[e].isDefault;
    }
    hide HasDefault;
  }

  lemma RemovalKeepsInv(t: Table, id: ImageId)
    requires Inv(t) && id in t && (t[id].isDefault ==> forall j | j in t && j != id :: j.name != id.name)
    ensures Inv(t - {id})
  {
  }

  lemma DeregisterKeepsInv(t: Table, id: ImageId, t': Table)
    requires Inv(t) && id in t && Deregistered(t, id, t')
    ensures Inv(t')
  {
    hide Inv, Latest;
    var rest := t - {id};
    if t[id].isDefault && exists j :: j in rest && j.name == id.name {
      var heir :| heir in rest && heir.name == id.name && Latest(rest, heir) && t' == WithDefault(rest, heir, true);
      HandOverKeepsInv(t, id, heir);
    } else {
      assert t[id].isDefault ==> forall j | j in t && j != id :: j.name != id.name by {
        assert forall j | j in t && j != id :: j in rest;
      }
      RemovalKeepsInv(t, id);
    }
  }

  lemma SoleDefaultKeepsInv(t: Table, id: ImageId)
    requires Inv(t) && id in t
    ensures Inv(SoleDefault(t, id))
  {
    hide PortsSeparate, RowsWellFormed;
    var t' := SoleDefault(t, id);
    FlagsOnly(t, t');
    forall j | j in t' ensures HasDefault(t', j.name) {
      if j.name == id.name {
        assert id in t' && t'[id].isDefault;
      } else {
        var d :| d in t && d.name == j.name && t[d].isDefault;
        assert d in t' && t'[d].isDefault;
      }
    }
    hide HasDefault;
  }

  lemma StepKeepsInv(t: Table, op: Op, t': Table)
    requires Inv(t) && Step(t, op, t')
    ensures Inv(t')
  {
    hide Inv, Deregistered, SoleDefault, RegisteredRow, UpdatedRow, PortCheck;
    match op
    case Register(id, up, now) => if RegisterOutcome(t, id, up) == Done { RegisterKeepsInv(t, id, up, now); }
    case Update(id, c, instances) => if UpdateOutcome(t, id, c, instances) == Done { UpdateKeepsInv(t, id, c); }
    case Deregister(id, instances) =>
      if DeregisterOutcome(t, id, instances) == Done { DeregisterKeepsInv(t, id, t'); }
    case MakeDefault(id) => if id in t { SoleDefaultKeepsInv(t, id); }
  }

  /** A sequential run from the empty table. */
  ghost predicate Run(tables: seq<Table>, ops: seq<Op>) {
    && |tables| == |ops| + 1 && tables[0] == map[]
    && forall i | 0 <= i < |ops| :: Step(tables[i], ops[i], tables[i + 1])
  }

  /** After every operation each name with rows has exactly one default, and names share no web port. */
  lemma {:induction false} RunKeepsInv(tables: seq<Table>, ops: seq<Op>, i: nat)
    requires Run(tables, ops) && i < |tables|
    ensures Inv(tables[i])
  {
    if i > 0 {
      RunKeepsInv(tables, ops, i - 1);
      StepKeepsInv(tables[i - 1], ops[i - 1], tables[i]);
    }
  }

  // ---- the promoted default is a greatest version --------------------------------------------------

  /** Not a version, or one whose components have at most five digits. */
  predicate FiveDigits(version: string) { Parse(version).Some? ==> Below(Parse(version).value, 100000) }

  /**
   * With components of at most five digits, a version that becomes default is no older
   * than any remaining one, and it is a version unless none of the remaining is.
   */
  lemma PromotedIsGreatest(t: Table, id: ImageId, other: ImageId)
    requires RowsWellFormed(t) && Latest(t, id) && other in t && other.name == id.name
    requires FiveDigits(id.version) && FiveDigits(other.version)
    ensures Parse(other.version).Some? ==> Parse(id.version).Some? && !Older(Parse(id.version).value, Parse(other.version).value)
  {
    hide VersionKeys.Key, Parse, StrLess, Older;
    if Parse(other.version).Some? {
      if Parse(id.version).Some? {
        KeyOrder(Parse(id.version).value, Parse(other.version).value);
      } else {
        NoVersionFirst(Parse(other.version).value);
      }
    }
  }

  /** Registering the same version again, whenever, is accepted and changes nothing: the upsert is idempotent. */
  lemma RegisterIdempotent(t: Table, id: ImageId, up: Upload, now: string, later: string)
    requires RegisterOutcome(t, id, up) == Done
    ensures var t' := t[id := RegisteredRow(t, id, up, now)];
            RegisterOutcome(t', id, up) == Done && t'[id := RegisteredRow(t', id, up, later)] == t'
  {
    var t' := t[id := RegisteredRow(t, id, up, now)];
    assert Taken(t', id.name) == Taken(t, id.name) by { TakenByOthers(t, id, t'[id]); }
  }

  lemma TakenByOthers(t: Table, id: ImageId, row: ImageRow)
    ensures Taken(t[id := row], id.name) == Taken(t, id.name)
  {
    hide WebPorts;
    var t' := t[id := row];
    forall n ensures n in Taken(t', id.name) <==> n in Taken(t, id.name) {
      if n in Taken(t, id.name) {
        var j :| j in t && j.name != id.name && n in WebPorts(t[j].access);
        assert j in t' && n in WebPorts(t'[j].access);
      }
      if n in Taken(t', id.name) {
        var j :| j in t' && j.name != id.name && n in WebPorts(t'[j].access);
        assert j in t && n in WebPorts(t[j].access);
      }
    }
  }

  // ---- references of instances ----------------------------------------------------------------------

  /** The instances an operation's guard looked at; the others have none. */
  predicate Seen(op: Op, i: Instance) {
    match op
    case Update(_, _, instances) => i in instances
    case Deregister(_, instances) => i in instances
    case _ => true
  }

  /** A registration that goes through and shows a known image under another framework. */
  predicate Renames(t: Table, op: Op, id: ImageId)
    requires id in t
  {
    && op.Register? && op.id == id && RegisterOutcome(t, id, op.up) == Done
    && ShownAs(id, op.up.framework) != DisplayFramework(t, id)
  }

  lemma DeregisteredKeeps(t: Table, gone: ImageId, t': Table, id: ImageId)
    requires gone in t && Deregistered(t, gone, t') && id in t && id != gone
    ensures id in t' && t'[id].framework == t[id].framework
  {
    hide Latest;
    assert id in t - {gone};
  }

  /**
   * Which operations keep an instance's reference to an image: all of them, with the one
   * exception of a registration that renames the image under an instance without an image
   * name. `update_image` and `deregister` refuse exactly what would break a reference.
   */
  lemma ReferenceKeptIff(t: Table, op: Op, t': Table, id: ImageId, i: Instance)
    requires Step(t, op, t') && id in t && Uses(t, id, i) && Seen(op, i)
    ensures (id in t' && Uses(t', id, i)) <==> KeyUse(id, i) || !Renames(t, op, id)
  {
    hide RegisterOutcome, PortCheck, Latest;
    match op {
      case Register(_, _, _) =>
      case Update(_, _, _) =>
      case Deregister(gone, instances) =>
        if DeregisterOutcome(t, gone, instances) == Done {
          assert id != gone;
          DeregisteredKeeps(t, gone, t', id);
        }
      case MakeDefault(_) =>
    }
  }

  /** The exception occurs: what an update refuses as in use, a registration of the same version does. */
  lemma ReregistrationSkipsGuard(t: Table, id: ImageId, i: Instance, f: string, up: Upload)
    requires id in t && LegacyUse(t, id, i) && t[id].framework != Some(f)
    requires up.framework == Some(f) && RegisterOutcome(t, id, up) == Done
    ensures UpdateOutcome(t, id, Change(Some(f), None, map[]), {i}) == InUse
    ensures Renames(t, Register(id, up, ""), id) <==> ShownAs(id, Some(f)) != DisplayFramework(t, id)
  {
  }

  // ---- the service, write by write ------------------------------------------------------------------

  ghost predicate Greatest(t: Table, candidates: set<ImageId>, id: ImageId)
    requires candidates <= t.Keys
  {
    id in candidates && forall j | j in candidates :: !StrLess(t[id].versionKey, t[j].versionKey)
  }

  lemma {:induction false} GreatestExists(t: Table, candidates: set<ImageId>)
    requires candidates != {} && candidates <= t.Keys
    ensures exists id :: Greatest(t, candidates, id)
  {
    hide StrLess;
    var c :| c in candidates;
    StrIrreflexive(t[c].versionKey);
    var others := candidates - {c};
    if others == {} {
      assert candidates == {c};
      assert Greatest(t, candidates, c);
    } else {
      GreatestExists(t, others);
      var g :| Greatest(t, others, g);
      if StrLess(t[g].versionKey, t[c].versionKey) {
        forall j | j in candidates ensures !StrLess(t[c].versionKey, t[j].versionKey) {
          if StrLess(t[c].versionKey, t[j].versionKey) {
            StrTransitive(t[g].versionKey, t[c].versionKey, t[j].versionKey);
          }
        }
        assert Greatest(t, candidates, c);
      } else {
        assert Greatest(t, candidates, g);
      }
    }
  }

  class ImageService {
    var rows: Table
    /** The table after every single write so far, the present one last. */
    ghost var history: seq<Table>

    /** The invariant holds now, and no single write ever left two defaults of a name. */
    ghost predicate Valid()
      reads this
    {
      Recorded() && Inv(rows)
    }

    ghost predicate Recorded()
      reads this
    {
      history != [] && history[|history| - 1] == rows && forall t | t in history :: AtMostOneDefault(t)
    }

    constructor ()
      ensures Valid() && rows == map[]
    {
      rows := map[];
      history := [map[]];
    }

    /** One write to the table: `register` or `patch` of one row. */
    method WriteRow(id: ImageId, row: ImageRow)
      requires Recorded() && AtMostOneDefault(rows[id := row])
      modifies this
      ensures Recorded() && rows == old(rows)[id := row] && history == old(history) + [rows]
    {
      rows := rows[id := row];
      history := history + [rows];
    }

    method RemoveRow(id: ImageId)
      requires Recorded()
      modifies this
      ensures Recorded() && rows == old(rows) - {id} && history == old(history) + [rows]
    {
      assert AtMostOneDefault(rows);
      rows := rows - {id};
      history := history + [rows];
    }

    /** `_validate_web_ports`: None when it raises, else the normalised ports. */
    method ValidateWebPorts(access: seq<Access>) returns (ports: Option<seq<string>>)
      ensures ports.None? <==> exists a :: a in access && !GoodAccess(a)
      ensures ports.None? <==> exists a :: a in access && a.name == "web_svc_port" && (a.port.None? || a.port.value < 19101 || 19200 < a.port.value)
      ensures ports.Some? ==> forall p :: p in ports.value <==> exists n | n in WebPorts(access) :: p == Render(n)
    {
      var found: seq<string> := [];
      ghost var numbers: seq<int> := [];
      for i := 0 to |access|
        invariant forall j | 0 <= j < i :: GoodAccess(access[j])
        invariant |numbers| == |found| && forall j | 0 <= j < |found| :: found[j] == Render(numbers[j])
        invariant forall n :: n in numbers <==> n in WebPorts(access[..i])
      {
        assert access[..i + 1] == access[..i] + [access[i]];
        assert access[i] in access;
        MoreWebPorts(access[..i], access[i]);
        if access[i].name != WEB { continue; }
        if access[i].port.None? { return None; }
        var port := access[i].port.value;
        if !(WEB_PORT_MIN <= port <= WEB_PORT_MAX) { return None; }
        found := found + [Render(port)];
        numbers := numbers + [port];
      }
      assert access[..|access|] == access;
      return Some(found);
    }

    /** `_assert_ports_free`: is every port unused by images of other names? */
    method PortsFree(name: string, ports: seq<string>) returns (free: bool)
      ensures free <==> forall n | n in Taken(rows, name) :: Render(n) !in ports
    {
      if ports == [] { return true; }
      var used: set<string> := {};
      ghost var numbers: set<int> := {};
      var todo := rows.Keys;
      while todo != {}
        invariant todo <= rows.Keys
        invariant forall n :: n in numbers <==> exists id | id in rows && id !in todo && id.name != name :: n in WebPorts(rows[id].access)
        invariant used == set n | n in numbers :: Render(n)
        decreases |todo|
      {
        var id :| id in todo;
        todo := todo - {id};
        if id.name != name {
          used := used + set a | a in rows[id].access && a.name == WEB && a.port.Some? :: Render(a.port.value);
          numbers := numbers + WebPorts(rows[id].access);
        }
      }
      assert forall n :: n in numbers <==> n in Taken(rows, name);
      return forall p | p in ports :: p !in used;
    }

    /** Both checks, as `register_image` and `update_image` run them. */
    method CheckPorts(name: string, access: seq<Access>) returns (o: Outcome)
      ensures o == PortCheck(rows, name, access)
      ensures o == Done ==> PortsOwn(rows, name, access)
      ensures o == PortConflict ==> !PortsOwn(rows, name, access)
    {
      PortCheckMeans(rows, name, access);
      hide PortsOwn;
      var ports := ValidateWebPorts(access);
      if ports.None? { return Invalid; }
      var free := PortsFree(name, ports.value);
      assert free <==> WebPorts(access) !! Taken(rows, name) by {
        forall n, m | n in WebPorts(access) && m in Taken(rows, name) && Render(n) == Render(m) ensures n == m {
          RenderInjective(n, m);
        }
        hide Render, WebPorts, Taken;
      }
      return if free then Done else PortConflict;
    }

    method RegisterImage(id: ImageId, up: Upload, now: string) returns (o: Outcome)
      requires Valid()
      modifies this
      ensures Valid() && old(history) <= history
      ensures o == RegisterOutcome(old(rows), id, up) && Step(old(rows), Register(id, up, now), rows)
      ensures o == Done ==> id in rows && rows == old(rows)[id := rows[id]] && Stored(rows[id], up) && rows[id].versionKey == VersionKey(id.version)
      ensures o == Done && id in old(rows) ==> rows[id].isDefault == old(rows)[id].isDefault && rows[id].createdAt == old(rows)[id].createdAt
      ensures o == Done && id !in old(rows) ==> rows[id].createdAt == now && (rows[id].isDefault <==> forall j | j in old(rows) && j.name == id.name :: !old(rows)[j].isDefault)
      ensures o != Done ==> rows == old(rows)
      ensures o == Done ==> id.name != "" && id.version != "" && up.uploadedBy != "" && PortsOwn(old(rows), id.name, up.access)
    {
      if id.name == [] || id.version == [] { return Invalid; }
      if up.uploadedBy == [] { return Invalid; }
      o := CheckPorts(id.name, up.access);
      if o != Done { return; }
      var row := ImageRow(up.framework, VersionKey(id.version), true, up.uploadedBy, up.access, up.data, now);
      if id in rows {
        row := row.(isDefault := rows[id].isDefault, createdAt := rows[id].createdAt);
      } else {
        row := row.(isDefault := !HasDefault(rows, id.name));
      }
      assert row == RegisteredRow(rows, id, up, now);
      RegisterKeepsInv(rows, id, up, now);
      hide RegisteredRow, RegisterOutcome;
      WriteRow(id, row);
    }

    method UpdateImage(id: ImageId, c: Change, instances: set<Instance>) returns (o: Outcome)
      requires Valid()
      modifies this
      ensures Valid() && old(history) <= history
      ensures o == UpdateOutcome(old(rows), id, c, instances) && Step(old(rows), Update(id, c, instances), rows)
      ensures o == Done ==> id in old(rows) && id in rows && rows == old(rows)[id := rows[id]]
                            && rows[id].framework == (if c.framework.Some? then c.framework else old(rows)[id].framework)
                            && rows[id].access == (if c.access.Some? then c.access.value else old(rows)[id].access)
      ensures o == Done ==> forall field ::
                field in rows[id].data <==> field in old(rows)[id].data || (field in c.data && IsMutable(field))
      ensures o == Done && c.access.Some? ==> PortsOwn(old(rows), id.name, c.access.value)
      ensures o == Done && c.framework.Some? && c.framework != old(rows)[id].framework ==>
                forall i | i in instances && i.version == id.version && i.imageName == "" :: !ShowsAs(id, old(rows)[id], i.framework)
      ensures o != Done ==> rows == old(rows)
    {
      if c.framework.None? && c.access.None? && c.data == map[] { return Invalid; }
      if id !in rows { return NotFound; }
      if c.access.Some? {
        o := CheckPorts(id.name, c.access.value);
        if o != Done { return; }
      }
      var row := rows[id];
      if c.framework.Some? && c.framework != row.framework {
        if exists i :: i in instances && LegacyUse(rows, id, i) { return InUse; }
      }
      if c.framework.None? && c.access.None? && c.data.Keys !! MUTABLE { return Invalid; }
      UpdateKeepsInv(rows, id, c);
      assert UpdateOutcome(rows, id, c, instances) == Done;
      UpdateMeans(rows, id, c, instances);
      hide PortCheck, Inv, PortsOwn, ShowsAs, UpdatedRow, UpdateOutcome;
      WriteRow(id, UpdatedRow(row, c));
      return Done;
    }

    method DeregisterImage(id: ImageId, instances: set<Instance>) returns (o: Outcome)
      requires Valid()
      modifies this
      ensures Valid() && old(history) <= history
      ensures o == DeregisterOutcome(old(rows), id, instances) && Step(old(rows), Deregister(id, instances), rows)
      ensures o == Done ==> id in old(rows) && rows.Keys == old(rows).Keys - {id} && forall j | j in rows :: rows[j] == old(rows)[j].(isDefault := rows[j].isDefault)
      ensures o == Done ==> forall i | i in instances && i.version == id.version ::
                i.imageName != id.name && !(i.imageName == "" && ShowsAs(id, old(rows)[id], i.framework))
      ensures o == InUse ==> exists i :: i in instances && i.version == id.version
                                         && (i.imageName == id.name || (i.imageName == "" && ShowsAs(id, old(rows)[id], i.framework)))
      ensures o != Done ==> rows == old(rows)
    {
      if id !in rows { return NotFound; }
      var wasDefault := rows[id].isDefault;
      if exists i :: i in instances && Uses(rows, id, i) { return InUse; }
      ghost var before := rows;
      RemoveRow(id);
      if wasDefault {
        PromoteLatestDefault(before, id);
      }
      DeregisterKeepsInv(before, id, rows);
      DeregisteredMeans(before, id, rows);
      hide Inv, Deregistered;
      return Done;
    }

    /** `_sort_versions(rows)[0]` on the rows of a name: one with a greatest key. */
    method LatestOf(name: string) returns (latest: Option<ImageId>)
      ensures latest.None? <==> forall j | j in rows :: j.name != name
      ensures latest.Some? ==> latest.value.name == name && Latest(rows, latest.value)
    {
      var named := set id | id in rows && id.name == name;
      assert forall j :: j in named <==> j in rows && j.name == name;
      if named == {} { return None; }
      GreatestExists(rows, named);
      hide StrLess;
      var id :| id in named && forall j | j in named :: !StrLess(rows[id].versionKey, rows[j].versionKey);
      return Some(id);
    }

    /** `_promote_latest_default`, after the default `gone` has been removed. */
    method PromoteLatestDefault(ghost before: Table, gone: ImageId)
      requires Recorded() && Inv(before) && gone in before && before[gone].isDefault && rows == before - {gone}
      modifies this
      ensures Recorded() && old(history) <= history && Deregistered(before, gone, rows)
    {
      var latest := LatestOf(gone.name);
      if latest.None? { return; }
      var heir := latest.value;
      assert heir in before - {gone} by { hide StrLess; }
      HandOverKeepsInv(before, gone, heir);
      hide Latest, Recorded, AtMostOneDefault, HasDefault, PortsSeparate, RowsWellFormed, EveryNameHasDefault;
      WriteRow(heir, rows[heir].(isDefault := true));
    }

    /** The first half of `set_default`: no version of the name is default any more. */
    method ClearDefaults(name: string)
      requires Recorded()
      modifies this
      ensures Recorded() && old(history) <= history && rows.Keys == old(rows).Keys
      ensures forall j | j in rows :: rows[j] == if j.name == name then old(rows)[j].(isDefault := false) else old(rows)[j]
    {
      ghost var before := rows;
      assert AtMostOneDefault(rows);
      var todo := set j | j in rows && j.name == name;
      assert Cleared(before, rows, name, todo);
      hide AtMostOneDefault, Recorded, Cleared;
      while todo != {}
        invariant Recorded() && AtMostOneDefault(rows) && old(history) <= history
        invariant Cleared(before, rows, name, todo)
        decreases |todo|
      {
        var r :| r in todo;
        ClearedStep(before, rows, name, todo, r);
        todo := todo - {r};
        if rows[r].isDefault {
          ClearingKeepsOne(rows, r);
          WriteRow(r, rows[r].(isDefault := false));
        }
      }
      ClearedEnd(before, rows, name);
    }

    /** The writes of `set_default`, for a version that exists. */
    method MoveDefault(id: ImageId)
      requires Valid() && id in rows
      modifies this
      ensures Valid() && old(history) <= history && rows == SoleDefault(old(rows), id)
    {
      hide SoleDefault, Recorded, AtMostOneDefault, HasDefault, PortsSeparate, RowsWellFormed, EveryNameHasDefault;
      ghost var before := rows;
      SoleDefaultKeepsInv(before, id);
      ClearDefaults(id.name);
      ClearedThenSet(before, rows, id);
      WriteRow(id, rows[id].(isDefault := true));
    }

    method SetDefault(id: ImageId) returns (o: Outcome)
      requires Valid()
      modifies this
      ensures Valid() && old(history) <= history
      ensures o == (if id in old(rows) then Done else NotFound) && Step(old(rows), MakeDefault(id), rows)
      ensures rows.Keys == old(rows).Keys
      ensures o == Done ==> forall j | j in rows :: rows[j] == old(rows)[j].(isDefault := if j.name == id.name then j == id else old(rows)[j].isDefault)
    {
      hide SoleDefault, Recorded, Inv;
      if id !in rows { return NotFound; }
      SoleDefaultMeans(rows, id);
      MoveDefault(id);
      return Done;
    }

    /** `get_default_version`: None when the name has no rows; its fallback is never needed. */
    method GetDefaultVersion(name: string) returns (version: Option<string>)
      requires Valid()
      ensures version.None? <==> forall id | id in rows :: id.name != name
      ensures version.Some? ==> forall id | id in rows && id.name == name :: rows[id].isDefault <==> id.version == version.value
    {
      if forall id | id in rows :: id.name != name { return None; }
      assert HasDefault(rows, name);
      var d :| d in rows && d.name == name && rows[d].isDefault;
      return Some(d.version);
    }
  }

  /** Half-way through clearing the defaults of a name. */
  ghost predicate Cleared(t: Table, now: Table, name: string, todo: set<ImageId>) {
    && todo <= now.Keys == t.Keys
    && (forall j | j in todo :: j.name == name)
    && forall j | j in t :: now[j] == if j.name == name && j !in todo then t[j].(isDefault := false) else t[j]
  }

  lemma ClearedStep(t: Table, now: Table, name: string, todo: set<ImageId>, r: ImageId)
    requires Cleared(t, now, name, todo) && r in todo
    ensures r in now
    ensures Cleared(t, if now[r].isDefault then now[r := now[r].(isDefault := false)] else now, name, todo - {r})
  {
  }

  lemma ClearedEnd(t: Table, now: Table, name: string)
    requires Cleared(t, now, name, {})
    ensures now.Keys == t.Keys
    ensures forall j | j in t :: now[j] == if j.name == name then t[j].(isDefault := false) else t[j]
  {
  }

  lemma ClearedThenSet(t: Table, cleared: Table, id: ImageId)
    requires id in t && cleared.Keys == t.Keys
    requires forall j | j in t :: cleared[j] == if j.name == id.name then t[j].(isDefault := false) else t[j]
    ensures cleared[id := cleared[id].(isDefault := true)] == SoleDefault(t, id)
  {
  }

  lemma ClearingKeepsOne(t: Table, id: ImageId)
    requires id in t && AtMostOneDefault(t)
    ensures AtMostOneDefault(t[id := t[id].(isDefault := false)])
  {
  }

  lemma MoreWebPorts(access: seq<Access>, a: Access)
    ensures WebPorts(access + [a]) == WebPorts(access) + if a.name == WEB && a.port.Some? then {a.port.value} else {}
  {
  }
}
