/**
 * The etcd key space as the registry sees it (register/etcd_client.py) and the table
 * repository on top of it (register/etcd_repo.py): many clients, each remote call one
 * step, `patch` a read followed by a compare-and-swap.
 */
module EtcdStore {
  import opened Order

  // ---- the store --------------------------------------------------------------------

  datatype Value = Null | Num(n: int) | Text(s: string)

  /** A row: its promoted columns and the members of its `data` (empty when it has none). */
  datatype Row = Row(columns: map<string, Value>, data: map<string, Value>)

  /** What a key holds: a row, or the kind of a registry. */
  datatype Stored = Entry(row: Row) | Kind(kind: string)

  datatype Cell = Cell(value: Stored, mod: nat)

  /** `revision` is the store's revision counter, raised by every write. */
  datatype Store = Store(cells: map<string, Cell>, revision: nat)

  ghost predicate Valid(s: Store) { forall k | k in s.cells :: 1 <= s.cells[k].mod <= s.revision }

  function Put(s: Store, key: string, v: Stored): Store {
    Store(s.cells[key := Cell(v, s.revision + 1)], s.revision + 1)
  }

  function ModRevision(s: Store, key: string): nat { if key in s.cells then s.cells[key].mod else 0 }

  /** `put` with a `mod_revision`: the transaction's compare, then the write. */
  function PutIf(s: Store, key: string, v: Stored, rev: nat): (Store, bool) {
    if ModRevision(s, key) == rev then (Put(s, key, v), true) else (s, false)
  }

  /** `create`: a write guarded by "the key does not exist". */
  function Create(s: Store, key: string, v: Stored): (Store, bool) {
    if key in s.cells then (s, false) else (Put(s, key, v), true)
  }

  function Delete(s: Store, key: string): (Store, bool) {
    if key in s.cells then (Store(s.cells - {key}, s.revision + 1), true) else (s, false)
  }

  // ---- keys ---------------------------------------------------------------------------

  const META: string := "_meta"

  function RowKey(registry: string, sid: string): string { registry + "/" + sid }
  function MetaKey(name: string): string { META + "/" + name }

  const KINDS: set<string> := {"service", "image", "instance"}

  /** The promoted columns of a kind (`_KIND_PROMOTED`). */
  function Promoted(kind: string): set<string> {
    match kind
    case "service" => {"type", "source", "name", "description"}
    case "image" => {"name", "framework", "version", "version_key", "is_default", "uploaded_by"}
    case "instance" => {"kind", "framework", "framework_version", "node", "user"}
    case _ => {}
  }

  predicate Reserved(name: string) { name != [] && name[0] == '_' }

  /** `get_kind` */
  function GetKind(s: Store, name: string): Option<string> {
    var key := MetaKey(name);
    if key in s.cells && s.cells[key].value.Kind? then Some(s.cells[key].value.kind) else None
  }

  // ---- patches ---------------------------------------------------------------------------

  datatype Fields = Fields(columns: map<string, Value>, data: Option<map<string, Value>>)

  /** `patch` refuses an unknown registry, no fields at all, and columns the kind does not have. */
  predicate PatchAllowed(kind: Option<string>, f: Fields) {
    kind.Some? && (f.columns != map[] || f.data.Some?) && f.columns.Keys <= Promoted(kind.value)
  }

  /** The fields a patch names replace the row's, the others stay; `data` is replaced whole. */
  function Merged(row: Row, f: Fields): Row {
    Row(row.columns + f.columns, if f.data.Some? then f.data.value else row.data)
  }

  /** A patch as one indivisible operation. */
  function AtomicPatch(s: Store, key: string, f: Fields): Store {
    if key in s.cells && s.cells[key].value.Entry? then Put(s, key, Entry(Merged(s.cells[key].value.row, f))) else s
  }

  predicate Falsy(v: Option<Value>) { v == None || v == Some(Null) || v == Some(Num(0)) || v == Some(Text("")) }

  function Lookup(m: map<string, Value>, k: string): Option<Value> { if k in m then Some(m[k]) else None }

  /** The row `register` writes: a stored `created_at` wins, `updated_at` is refreshed. */
  function Registered(existing: Option<Row>, entry: Row, now: string): Row {
    if existing.None? then entry
    else
      var stored := existing.value.columns;
      var created := if Falsy(Lookup(stored, "created_at")) then Lookup(entry.columns, "created_at") else Lookup(stored, "created_at");
      var c1 := if "created_at" in entry.columns || "created_at" in stored
        then entry.columns["created_at" := if created.Some? then created.value else Null] else entry.columns;
      entry.(columns := if "updated_at" in c1 then c1["updated_at" := Text(now)] else c1)
  }

  /** Registering over a row keeps its creation time and takes everything else from the new entry. */
  lemma RegisterKeepsCreation(existing: Row, entry: Row, now: string, column: string)
    requires !Falsy(Lookup(existing.columns, "created_at"))
    ensures var r := Registered(Some(existing), entry, now);
            && Lookup(r.columns, "created_at") == Lookup(existing.columns, "created_at")
            && Lookup(r.columns, "updated_at") == (if "updated_at" in entry.columns then Some(Text(now)) else None)
            && (column != "created_at" && column != "updated_at" ==> Lookup(r.columns, column) == Lookup(entry.columns, column))
            && r.data == entry.data
  {
  }

  // ---- clients and steps --------------------------------------------------------------------

  /** A client between its two remote calls. */
  datatype Pending =
    | Patching(key: string, fields: Fields, current: Row, rev: nat)
    | Registering(key: string, row: Row)

  datatype System = System(store: Store, pending: map<nat, Pending>)

  datatype Step =
    | CreateRegistry(name: string, kind: string)
    | RegisterRead(client: nat, name: string, sid: string, entry: Row, now: string)
    | RegisterPut(client: nat)
    | PatchRead(client: nat, name: string, sid: string, fields: Fields)
    | PatchCommit(client: nat)
    | Deregister(name: string, sid: string)

  /** One step of one client. A call that raises leaves everything as it was. */
  function Do(y: System, step: Step): System {
    var s := y.store;
    match step
    case CreateRegistry(name, kind) =>
      if kind !in KINDS || Reserved(name) then y else y.(store := Create(s, MetaKey(name), Kind(kind)).0)
    case RegisterRead(c, name, sid, entry, now) =>
      if GetKind(s, name).None? || sid == [] then y
      else
        var key := RowKey(name, sid);
        var existing := if key in s.cells && s.cells[key].value.Entry? then Some(s.cells[key].value.row) else None;
        y.(pending := y.pending[c := Registering(key, Registered(existing, entry, now))])
    case RegisterPut(c) =>
      if c in y.pending && y.pending[c].Registering?
      then System(Put(s, y.pending[c].key, Entry(y.pending[c].row)), y.pending - {c}) else y
    case PatchRead(c, name, sid, fields) =>
      var key := RowKey(name, sid);
      if !PatchAllowed(GetKind(s, name), fields) || key !in s.cells || s.cells[key].value.Kind? then y
      else y.(pending := y.pending[c := Patching(key, fields, s.cells[key].value.row, s.cells[key].mod)])
    case PatchCommit(c) =>
      if c in y.pending && y.pending[c].Patching?
      then var p := y.pending[c]; System(PutIf(s, p.key, Entry(Merged(p.current, p.fields)), p.rev).0, y.pending - {c}) else y
    case Deregister(name, sid) => y.(store := Delete(s, RowKey(name, sid)).0)
  }

  function Run(y: System, steps: seq<Step>): System {
    if steps == [] then y else Do(Run(y, steps[..|steps| - 1]), steps[|steps| - 1])
  }

  /** Does this commit find the revision it read? */
  predicate Commits(y: System, c: nat) {
    c in y.pending && y.pending[c].Patching? && ModRevision(y.store, y.pending[c].key) == y.pending[c].rev
  }

  // ---- what every step keeps -------------------------------------------------------------------

  /** A pending patch holds the value that belongs to the revision it read. */
  ghost predicate Fresh(s: Store, p: Pending) {
    p.Patching? ==> 1 <= p.rev <= s.revision
                    && (ModRevision(s, p.key) == p.rev ==> s.cells[p.key].value == Entry(p.current))
  }

  ghost predicate Inv(y: System) {
    && Valid(y.store)
    && (forall c | c in y.pending :: Fresh(y.store, y.pending[c]) && !(META + "/" <= y.pending[c].key))
    && (forall name | MetaKey(name) in y.store.cells :: !Reserved(name))
  }

  lemma MetaKeyInjective(a: string, b: string)
    requires MetaKey(a) == MetaKey(b)
    ensures a == b
  {
    assert MetaKey(a)[6..] == a && MetaKey(b)[6..] == b;
  }

  /** Rows of a registry whose name is not reserved stay clear of the metadata. */
  lemma RowsClearOfMeta(name: string, sid: string)
    requires !Reserved(name)
    ensures !(META + "/" <= RowKey(name, sid))
  {
    assert (META + "/")[0] == '_';
    assert RowKey(name, sid)[0] == if name == [] then '/' else name[0];
  }

  lemma InitialInv()
    ensures Inv(System(Store(map[], 0), map[]))
  {
  }

  lemma WritesKeepInv(y: System, key: string, v: Stored)
    requires Inv(y)
    requires forall name | MetaKey(name) == key :: !Reserved(name)
    ensures Inv(y.(store := Put(y.store, key, v)))
  {
  }

  lemma StepKeepsInv(y: System, step: Step)
    requires Inv(y)
    ensures Inv(Do(y, step))
  {
    match step
    case CreateRegistry(name, kind) =>
      forall n | MetaKey(n) == MetaKey(name) ensures n == name { MetaKeyInjective(n, name); }
      if !Reserved(name) { WritesKeepInv(y, MetaKey(name), Kind(kind)); }
    case RegisterRead(c, name, sid, _, _) =>
      if GetKind(y.store, name).Some? { RowsClearOfMeta(name, sid); }
    case PatchRead(c, name, sid, _) =>
      if GetKind(y.store, name).Some? { RowsClearOfMeta(name, sid); }
    case RegisterPut(c) =>
      if c in y.pending && y.pending[c].Registering? { WritesKeepInv(y, y.pending[c].key, Entry(y.pending[c].row)); }
    case PatchCommit(c) =>
      if Commits(y, c) { WritesKeepInv(y, y.pending[c].key, Entry(Merged(y.pending[c].current, y.pending[c].fields))); }
    case Deregister(_, _) =>
  }

  lemma {:induction false} RunKeepsInv(y: System, steps: seq<Step>)
    requires Inv(y)
    ensures Inv(Run(y, steps))
  {
    if steps != [] {
      RunKeepsInv(y, steps[..|steps| - 1]);
      StepKeepsInv(Run(y, steps[..|steps| - 1]), steps[|steps| - 1]);
    }
  }

  // ---- patches are atomic ------------------------------------------------------------------------

  /** Nothing but one key differs. */
  ghost predicate OnlyAt(s: Store, t: Store, key: string) {
    forall k | k != key :: (k in t.cells <==> k in s.cells) && (k in s.cells ==> t.cells[k] == s.cells[k])
  }

  ghost predicate HasRow(s: Store, key: string) { key in s.cells && s.cells[key].value.Entry? }

  /** The fields a patch names have the patch's values, every other column and the data unless named are the row's. */
  ghost predicate PatchedBy(was: Row, row: Row, fields: Fields) {
    && (forall column :: column in row.columns <==> column in was.columns || column in fields.columns)
    && (forall column | column in fields.columns :: row.columns[column] == fields.columns[column])
    && (forall column | column in was.columns && column !in fields.columns :: row.columns[column] == was.columns[column])
    && (fields.data.Some? ==> row.data == fields.data.value) && (fields.data.None? ==> row.data == was.data)
  }

  /** The patch is written over the row of that moment, and nothing else changes. */
  ghost predicate Patches(s: Store, t: Store, key: string, fields: Fields) {
    && HasRow(s, key) && HasRow(t, key) && OnlyAt(s, t, key)
    && PatchedBy(s.cells[key].value.row, t.cells[key].value.row, fields)
  }

  /** What the atomic patch of a row is. */
  lemma AtomicPatchWrites(s: Store, key: string, fields: Fields)
    requires HasRow(s, key)
    ensures Patches(s, AtomicPatch(s, key, fields), key, fields)
  {
  }

  /** In every reachable state a commit is the atomic patch of that moment, or it changes nothing. */
  lemma CommitIsAtomic(y: System, c: nat)
    requires Inv(y) && c in y.pending && y.pending[c].Patching?
    ensures var p := y.pending[c];
            Do(y, PatchCommit(c)).store == if Commits(y, c) then AtomicPatch(y.store, p.key, p.fields) else y.store
    ensures Commits(y, c) ==> Patches(y.store, Do(y, PatchCommit(c)).store, y.pending[c].key, y.pending[c].fields)
  {
    hide PatchAllowed;
    if Commits(y, c) { AtomicPatchWrites(y.store, y.pending[c].key, y.pending[c].fields); }
    hide Patches;
  }

  datatype Atomic =
    | Patch(key: string, fields: Fields)
    | Write(key: string, row: Row)
    | Declare(name: string, kind: string)
    | Remove(key: string)

  function Apply(s: Store, a: Atomic): Store {
    match a
    case Patch(key, fields) => AtomicPatch(s, key, fields)
    case Write(key, row) => Put(s, key, Entry(row))
    case Declare(name, kind) => Create(s, MetaKey(name), Kind(kind)).0
    case Remove(key) => Delete(s, key).0
  }

  function ApplyAll(s: Store, ops: seq<Atomic>): Store {
    if ops == [] then s else Apply(ApplyAll(s, ops[..|ops| - 1]), ops[|ops| - 1])
  }

  /** What a step counts for: a read and an aborted commit count for nothing. */
  function Effect(y: System, step: Step): seq<Atomic> {
    match step
    case CreateRegistry(name, kind) => if kind !in KINDS || Reserved(name) then [] else [Declare(name, kind)]
    case RegisterPut(c) =>
      if c in y.pending && y.pending[c].Registering? then [Write(y.pending[c].key, y.pending[c].row)] else []
    case PatchCommit(c) => if Commits(y, c) then [Patch(y.pending[c].key, y.pending[c].fields)] else []
    case Deregister(name, sid) => [Remove(RowKey(name, sid))]
    case _ => []
  }

  function Serial(y: System, steps: seq<Step>): seq<Atomic> {
    if steps == [] then []
    else Serial(y, steps[..|steps| - 1]) + Effect(Run(y, steps[..|steps| - 1]), steps[|steps| - 1])
  }

  lemma StepSerial(y: System, step: Step)
    requires Inv(y)
    ensures Do(y, step).store == ApplyAll(y.store, Effect(y, step))
  {
  }

  lemma {:induction false} ApplyAllAppend(s: Store, a: seq<Atomic>, b: seq<Atomic>)
    ensures ApplyAll(s, a + b) == ApplyAll(ApplyAll(s, a), b)
  {
    if b == [] {
      assert a + b == a;
    } else {
      ApplyAllAppend(s, a, b[..|b| - 1]);
      assert (a + b)[..|a + b| - 1] == a + b[..|b| - 1];
    }
  }

  /**
   * Every interleaving of reads, commits, registrations and removals leaves the store
   * that some sequence of atomic operations leaves, with one atomic patch at each
   * successful commit and none for an aborted one.
   */
  lemma {:induction false} InterleavingsSerialize(y: System, steps: seq<Step>)
    requires Inv(y)
    ensures Run(y, steps).store == ApplyAll(y.store, Serial(y, steps))
  {
    if steps != [] {
      var before, last := steps[..|steps| - 1], steps[|steps| - 1];
      InterleavingsSerialize(y, before);
      RunKeepsInv(y, before);
      StepSerial(Run(y, before), last);
      ApplyAllAppend(y.store, Serial(y, before), Effect(Run(y, before), last));
    }
  }

  // ---- exactly the undisturbed patches commit --------------------------------------------------------

  /** Does the step write or remove the key? */
  predicate Disturbs(y: System, step: Step, key: string) {
    match step
    case CreateRegistry(name, kind) => kind in KINDS && !Reserved(name) && MetaKey(name) == key && key !in y.store.cells
    case RegisterPut(c) => c in y.pending && y.pending[c].Registering? && y.pending[c].key == key
    case PatchCommit(c) => Commits(y, c) && y.pending[c].key == key
    case Deregister(name, sid) => RowKey(name, sid) == key && key in y.store.cells
    case _ => false
  }

  ghost predicate Quiet(y: System, steps: seq<Step>, key: string) {
    forall i | 0 <= i < |steps| :: !Disturbs(Run(y, steps[..i]), steps[i], key)
  }

  /** A write gives the key a revision it never had: the past revision does not come back. */
  lemma StepRevision(y: System, step: Step, key: string, rev: nat)
    requires Inv(y) && 1 <= rev <= y.store.revision
    ensures rev <= Do(y, step).store.revision
    ensures ModRevision(Do(y, step).store, key) == rev <==> ModRevision(y.store, key) == rev && !Disturbs(y, step, key)
  {
  }

  lemma {:induction false} RevisionTells(y: System, steps: seq<Step>, key: string, rev: nat)
    requires Inv(y) && 1 <= rev <= y.store.revision && ModRevision(y.store, key) == rev
    ensures rev <= Run(y, steps).store.revision
    ensures ModRevision(Run(y, steps).store, key) == rev <==> Quiet(y, steps, key)
  {
    hide Do, Disturbs;
    if steps != [] {
      var n := |steps| - 1;
      var before := steps[..n];
      RevisionTells(y, before, key, rev);
      RunKeepsInv(y, before);
      StepRevision(Run(y, before), steps[n], key, rev);
      QuietExtends(y, steps, key);
    }
  }

  lemma QuietExtends(y: System, steps: seq<Step>, key: string)
    requires steps != []
    ensures var n := |steps| - 1;
            Quiet(y, steps, key) <==> Quiet(y, steps[..n], key) && !Disturbs(Run(y, steps[..n]), steps[n], key)
  {
    hide Do, Disturbs, Run;
    var n := |steps| - 1;
    var before := steps[..n];
    assert forall i | 0 <= i < n :: before[..i] == steps[..i] && before[i] == steps[i];
    if Quiet(y, steps, key) { assert !Disturbs(Run(y, steps[..n]), steps[n], key); }
  }

  predicate By(step: Step, c: nat) {
    (step.RegisterRead? || step.RegisterPut? || step.PatchRead? || step.PatchCommit?) && step.client == c
  }

  lemma {:induction false} PendingStays(y: System, steps: seq<Step>, c: nat)
    requires forall s | s in steps :: !By(s, c)
    requires c in y.pending
    ensures c in Run(y, steps).pending && Run(y, steps).pending[c] == y.pending[c]
  {
    if steps != [] {
      assert forall s | s in steps[..|steps| - 1] :: s in steps;
      PendingStays(y, steps[..|steps| - 1], c);
      assert steps[|steps| - 1] in steps;
    }
  }

  /**
   * A patch that has read its row commits if and only if nobody wrote or removed the row
   * in between, even to the same value, and even when the row was removed and made again.
   */
  lemma CommitsIffUndisturbed(y: System, c: nat, name: string, sid: string, fields: Fields, steps: seq<Step>)
    requires Inv(y) && forall s | s in steps :: !By(s, c)
    requires var key := RowKey(name, sid); key in y.store.cells && y.store.cells[key].value.Entry?
    requires PatchAllowed(GetKind(y.store, name), fields)
    ensures var z := Do(y, PatchRead(c, name, sid, fields));
            Commits(Run(z, steps), c) <==> Quiet(z, steps, RowKey(name, sid))
  {
    var z := Do(y, PatchRead(c, name, sid, fields));
    StepKeepsInv(y, PatchRead(c, name, sid, fields));
    PendingStays(z, steps, c);
    RevisionTells(z, steps, RowKey(name, sid), z.pending[c].rev);
  }

  // ---- what is written ---------------------------------------------------------------------------

  /** From the call to its end: a patch of a row that nobody else touches meanwhile patches it as it was asked to. */
  lemma UndisturbedPatch(y: System, c: nat, name: string, sid: string, fields: Fields, steps: seq<Step>)
    requires Inv(y) && (forall s | s in steps :: !By(s, c)) && HasRow(y.store, RowKey(name, sid))
    requires PatchAllowed(GetKind(y.store, name), fields)
    requires Quiet(Do(y, PatchRead(c, name, sid, fields)), steps, RowKey(name, sid))
    ensures var key := RowKey(name, sid);
      var t := Do(Run(Do(y, PatchRead(c, name, sid, fields)), steps), PatchCommit(c)).store;
      HasRow(t, key) && PatchedBy(y.store.cells[key].value.row, t.cells[key].value.row, fields)
  {
    var key, z := RowKey(name, sid), Do(y, PatchRead(c, name, sid, fields));
    CommitsIffUndisturbed(y, c, name, sid, fields, steps);
    StepKeepsInv(y, PatchRead(c, name, sid, fields));
    RunKeepsInv(z, steps);
    PendingStays(z, steps, c);
    QuietKeepsCell(z, steps, key);
    CommitIsAtomic(Run(z, steps), c);
    hide Run, Quiet, Inv, PatchedBy, OnlyAt;
  }

  /** A patch is taken up exactly for a declared registry, an existing row, some field, and columns of that kind. */
  lemma PatchTakenIff(y: System, c: nat, name: string, sid: string, fields: Fields)
    requires c !in y.pending
    ensures c in Do(y, PatchRead(c, name, sid, fields)).pending <==>
      && HasRow(y.store, RowKey(name, sid)) && (fields.data.Some? || exists column :: column in fields.columns)
      && match GetKind(y.store, name)
         case Some("service") => fields.columns.Keys <= {"type", "source", "name", "description"}
         case Some("image") => fields.columns.Keys <= {"name", "framework", "version", "version_key", "is_default", "uploaded_by"}
         case Some("instance") => fields.columns.Keys <= {"kind", "framework", "framework_version", "node", "user"}
         case Some(_) => fields.columns == map[]
         case None => false
  {
  }

  /** A declaration takes effect for a known kind and a name that is not reserved, and the first one stands. */
  lemma FirstDeclarationStands(y: System, name: string, kind: string)
    ensures GetKind(Do(y, CreateRegistry(name, kind)).store, name) ==
      if MetaKey(name) in y.store.cells then GetKind(y.store, name)
      else if kind in {"service", "image", "instance"} && !("_" <= name) then Some(kind) else None
  {
  }

  lemma RemovesOneRow(y: System, name: string, sid: string)
    ensures RowKey(name, sid) !in Do(y, Deregister(name, sid)).store.cells
    ensures OnlyAt(y.store, Do(y, Deregister(name, sid)).store, RowKey(name, sid))
  {
  }

  /** A registration writes the entry as it is, if there is no row yet, and over a row without a creation time with the entry's. */
  lemma RegistrationWrites(y: System, c: nat, name: string, sid: string, entry: Row, now: string, column: string)
    requires GetKind(y.store, name).Some? && sid != []
    ensures var key, t := RowKey(name, sid), Do(Do(y, RegisterRead(c, name, sid, entry, now)), RegisterPut(c)).store;
      && HasRow(t, key) && OnlyAt(y.store, t, key)
      && (!HasRow(y.store, key) ==> t.cells[key].value.row == entry)
      && (HasRow(y.store, key) && Falsy(Lookup(y.store.cells[key].value.row.columns, "created_at")) && "created_at" in entry.columns ==>
            Lookup(t.cells[key].value.row.columns, "created_at") == Some(entry.columns["created_at"]))
      && (HasRow(y.store, key) ==> t.cells[key].value.row.data == entry.data)
      && (HasRow(y.store, key) && column != "created_at" && column != "updated_at" ==>
            Lookup(t.cells[key].value.row.columns, column) == Lookup(entry.columns, column))
  {
  }

  // ---- undisturbed registrations ------------------------------------------------------------------

  /** An undisturbed key holds what it held. */
  lemma {:induction false} QuietKeepsCell(y: System, steps: seq<Step>, key: string)
    requires Quiet(y, steps, key) && key in y.store.cells
    ensures key in Run(y, steps).store.cells && Run(y, steps).store.cells[key] == y.store.cells[key]
  {
    if steps != [] {
      QuietExtends(y, steps, key);
      QuietKeepsCell(y, steps[..|steps| - 1], key);
      hide Run, Quiet;
    }
  }

  predicate HoldsCreated(s: Store, key: string) {
    key in s.cells && s.cells[key].value.Entry? && !Falsy(Lookup(s.cells[key].value.row.columns, "created_at"))
  }

  /**
   * A registration whose row nobody touches between its two calls keeps the creation time of
   * the row it replaces and takes everything else from the new entry, whatever other clients
   * do meanwhile.
   */
  lemma UndisturbedRegistration(y: System, c: nat, name: string, sid: string, entry: Row, now: string, steps: seq<Step>, column: string)
    requires GetKind(y.store, name).Some? && sid != [] && forall s | s in steps :: !By(s, c)
    requires HoldsCreated(y.store, RowKey(name, sid))
    requires Quiet(Do(y, RegisterRead(c, name, sid, entry, now)), steps, RowKey(name, sid))
    ensures var key := RowKey(name, sid);
            var before := Run(Do(y, RegisterRead(c, name, sid, entry, now)), steps);
            var after := Do(before, RegisterPut(c)).store;
            && key in before.store.cells && before.store.cells[key].value.Entry?
            && key in after.cells && after.cells[key].value.Entry?
            && var was, row := before.store.cells[key].value.row, after.cells[key].value.row;
               && Lookup(row.columns, "created_at") == Lookup(was.columns, "created_at")
               && (column != "created_at" && column != "updated_at" ==> Lookup(row.columns, column) == Lookup(entry.columns, column))
               && Lookup(row.columns, "updated_at") == (if "updated_at" in entry.columns then Some(Text(now)) else None)
               && row.data == entry.data
  {
    var key := RowKey(name, sid);
    var z := Do(y, RegisterRead(c, name, sid, entry, now));
    PendingStays(z, steps, c);
    QuietKeepsCell(z, steps, key);
    RegisterKeepsCreation(y.store.cells[key].value.row, entry, now, column);
    hide Run, Registered, Quiet;
  }

  // ---- kinds ------------------------------------------------------------------------------------------

  /** Once declared, a registry keeps its kind, whatever is declared, registered or patched later. */
  lemma KindStable(y: System, step: Step, name: string)
    requires Inv(y) && GetKind(y.store, name).Some?
    ensures GetKind(Do(y, step).store, name) ==
            if step.Deregister? && RowKey(step.name, step.sid) == MetaKey(name) then None else GetKind(y.store, name)
  {
  }

  /** Removing a service of the reserved registry name removes a declaration. */
  lemma DeregisterCanForgetKind(y: System, name: string)
    ensures GetKind(Do(y, Deregister(META, name)).store, name) == None
  {
  }
}
