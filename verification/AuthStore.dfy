/** The credential store and its hash index (auth/store.py). */
module AuthStores {
  import opened Order

  // ---- records ---------------------------------------------------------------------------

  datatype Principal = Principal(id: string, handle: string, role: string, namespaces: Option<seq<string>>,
                                 createdAt: string, disabledAt: Option<string>, note: string)

  datatype Key = Key(keyId: string, principalId: string, hash: string, name: string, createdAt: string,
                     lastUsedAt: Option<string>, revokedAt: Option<string>)

  /** `AuthContext`; no namespaces means all of them. */
  datatype Context = Context(principalId: string, role: string, namespaces: Option<set<string>>)

  /** The store in memory, and the keys as the file holds them (principals are saved on every change). */
  datatype Auth = Auth(principals: map<string, Principal>, keys: map<string, Key>, index: map<string, string>, saved: map<string, Key>)

  const VALID_ROLES: set<string> := {"admin", "provider", "user"}

  function ToContext(p: Principal): Context {
    Context(p.id, p.role, if p.namespaces.None? then None else Some(set n | n in p.namespaces.value))
  }

  // ---- authentication -----------------------------------------------------------------------

  const TOKEN_PREFIX: string := "a2x_pat_"

  datatype Answer = Accepted(context: Context) | EmptyToken | WrongPrefix | InvalidToken | DanglingKey | RevokedKey | DisabledPrincipal

  /** `authenticate`, once the hash of the token is known: one lookup in the index. */
  function AnswerFor(s: Auth, hash: string): Answer {
    if hash !in s.index then InvalidToken
    else
      var id := s.index[hash];
      if id !in s.keys || s.keys[id].principalId !in s.principals then DanglingKey
      else
        var p := s.principals[s.keys[id].principalId];
        if s.keys[id].revokedAt.Some? then RevokedKey else if p.disabledAt.Some? then DisabledPrincipal else Accepted(ToContext(p))
  }

  function Authenticated(s: Auth, hash: (string) -> string, token: string): Answer {
    if token == [] then EmptyToken
    else if !(TOKEN_PREFIX <= token) then WrongPrefix
    else AnswerFor(s, hash(token))
  }

  /** What a scan of all keys looks for. */
  predicate Usable(s: Auth, id: string, hash: string) {
    && id in s.keys && s.keys[id].hash == hash && s.keys[id].revokedAt.None?
    && s.keys[id].principalId in s.principals && s.principals[s.keys[id].principalId].disabledAt.None?
  }

  // ---- what every operation keeps -----------------------------------------------------------------

  ghost predicate DistinctHashes(keys: map<string, Key>) {
    forall i, j | i in keys && j in keys && keys[i].hash == keys[j].hash :: i == j
  }

  predicate RoleMatchesNamespaces(p: Principal) {
    p.role in VALID_ROLES && (p.role == "admin" <==> p.namespaces.None?)
  }

  ghost predicate PrincipalsWellFormed(principals: map<string, Principal>) {
    && (forall id | id in principals :: principals[id].id == id && RoleMatchesNamespaces(principals[id]))
    && (forall i, j | i in principals && j in principals && principals[i].handle == principals[j].handle :: i == j)
  }

  ghost predicate KeysWellFormed(principals: map<string, Principal>, keys: map<string, Key>) {
    DistinctHashes(keys) && forall id | id in keys :: keys[id].keyId == id && keys[id].principalId in principals
  }

  /** Every index entry leads to the key with that hash, and every unrevoked key has one. */
  ghost predicate IndexMatches(keys: map<string, Key>, index: map<string, string>) {
    && (forall h | h in index :: index[h] in keys && keys[index[h]].hash == h)
    && (forall id | id in keys && keys[id].revokedAt.None? :: keys[id].hash in index)
  }

  /** The file holds the same keys, except for the time of last use. */
  ghost predicate SavedMatches(keys: map<string, Key>, saved: map<string, Key>) {
    saved.Keys == keys.Keys && forall id | id in keys :: keys[id] == saved[id].(lastUsedAt := keys[id].lastUsedAt)
  }

  ghost predicate Inv(s: Auth) {
    && PrincipalsWellFormed(s.principals) && KeysWellFormed(s.principals, s.keys)
    && IndexMatches(s.keys, s.index) && SavedMatches(s.keys, s.saved)
  }

  /** The context speaks for the principal: its role, and all namespaces if it has no list, else exactly those on it. */
  predicate SpeaksFor(c: Context, p: Principal) {
    && c.principalId == p.id && c.role == p.role
    && (c.namespaces.None? <==> p.namespaces.None?) && (c.namespaces.None? <==> p.role == "admin")
    && (c.namespaces.Some? ==> (forall n | n in c.namespaces.value :: n in p.namespaces.value) && forall n | n in p.namespaces.value :: n in c.namespaces.value)
  }

  /**
   * The index accepts a hash exactly when a scan finds an unrevoked key with
   * that hash whose principal exists and is enabled, and then speaks for that principal.
   */
  lemma IndexAgreesWithScan(s: Auth, hash: string)
    requires Inv(s)
    ensures AnswerFor(s, hash).Accepted? <==> exists id :: Usable(s, id, hash)
    ensures forall id | Usable(s, id, hash) :: AnswerFor(s, hash) == Accepted(ToContext(s.principals[s.keys[id].principalId]))
    ensures forall id | Usable(s, id, hash) :: SpeaksFor(AnswerFor(s, hash).context, s.principals[s.keys[id].principalId])
    ensures AnswerFor(s, hash) != DanglingKey
  {
    if AnswerFor(s, hash).Accepted? { assert Usable(s, s.index[hash], hash); }
    forall id | Usable(s, id, hash)
      ensures AnswerFor(s, hash) == Accepted(ToContext(s.principals[s.keys[id].principalId]))
      ensures SpeaksFor(ToContext(s.principals[s.keys[id].principalId]), s.principals[s.keys[id].principalId])
    {
      assert s.index[hash] == id;
    }
  }

  // ---- operations -----------------------------------------------------------------------------------

  /** The admin role and only it goes without a list of namespaces. */
  predicate RoleAllowed(role: string, namespaces: Option<seq<string>>) {
    role in VALID_ROLES && (role == "admin" ==> namespaces.None?) && (role != "admin" ==> namespaces.Some?)
  }

  function AddKey(s: Auth, k: Key): Auth {
    var keys := s.keys[k.keyId := k];
    s.(keys := keys, index := s.index[k.hash := k.keyId], saved := keys)
  }

  function Revoked(s: Auth, id: string, now: string): Auth
    requires id in s.keys
  {
    var keys := s.keys[id := s.keys[id].(revokedAt := Some(now))];
    s.(keys := keys, index := s.index - {s.keys[id].hash}, saved := keys)
  }

  /** `namespaces` and the other fields are None when they are not given. */
  datatype Change = Change(namespaces: Option<Option<seq<string>>>, role: Option<string>, disabled: Option<bool>, note: Option<string>)

  function Changed(p: Principal, c: Change, now: string): Principal {
    p.(role := if c.role.Some? && c.role.value != [] then c.role.value else p.role,
       namespaces := if c.namespaces.Some? then c.namespaces.value else p.namespaces,
       note := if c.note.Some? then c.note.value else p.note,
       disabledAt :=
         if c.disabled == Some(true) then (if p.disabledAt.Some? && p.disabledAt.value != [] then p.disabledAt else Some(now))
         else if c.disabled == Some(false) then None else p.disabledAt)
  }

  /** The principal has exactly what the change gives, and keeps everything the change does not mention. */
  predicate UpdatedAs(was: Principal, p: Principal, c: Change, now: string) {
    && p.id == was.id && p.handle == was.handle && p.createdAt == was.createdAt
    && (c.role in {None, Some("")} ==> p.role == was.role) && (c.role !in {None, Some("")} ==> Some(p.role) == c.role)
    && (c.namespaces.None? ==> p.namespaces == was.namespaces) && (c.namespaces.Some? ==> Some(p.namespaces) == c.namespaces)
    && (c.note.None? ==> p.note == was.note) && (c.note.Some? ==> Some(p.note) == c.note)
    && (c.disabled.None? ==> p.disabledAt == was.disabledAt) && (c.disabled == Some(false) ==> p.disabledAt.None?)
    && (c.disabled == Some(true) ==> p.disabledAt == if was.disabledAt in {None, Some("")} then Some(now) else was.disabledAt)
  }

  lemma ChangedMeans(p: Principal, c: Change, now: string)
    ensures UpdatedAs(p, Changed(p, c, now), c, now)
  {
  }

  lemma ContextSpeaks(p: Principal)
    requires RoleMatchesNamespaces(p)
    ensures SpeaksFor(ToContext(p), p)
  {
  }

  /** `_load_from_disk` indexes every key, revoked ones too. */
  ghost function FullIndex(keys: map<string, Key>): map<string, string> {
    var hashes := set id | id in keys :: keys[id].hash;
    map h | h in hashes :: (var id :| id in keys && keys[id].hash == h; id)
  }

  datatype Op =
    | CreatePrincipal(principal: Principal, key: Key)
    | UpdatePrincipal(id: string, change: Change, now: string)
    | CreateKey(key: Key)
    | RevokeKey(keyId: string, now: string)
    | Use(hash: string, now: string)
    | Reload

  /** Identifiers and token hashes are drawn anew; a new key has not been used or revoked. */
  predicate FreshKey(s: Auth, k: Key) {
    k.keyId !in s.keys && k.revokedAt.None? && k.lastUsedAt.None? && forall id | id in s.keys :: s.keys[id].hash != k.hash
  }

  predicate Drawn(s: Auth, op: Op) {
    match op
    case CreatePrincipal(p, k) => p.id !in s.principals && p.disabledAt.None? && k.principalId == p.id && FreshKey(s, k)
    case CreateKey(k) => FreshKey(s, k)
    case _ => true
  }

  predicate HandleTaken(s: Auth, handle: string) { exists id :: id in s.principals && s.principals[id].handle == handle }

  /** One operation; one that raises changes nothing. */
  ghost function Do(s: Auth, op: Op): Auth {
    match op
    case CreatePrincipal(p, k) =>
      if !RoleAllowed(p.role, p.namespaces) || HandleTaken(s, p.handle) then s
      else AddKey(s.(principals := s.principals[p.id := p]), k)
    case UpdatePrincipal(id, c, now) =>
      if id !in s.principals then s
      else
        var p := Changed(s.principals[id], c, now);
        if RoleAllowed(p.role, p.namespaces) then s.(principals := s.principals[id := p]) else s
    case CreateKey(k) => if k.principalId in s.principals then AddKey(s, k) else s
    case RevokeKey(id, now) =>
      if id !in s.keys || s.keys[id].revokedAt.Some? then s
      else Revoked(s, id, now)
    case Use(hash, now) =>
      if AnswerFor(s, hash).Accepted?
      then var id := s.index[hash]; s.(keys := s.keys[id := s.keys[id].(lastUsedAt := Some(now))]) else s
    case Reload => s.(keys := s.saved, index := FullIndex(s.saved))
  }

  lemma ReloadKeepsInv(s: Auth)
    requires Inv(s)
    ensures Inv(Do(s, Reload))
  {
  }

  lemma AddKeyKeepsInv(s: Auth, k: Key)
    requires Inv(s) && FreshKey(s, k) && k.principalId in s.principals
    ensures Inv(AddKey(s, k))
  {
  }

  lemma UpdateKeepsInv(s: Auth, id: string, c: Change, now: string)
    requires Inv(s)
    ensures Inv(Do(s, UpdatePrincipal(id, c, now)))
  {
  }

  lemma RevokeKeepsInv(s: Auth, id: string, now: string)
    requires Inv(s)
    ensures Inv(Do(s, RevokeKey(id, now)))
  {
    hide Inv, Revoked;
    if id in s.keys { RevokedKeepsInv(s, id, now); }
  }

  lemma RevokedKeepsInv(s: Auth, id: string, now: string)
    requires Inv(s) && id in s.keys
    ensures Inv(Revoked(s, id, now))
  {
    hide PrincipalsWellFormed;
    var t := Revoked(s, id, now);
    assert forall j | j in s.keys :: t.keys[j].hash == s.keys[j].hash;
  }

  lemma UseKeepsInv(s: Auth, hash: string, now: string)
    requires Inv(s)
    ensures Inv(Do(s, Use(hash, now)))
  {
    hide PrincipalsWellFormed;
  }

  lemma NewPrincipalKeepsInv(s: Auth, p: Principal)
    requires Inv(s) && p.id !in s.principals && RoleAllowed(p.role, p.namespaces) && !HandleTaken(s, p.handle)
    ensures Inv(s.(principals := s.principals[p.id := p]))
  {
  }

  lemma OpKeepsInv(s: Auth, op: Op)
    requires Inv(s) && Drawn(s, op)
    ensures Inv(Do(s, op))
  {
    match op
    case CreatePrincipal(p, k) =>
      if RoleAllowed(p.role, p.namespaces) && !HandleTaken(s, p.handle) {
        NewPrincipalKeepsInv(s, p);
        AddKeyKeepsInv(s.(principals := s.principals[p.id := p]), k);
        hide Inv;
      }
    case UpdatePrincipal(id, c, now) => hide Inv; UpdateKeepsInv(s, id, c, now);
    case CreateKey(k) => if k.principalId in s.principals { AddKeyKeepsInv(s, k); hide Inv; }
    case RevokeKey(id, now) => hide Inv; RevokeKeepsInv(s, id, now);
    case Use(hash, now) => hide Inv; UseKeepsInv(s, hash, now);
    case Reload => hide Inv; ReloadKeepsInv(s);
  }

  /** The one key with a hash decides. */
  lemma AnswerByKey(s: Auth, hash: string, id: string)
    requires Inv(s) && id in s.keys && s.keys[id].hash == hash
    ensures s.keys[id].principalId in s.principals
    ensures hash !in s.index ==> s.keys[id].revokedAt.Some? && AnswerFor(s, hash) == InvalidToken
    ensures hash in s.index ==>
              var p := s.principals[s.keys[id].principalId];
              AnswerFor(s, hash) ==
                if s.keys[id].revokedAt.Some? then RevokedKey else if p.disabledAt.Some? then DisabledPrincipal else Accepted(ToContext(p))
  {
  }

  lemma ReloadedKeys(s: Auth)
    requires Inv(s)
    ensures var t := Do(s, Reload);
            && t.principals == s.principals && t.keys.Keys == s.keys.Keys
            && (forall id | id in s.keys :: t.keys[id] == s.keys[id].(lastUsedAt := t.keys[id].lastUsedAt))
            && (forall id | id in s.keys :: s.keys[id].hash in t.index)
  {
  }

  /** Reloading changes no decision; a revoked key is only refused for another reason. */
  lemma ReloadInvisible(s: Auth, hash: string)
    requires Inv(s)
    ensures var t := Do(s, Reload);
            AnswerFor(t, hash) == AnswerFor(s, hash) || (AnswerFor(s, hash) == InvalidToken && AnswerFor(t, hash) == RevokedKey)
  {
    var t := Do(s, Reload);
    ReloadKeepsInv(s);
    ReloadedKeys(s);
    if id :| id in s.keys && s.keys[id].hash == hash {
      hide Inv, Do, AnswerFor;
      AnswerByKey(s, hash, id);
      AnswerByKey(t, hash, id);
    } else {
      assert hash !in s.index by { hide Do; }
      assert hash !in t.index by { hide Do; }
      hide Inv, Do;
    }
  }

  /** An update of a principal decides for all its keys at once: none is accepted while it is disabled, else each with the new role and namespaces. */
  lemma UpdateTakesEffect(s: Auth, id: string, c: Change, now: string, hash: string)
    requires Inv(s) && id in s.principals
    requires var p := Changed(s.principals[id], c, now); RoleAllowed(p.role, p.namespaces)
    ensures var t, p := Do(s, UpdatePrincipal(id, c, now)), Changed(s.principals[id], c, now);
            && id in t.principals && t.principals[id] == p && UpdatedAs(s.principals[id], p, c, now)
            && (forall j | j != id :: (j in t.principals <==> j in s.principals) && (j in s.principals ==> t.principals[j] == s.principals[j]))
            && (AnswerFor(t, hash).Accepted? && AnswerFor(t, hash).context.principalId == id ==>
                  p.disabledAt.None? && SpeaksFor(AnswerFor(t, hash).context, p))
            && (forall k | k in s.keys && s.keys[k].hash == hash && s.keys[k].principalId != id :: AnswerFor(t, hash) == AnswerFor(s, hash))
  {
    var t := Do(s, UpdatePrincipal(id, c, now));
    UpdateKeepsInv(s, id, c, now);
    ChangedMeans(s.principals[id], c, now);
    assert t.principals == s.principals[id := Changed(s.principals[id], c, now)] && t.keys == s.keys && t.index == s.index;
    assert PrincipalsWellFormed(t.principals);
    assert s.principals[id].id == id && t.principals[id].id == id;
    ContextSpeaks(t.principals[id]);
    hide Do, Changed, UpdatedAs, RoleAllowed, SpeaksFor;
    if k :| k in s.keys && s.keys[k].hash == hash {
      AnswerByKey(s, hash, k);
      AnswerByKey(t, hash, k);
      assert AnswerFor(t, hash).Accepted? ==> t.principals[s.keys[k].principalId].id == s.keys[k].principalId;
      hide AnswerFor, Inv;
    }
    hide DistinctHashes, IndexMatches, SavedMatches;
  }

  // ---- runs ---------------------------------------------------------------------------------------------

  /** `bootstrap`: one admin with one key. */
  function Bootstrapped(p: Principal, k: Key): Auth {
    Auth(map[p.id := p], map[k.keyId := k], map[k.hash := k.keyId], map[k.keyId := k])
  }

  ghost predicate Run(states: seq<Auth>, ops: seq<Op>) {
    && |states| == |ops| + 1
    && (exists p: Principal, k: Key :: p.role == "admin" && p.namespaces.None? && k.principalId == p.id && k.revokedAt.None?
                       && states[0] == Bootstrapped(p, k))
    && forall i | 0 <= i < |ops| :: Drawn(states[i], ops[i]) && states[i + 1] == Do(states[i], ops[i])
  }

  lemma {:induction false} RunKeepsInv(states: seq<Auth>, ops: seq<Op>, i: nat)
    requires Run(states, ops) && i < |states|
    ensures Inv(states[i])
  {
    if i > 0 {
      RunKeepsInv(states, ops, i - 1);
      OpKeepsInv(states[i - 1], ops[i - 1]);
    }
  }

  /** In every reachable state the index decides as the scan does, every key has its principal, and admins are those without a list. */
  lemma ReachableAuthentication(states: seq<Auth>, ops: seq<Op>, i: nat, hash: string)
    requires Run(states, ops) && i < |states|
    ensures var s := states[i];
            && (AnswerFor(s, hash).Accepted? <==> exists id :: Usable(s, id, hash))
            && (forall id | id in s.keys :: s.keys[id].principalId in s.principals)
            && (forall id | id in s.principals :: s.principals[id].role == "admin" <==> s.principals[id].namespaces.None?)
  {
    RunKeepsInv(states, ops, i);
    IndexAgreesWithScan(states[i], hash);
  }

  lemma OpKeepsRevoked(s: Auth, op: Op, id: string)
    requires Inv(s) && Drawn(s, op) && id in s.keys && s.keys[id].revokedAt.Some?
    ensures var t := Do(s, op); id in t.keys && t.keys[id].hash == s.keys[id].hash && t.keys[id].revokedAt.Some?
  {
    hide FullIndex, DistinctHashes, PrincipalsWellFormed, RoleAllowed, Changed, HandleTaken;
  }

  /** No later operation, reloads included, makes a revoked key's token acceptable again. */
  lemma {:induction false} RevokedForGood(states: seq<Auth>, ops: seq<Op>, i: nat, j: nat, id: string)
    requires Run(states, ops) && i <= j < |states| && id in states[i].keys && states[i].keys[id].revokedAt.Some?
    ensures id in states[j].keys && states[j].keys[id].hash == states[i].keys[id].hash && states[j].keys[id].revokedAt.Some?
    ensures !AnswerFor(states[j], states[i].keys[id].hash).Accepted?
  {
    RunKeepsInv(states, ops, j);
    if i < j {
      RevokedForGood(states, ops, i, j - 1, id);
      RunKeepsInv(states, ops, j - 1);
      OpKeepsRevoked(states[j - 1], ops[j - 1], id);
    }
  }

  // ---- files ----------------------------------------------------------------------------------------------

  /** The dictionary a list of records loads into: a later record replaces an earlier one of the same id. */
  function KeysOf(list: seq<Key>): map<string, Key> {
    if list == [] then map[] else KeysOf(list[..|list| - 1])[list[|list| - 1].keyId := list[|list| - 1]]
  }

  function PrincipalsOf(list: seq<Principal>): map<string, Principal> {
    if list == [] then map[] else PrincipalsOf(list[..|list| - 1])[list[|list| - 1].id := list[|list| - 1]]
  }

  /** The index the same loop builds. */
  function IndexOf(list: seq<Key>): map<string, string> {
    if list == [] then map[] else IndexOf(list[..|list| - 1])[list[|list| - 1].hash := list[|list| - 1].keyId]
  }

  ghost predicate OnceEach(list: seq<Key>) { forall i, j | 0 <= i < j < |list| :: list[i].keyId != list[j].keyId }

  lemma {:induction false} KeysOfList(list: seq<Key>)
    requires OnceEach(list)
    ensures forall id :: id in KeysOf(list) <==> exists i :: 0 <= i < |list| && list[i].keyId == id
    ensures forall i | 0 <= i < |list| :: list[i].keyId in KeysOf(list) && KeysOf(list)[list[i].keyId] == list[i]
  {
    if list != [] {
      var n := |list| - 1;
      KeysOfList(list[..n]);
      assert forall i | 0 <= i < n :: list[..n][i] == list[i];
    }
  }

  lemma {:induction false} IndexOfList(list: seq<Key>)
    ensures forall h :: h in IndexOf(list) <==> exists i :: 0 <= i < |list| && list[i].hash == h
    ensures forall h | h in IndexOf(list) :: exists i :: 0 <= i < |list| && list[i].hash == h && IndexOf(list)[h] == list[i].keyId
  {
    if list != [] {
      var n := |list| - 1;
      IndexOfList(list[..n]);
      assert forall i | 0 <= i < n :: list[..n][i] == list[i];
    }
  }

  /** What the loading loop leaves is the full index of what it loaded. */
  lemma LoadedIndex(list: seq<Key>)
    requires OnceEach(list) && DistinctHashes(KeysOf(list))
    ensures IndexOf(list) == FullIndex(KeysOf(list))
  {
    KeysOfList(list);
    IndexOfList(list);
    var keys := KeysOf(list);
    forall h ensures h in IndexOf(list) <==> h in FullIndex(keys) {
      if h in IndexOf(list) {
        var i :| 0 <= i < |list| && list[i].hash == h;
        assert list[i].keyId in keys && keys[list[i].keyId].hash == h;
      }
    }
    forall h | h in IndexOf(list) ensures IndexOf(list)[h] == FullIndex(keys)[h] {
      var i :| 0 <= i < |list| && list[i].hash == h && IndexOf(list)[h] == list[i].keyId;
      assert keys[list[i].keyId].hash == h;
    }
  }

  lemma OneMorePrincipal(principals: map<string, Principal>, todo: set<string>, list: seq<Principal>, id: string)
    requires id in todo && id in principals && principals[id].id == id && PrincipalsOf(list) == principals - todo
    ensures PrincipalsOf(list + [principals[id]]) == principals - (todo - {id})
  {
  }

  lemma OneMoreKey(keys: map<string, Key>, todo: set<string>, list: seq<Key>, id: string)
    requires id in todo && id in keys && keys[id].keyId == id && KeysOf(list) == keys - todo
    ensures KeysOf(list + [keys[id]]) == keys - (todo - {id})
  {
  }

  lemma OneRecord(p: Principal, k: Key)
    ensures PrincipalsOf([p]) == map[p.id := p] && KeysOf([k]) == map[k.keyId := k]
  {
  }

  // ---- the store ----------------------------------------------------------------------------------------------

  class AuthStore {
    var principals: map<string, Principal>
    var keys: map<string, Key>
    var keysByHash: map<string, string>
    /** principals.json and api_keys.json */
    var principalsFile: seq<Principal>
    var keysFile: seq<Key>

    static ghost predicate OwnIds(keys: map<string, Key>) { forall id | id in keys :: keys[id].keyId == id }

    ghost function View(): Auth
      reads this
    {
      Auth(principals, keys, keysByHash, KeysOf(keysFile))
    }

    ghost predicate Valid()
      reads this
    {
      Inv(View()) && PrincipalsOf(principalsFile) == principals && OnceEach(keysFile)
    }

    /** `bootstrap`; the random ids and the hash of the token are given. */
    constructor Bootstrap(p: Principal, k: Key)
      requires p.role == "admin" && p.namespaces.None? && k.principalId == p.id && k.revokedAt.None?
      ensures Valid() && View() == Bootstrapped(p, k)
    {
      principals, keys, keysByHash := map[p.id := p], map[k.keyId := k], map[k.hash := k.keyId];
      principalsFile, keysFile := [p], [k];
      new;
      OneRecord(p, k);
    }

    method PersistKeys()
      requires OwnIds(keys)
      modifies this`keysFile
      ensures KeysOf(keysFile) == keys && OnceEach(keysFile)
    {
      var list: seq<Key> := [];
      var todo := keys.Keys;
      assert KeysOf(list) == keys - todo;
      hide KeysOf;
      while todo != {}
        invariant todo <= keys.Keys && OnceEach(list)
        invariant forall i | 0 <= i < |list| :: list[i].keyId in keys && list[i].keyId !in todo
        invariant KeysOf(list) == keys - todo
        decreases |todo|
      {
        var id :| id in todo;
        OneMoreKey(keys, todo, list, id);
        list := list + [keys[id]];
        todo := todo - {id};
      }
      keysFile := list;
    }

    method PersistPrincipals()
      requires forall id | id in principals :: principals[id].id == id
      modifies this`principalsFile
      ensures PrincipalsOf(principalsFile) == principals
    {
      var list: seq<Principal> := [];
      var todo := principals.Keys;
      assert PrincipalsOf(list) == principals - todo;
      hide PrincipalsOf;
      while todo != {}
        invariant todo <= principals.Keys && PrincipalsOf(list) == principals - todo
        decreases |todo|
      {
        var id :| id in todo;
        OneMorePrincipal(principals, todo, list, id);
        list := list + [principals[id]];
        todo := todo - {id};
      }
      principalsFile := list;
    }

    method LoadPrincipals()
      modifies this`principals
      ensures principals == PrincipalsOf(principalsFile)
    {
      var raw := principalsFile;
      principals := map[];
      for i := 0 to |raw|
        invariant principals == PrincipalsOf(raw[..i])
      {
        assert raw[..i + 1][..i] == raw[..i];
        principals := principals[raw[i].id := raw[i]];
      }
      assert raw[..|raw|] == raw;
    }

    method LoadKeys()
      modifies this`keys, this`keysByHash
      ensures keys == KeysOf(keysFile) && keysByHash == IndexOf(keysFile)
    {
      var raw := keysFile;
      keys, keysByHash := map[], map[];
      for i := 0 to |raw|
        invariant keys == KeysOf(raw[..i]) && keysByHash == IndexOf(raw[..i])
      {
        assert raw[..i + 1][..i] == raw[..i];
        keys := keys[raw[i].keyId := raw[i]];
        keysByHash := keysByHash[raw[i].hash := raw[i].keyId];
      }
      assert raw[..|raw|] == raw;
    }

    method LoadFromDisk()
      requires Valid()
      modifies this`principals, this`keys, this`keysByHash
      ensures Valid() && View() == Do(old(View()), Reload)
    {
      ReloadKeepsInv(View());
      assert DistinctHashes(KeysOf(keysFile)) by {
        var s := View();
        assert forall id | id in s.keys :: s.saved[id].hash == s.keys[id].hash;
      }
      LoadedIndex(keysFile);
      hide Inv, FullIndex, DistinctHashes, KeysOf, IndexOf, PrincipalsOf;
      LoadPrincipals();
      LoadKeys();
    }

    /** The key has that hash and is not revoked, and its principal exists and is not disabled. */
    static predicate Serves(keys: map<string, Key>, principals: map<string, Principal>, id: string, hash: string) {
      && id in keys && keys[id].hash == hash && keys[id].revokedAt.None?
      && keys[id].principalId in principals && principals[keys[id].principalId].disabledAt.None?
    }

    /** `authenticate`; only the time of last use changes, and not on disk. */
    method Authenticate(hash: (string) -> string, token: string, now: string) returns (answer: Answer)
      requires Valid()
      modifies this`keys
      ensures Valid() && answer == Authenticated(old(View()), hash, token)
      ensures View() == if answer.Accepted? then Do(old(View()), Use(hash(token), now)) else old(View())
      ensures answer.EmptyToken? <==> token == ""
      ensures answer.WrongPrefix? <==> token != "" && !("a2x_pat_" <= token)
      ensures answer.Accepted? <==> "a2x_pat_" <= token && exists id :: Serves(old(keys), principals, id, hash(token))
      ensures answer.Accepted? ==> forall id | Serves(old(keys), principals, id, hash(token)) ::
                && SpeaksFor(answer.context, principals[old(keys)[id].principalId])
                && keys == old(keys)[id := old(keys)[id].(lastUsedAt := Some(now))]
      ensures !answer.Accepted? ==> keys == old(keys)
      ensures answer.RevokedKey? ==> exists id :: id in keys && keys[id].hash == hash(token) && keys[id].revokedAt.Some?
      ensures answer.DisabledPrincipal? ==> exists id :: id in keys && keys[id].hash == hash(token) && keys[id].revokedAt.None?
                                                         && keys[id].principalId in principals && principals[keys[id].principalId].disabledAt.Some?
    {
      IndexAgreesWithScan(View(), hash(token));
      assert forall id :: Serves(keys, principals, id, hash(token)) <==> Usable(View(), id, hash(token));
      if token == [] { return EmptyToken; }
      if !(TOKEN_PREFIX <= token) { return WrongPrefix; }
      var h := hash(token);
      UseKeepsInv(View(), h, now);
      assert h in keysByHash ==> keysByHash[h] in keys && keys[keysByHash[h]].hash == h;
      hide Inv;
      if h !in keysByHash { return InvalidToken; }
      var id := keysByHash[h];
      if id !in keys { return DanglingKey; }
      var key := keys[id];
      if key.principalId !in principals { return DanglingKey; }
      var principal := principals[key.principalId];
      if key.revokedAt.Some? { return RevokedKey; }
      if principal.disabledAt.Some? { return DisabledPrincipal; }
      keys := keys[id := key.(lastUsedAt := Some(now))];
      return Accepted(ToContext(principal));
    }

    /** Put a new key into both dictionaries and save: the common end of `create_principal` and `create_key`. */
    method StoreKey(k: Key)
      requires OwnIds(keys)
      modifies this`keys, this`keysByHash, this`keysFile
      ensures View() == AddKey(old(View()), k) && OnceEach(keysFile)
    {
      keys := keys[k.keyId := k];
      keysByHash := keysByHash[k.hash := k.keyId];
      PersistKeys();
    }

    /** The principal and the key carry the random ids and the token's hash; None when it raises. */
    method CreatePrincipal(p: Principal, k: Key) returns (created: Option<Principal>)
      requires Valid() && Drawn(View(), Op.CreatePrincipal(p, k))
      modifies this
      ensures Valid() && View() == Do(old(View()), Op.CreatePrincipal(p, k))
      ensures created == if RoleAllowed(p.role, p.namespaces) && !HandleTaken(old(View()), p.handle) then Some(p) else None
      ensures created.Some? <==>
                && p.role in {"admin", "provider", "user"} && (p.role == "admin" <==> p.namespaces.None?)
                && forall id | id in old(principals) :: old(principals)[id].handle != p.handle
      ensures created.Some? ==> principals == old(principals)[p.id := p] && keys == old(keys)[k.keyId := k] && keysByHash == old(keysByHash)[k.hash := k.keyId]
    {
      if p.role !in VALID_ROLES { return None; }
      if p.role == "admin" && p.namespaces.Some? { return None; }
      if p.role != "admin" && p.namespaces.None? { return None; }
      if exists id :: id in principals && principals[id].handle == p.handle { return None; }
      OpKeepsInv(View(), Op.CreatePrincipal(p, k));
      assert OwnIds(keys);
      assert forall id | id in principals :: principals[id].id == id;
      hide Inv, OwnIds, AddKey;
      principals := principals[p.id := p];
      StoreKey(k);
      PersistPrincipals();
      return Some(p);
    }

    method UpdatePrincipal(id: string, c: Change, now: string) returns (updated: Option<Principal>)
      requires Valid()
      modifies this`principals, this`principalsFile
      ensures Valid() && View() == Do(old(View()), Op.UpdatePrincipal(id, c, now))
      ensures updated.Some? ==> id in principals && updated == Some(principals[id])
      ensures updated.Some? <==>
              id in old(principals) && (var p := Changed(old(principals)[id], c, now); RoleAllowed(p.role, p.namespaces))
      ensures updated.Some? ==> principals == old(principals)[id := updated.value] && UpdatedAs(old(principals)[id], updated.value, c, now)
      ensures updated.None? ==> principals == old(principals)
    {
      UpdateKeepsInv(View(), id, c, now);
      assert forall j | j in principals :: principals[j].id == j;
      hide Inv, UpdatedAs;
      if id !in principals { return None; }
      var p := Changed(principals[id], c, now);
      ChangedMeans(principals[id], c, now);
      if !RoleAllowed(p.role, p.namespaces) { return None; }
      principals := principals[id := p];
      PersistPrincipals();
      return Some(p);
    }

    method CreateKey(k: Key) returns (created: bool)
      requires Valid() && Drawn(View(), Op.CreateKey(k))
      modifies this`keys, this`keysByHash, this`keysFile
      ensures Valid() && View() == Do(old(View()), Op.CreateKey(k))
      ensures created == (k.principalId in old(principals))
      ensures created ==> keys == old(keys)[k.keyId := k] && keysByHash == old(keysByHash)[k.hash := k.keyId]
      ensures !created ==> keys == old(keys) && keysByHash == old(keysByHash)
    {
      if k.principalId !in principals { return false; }
      AddKeyKeepsInv(View(), k);
      assert OwnIds(keys);
      hide Inv, OwnIds;
      StoreKey(k);
      return true;
    }

    method RevokeKey(id: string, now: string) returns (key: Option<Key>)
      requires Valid()
      modifies this`keys, this`keysByHash, this`keysFile
      ensures Valid() && View() == Do(old(View()), Op.RevokeKey(id, now))
      ensures key.None? <==> id !in old(keys)
      ensures key.Some? ==> id in keys && key == Some(keys[id]) && key.value.revokedAt.Some?
      ensures key.Some? ==> keys == old(keys)[id := if old(keys)[id].revokedAt.Some? then old(keys)[id] else old(keys)[id].(revokedAt := Some(now))]
      ensures key.Some? && old(keys)[id].revokedAt.None? ==> keys[id].hash !in keysByHash
    {
      RevokeKeepsInv(View(), id, now);
      assert OwnIds(keys);
      hide Inv, OwnIds, Revoked;
      if id !in keys { return None; }
      if keys[id].revokedAt.None? { MarkRevoked(id, now); }
      return Some(keys[id]);
    }

    /** What `revoke_key` does to a key that is not yet revoked. */
    method MarkRevoked(id: string, now: string)
      requires OwnIds(keys) && id in keys
      modifies this`keys, this`keysByHash, this`keysFile
      ensures View() == Revoked(old(View()), id, now) && OnceEach(keysFile)
      ensures id in keys && keys[id].revokedAt.Some?
    {
      var key := keys[id];
      keys := keys[id := key.(revokedAt := Some(now))];
      keysByHash := keysByHash - {key.hash};
      PersistKeys();
    }
  }
}
