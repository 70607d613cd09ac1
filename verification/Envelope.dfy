/** LWW versions, record keys and sync envelopes (cluster/envelope.py). */
module Envelopes {
  import opened Order

  /** `(updated_at_ms, node_id)`. */
  datatype Version = Version(ts: int, node: string)

  predicate VersionLess(a: Version, b: Version) {
    a.ts < b.ts || (a.ts == b.ts && StrLess(a.node, b.node))
  }

  /** `version_newer`: does `a` win over what we hold? */
  predicate Newer(a: Version, b: Option<Version>) {
    match b
    case None => true
    case Some(v) => VersionLess(v, a)
  }

  /** Global identity of a record. */
  datatype Key = Key(dataset: string, origin: string, sid: string)

  /** One registry record or one deletion. `payload` is opaque JSON. */
  datatype Envelope = Envelope(key: Key, version: Version, tombstone: bool, payload: Option<string>)

  lemma VersionIrreflexive(a: Version)
    ensures !VersionLess(a, a)
  {
    StrIrreflexive(a.node);
  }

  lemma VersionTransitive(a: Version, b: Version, c: Version)
    requires VersionLess(a, b) && VersionLess(b, c)
    ensures VersionLess(a, c)
  {
    if a.ts == b.ts && b.ts == c.ts { StrTransitive(a.node, b.node, c.node); }
  }

  lemma VersionTotal(a: Version, b: Version)
    ensures VersionLess(a, b) || a == b || VersionLess(b, a)
  {
    StrTotal(a.node, b.node);
  }

  lemma VersionAsymmetric(a: Version, b: Version)
    requires VersionLess(a, b)
    ensures a != b && !VersionLess(b, a)
  {
    VersionIrreflexive(a);
    if VersionLess(b, a) { VersionTransitive(a, b, a); }
  }

  /** `a` is at least as new as `b`. */
  predicate NotOlder(a: Version, b: Version) {
    a == b || VersionLess(b, a)
  }

  lemma NotOlderTransitive(a: Version, b: Version, c: Version)
    requires NotOlder(a, b) && NotOlder(b, c)
    ensures NotOlder(a, c)
  {
    if a != b && b != c { VersionTransitive(c, b, a); }
  }

  /** The LWW maximum of what two sides hold. */
  function Latest(a: Option<Version>, b: Option<Version>): Option<Version> {
    if a.None? then b
    else if b.None? then a
    else if VersionLess(a.value, b.value) then b else a
  }
}
