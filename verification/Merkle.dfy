/**
 * Bucketed Merkle digests (cluster/merkle.py). The hash function is a
 * parameter `H`; what is asked of it is a fixed output width and no collision
 * among the strings hashed in the exchange at hand.
 */
module Merkle {
  import opened Order
  import opened Envelopes
  import opened Decimal
  import opened Separators

  type Index = map<Key, Version>
  type Hash = string -> string

  const SEP: char := '\U{1f}'
  const WIDTH: nat := 32

  function KeyStr(k: Key): string { k.dataset + [SEP] + (k.origin + [SEP] + k.sid) }

  /** What `_entry_digest` hashes. */
  function Raw(k: Key, v: Version): string {
    k.dataset + [SEP] + (k.origin + [SEP] + (k.sid + [SEP] + (Render(v.ts) + [SEP] + v.node)))
  }

  function BigEndian(s: string): nat {
    if s == [] then 0 else 256 * BigEndian(s[..|s| - 1]) + s[|s| - 1] as nat
  }

  function BucketOf(H: Hash, k: Key, n: nat): nat
    requires n > 0
  {
    var h := H(KeyStr(k));
    BigEndian(if |h| < 4 then h else h[..4]) % n
  }

  /** The first four bytes of the hash, most significant first, decide the bucket. */
  lemma BucketByFirstBytes(H: Hash, k: Key, n: nat)
    requires n > 0 && |H(KeyStr(k))| >= 4
    ensures var h := H(k.dataset + [SEP] + (k.origin + [SEP] + k.sid));
      BucketOf(H, k, n) == (16777216 * h[0] as nat + 65536 * h[1] as nat + 256 * h[2] as nat + h[3] as nat) % n
  {
    var s := H(KeyStr(k))[..4];
    assert s[..3][..2] == s[..2] && s[..2][..1] == s[..1] && s[..1][..0] == [];
    assert BigEndian(s[..1]) == s[0] as nat;
    assert BigEndian(s[..2]) == 256 * BigEndian(s[..1]) + s[1] as nat;
    assert BigEndian(s[..3]) == 256 * BigEndian(s[..2]) + s[2] as nat by { assert s[..3][..2] == s[..2]; }
    assert BigEndian(s) == 256 * BigEndian(s[..3]) + s[3] as nat;
  }

  predicate CleanKey(k: Key) { SEP !in k.dataset && SEP !in k.origin && SEP !in k.sid }

  ghost predicate Clean(idx: Index) { forall k | k in idx :: CleanKey(k) }

  lemma RawInjective(k: Key, v: Version, l: Key, w: Version)
    requires CleanKey(k) && CleanKey(l) && Raw(k, v) == Raw(l, w)
    ensures k == l && v == w
  {
    var k3, l3 := Render(v.ts) + [SEP] + v.node, Render(w.ts) + [SEP] + w.node;
    JoinInjective(k.dataset, k.origin + [SEP] + (k.sid + [SEP] + k3), l.dataset, l.origin + [SEP] + (l.sid + [SEP] + l3), SEP);
    JoinInjective(k.origin, k.sid + [SEP] + k3, l.origin, l.sid + [SEP] + l3, SEP);
    JoinInjective(k.sid, k3, l.sid, l3, SEP);
    RenderChars(v.ts);
    RenderChars(w.ts);
    JoinInjective(Render(v.ts), v.node, Render(w.ts), w.node, SEP);
    RenderInjective(v.ts, w.ts);
  }

  // ---- sorted entries ------------------------------------------------------------

  predicate KeyLess(a: Key, b: Key) {
    || StrLess(a.dataset, b.dataset)
    || (a.dataset == b.dataset && StrLess(a.origin, b.origin))
    || (a.dataset == b.dataset && a.origin == b.origin && StrLess(a.sid, b.sid))
  }

  lemma KeyTotal(a: Key, b: Key)
    ensures KeyLess(a, b) || a == b || KeyLess(b, a)
  {
    StrTotal(a.dataset, b.dataset);
    StrTotal(a.origin, b.origin);
    StrTotal(a.sid, b.sid);
  }

  lemma KeyTransitive(a: Key, b: Key, c: Key)
    requires KeyLess(a, b) && KeyLess(b, c)
    ensures KeyLess(a, c)
  {
    if StrLess(a.dataset, b.dataset) && StrLess(b.dataset, c.dataset) { StrTransitive(a.dataset, b.dataset, c.dataset); }
    if StrLess(a.origin, b.origin) && StrLess(b.origin, c.origin) { StrTransitive(a.origin, b.origin, c.origin); }
    if StrLess(a.sid, b.sid) && StrLess(b.sid, c.sid) { StrTransitive(a.sid, b.sid, c.sid); }
  }

  lemma KeyIrreflexive(a: Key)
    ensures !KeyLess(a, a)
  {
    StrIrreflexive(a.dataset);
    StrIrreflexive(a.origin);
    StrIrreflexive(a.sid);
  }

  ghost predicate Ascending(s: seq<Key>) { forall i, j | 0 <= i < j < |s| :: KeyLess(s[i], s[j]) }

  /** One insertion of the `entries.sort()` of a bucket; keys in a bucket are distinct, so they decide the order. */
  function Insert(k: Key, s: seq<Key>): seq<Key> {
    if s == [] then [k]
    else if KeyLess(k, s[0]) then [k] + s
    else [s[0]] + Insert(k, s[1..])
  }

  function Sort(s: seq<Key>): seq<Key> {
    if s == [] then [] else Insert(s[0], Sort(s[1..]))
  }

  lemma {:induction false} InsertContents(k: Key, s: seq<Key>)
    ensures forall x :: x in Insert(k, s) <==> x == k || x in s
  {
    if s == [] || KeyLess(k, s[0]) {
    } else {
      InsertContents(k, s[1..]);
      assert s == [s[0]] + s[1..];
    }
  }

  lemma {:induction false} InsertAscending(k: Key, s: seq<Key>)
    requires Ascending(s) && k !in s
    ensures Ascending(Insert(k, s))
  {
    if s == [] {
    } else if KeyLess(k, s[0]) {
      forall j | 0 < j < |s| ensures KeyLess(k, s[j]) { KeyTransitive(k, s[0], s[j]); }
    } else {
      KeyTotal(k, s[0]);
      InsertContents(k, s[1..]);
      InsertAscending(k, s[1..]);
      var t := Insert(k, s[1..]);
      forall j | 0 <= j < |t| ensures KeyLess(s[0], t[j]) {
        assert t[j] in t;
        if t[j] != k { assert t[j] in s[1..]; }
      }
    }
  }

  ghost predicate Distinct(s: seq<Key>) { forall i, j | 0 <= i < j < |s| :: s[i] != s[j] }

  lemma {:induction false} SortCorrect(s: seq<Key>)
    requires Distinct(s)
    ensures Ascending(Sort(s))
    ensures forall x :: x in Sort(s) <==> x in s
  {
    if s != [] {
      SortCorrect(s[1..]);
      assert s[0] !in s[1..];
      InsertContents(s[0], Sort(s[1..]));
      InsertAscending(s[0], Sort(s[1..]));
      assert s == [s[0]] + s[1..];
    }
  }

  lemma AscendingTail(s: seq<Key>, x: Key)
    requires Ascending(s) && s != []
    ensures x in s[1..] <==> x in s && x != s[0]
  {
    KeyIrreflexive(s[0]);
    assert s == [s[0]] + s[1..];
    if x in s[1..] {
      var i :| 0 <= i < |s[1..]| && s[1..][i] == x;
      assert KeyLess(s[0], s[i + 1]);
    }
  }

  /** There is only one ascending arrangement of a set of keys. */
  lemma {:induction false} AscendingUnique(s: seq<Key>, t: seq<Key>)
    requires Ascending(s) && Ascending(t)
    requires forall x :: x in s <==> x in t
    ensures s == t
  {
    assert s != [] ==> s[0] in t;
    assert t != [] ==> t[0] in s;
    if s != [] {
      if s[0] != t[0] {
        KeyIrreflexive(s[0]);
        KeyTransitive(s[0], t[0], s[0]);
      }
      forall x ensures x in s[1..] <==> x in t[1..] {
        AscendingTail(s, x);
        AscendingTail(t, x);
      }
      AscendingUnique(s[1..], t[1..]);
    }
  }

  /** The keys of a set in ascending order. */
  ghost function Arranged(ks: set<Key>): (s: seq<Key>)
    ensures Ascending(s) && forall x :: x in s <==> x in ks
  {
    if ks == {} then []
    else
      var k :| k in ks;
      var rest := Arranged(ks - {k});
      InsertContents(k, rest);
      InsertAscending(k, rest);
      Insert(k, rest)
  }

  // ---- bucket hashes ---------------------------------------------------------------

  ghost function Bucket(H: Hash, idx: Index, n: nat, b: nat): set<Key>
    requires n > 0
  {
    set k | k in idx && BucketOf(H, k, n) == b
  }

  /** The digests of the entries, concatenated: what the running bucket hash consumes. */
  function Fold(H: Hash, idx: Index, ks: seq<Key>): string
    requires forall k | k in ks :: k in idx
  {
    if ks == [] then [] else H(Raw(ks[0], idx[ks[0]])) + Fold(H, idx, ks[1..])
  }

  ghost function Preimage(H: Hash, idx: Index, n: nat, b: nat): string
    requires n > 0
  {
    Fold(H, idx, Arranged(Bucket(H, idx, n, b)))
  }

  ghost function BucketHashes(H: Hash, idx: Index, n: nat): map<nat, string>
    requires n > 0
  {
    map b | b in (set k | k in idx :: BucketOf(H, k, n)) :: H(Preimage(H, idx, n, b))
  }

  ghost function Differing(l: map<nat, string>, r: map<nat, string>): set<nat> {
    set b | b in l.Keys + r.Keys && Differs(l, r, b)
  }

  predicate Differs(l: map<nat, string>, r: map<nat, string>, b: nat) { !(b in l && b in r && l[b] == r[b]) }

  ghost predicate NoEntryCollision(H: Hash, I: Index, J: Index) {
    forall k, l | k in I && l in J && H(Raw(k, I[k])) == H(Raw(l, J[l])) :: Raw(k, I[k]) == Raw(l, J[l])
  }

  /** No two different strings hashed for these two indices collide. */
  ghost predicate NoCollision(H: Hash, I: Index, nI: nat, J: Index, nJ: nat)
    requires nI > 0 && nJ > 0
  {
    && NoEntryCollision(H, I, J)
    && (forall b: nat | H(Preimage(H, I, nI, b)) == H(Preimage(H, J, nJ, b)) :: Preimage(H, I, nI, b) == Preimage(H, J, nJ, b))
  }

  ghost predicate FixedWidth(H: Hash, I: Index) {
    forall k | k in I :: |H(Raw(k, I[k]))| == WIDTH
  }

  /** What the digest exchange needs of the hash and of the ids. */
  ghost predicate Sound(H: Hash, I: Index, nI: nat, J: Index, nJ: nat) {
    && nI > 0 && nJ > 0
    && Clean(I) && Clean(J)
    && FixedWidth(H, I) && FixedWidth(H, J)
    && NoCollision(H, I, nI, J, nJ)
  }

  lemma EntryDecided(H: Hash, I: Index, k: Key, J: Index, l: Key)
    requires k in I && l in J && Clean(I) && Clean(J) && NoEntryCollision(H, I, J)
    requires H(Raw(k, I[k])) == H(Raw(l, J[l]))
    ensures k == l && I[k] == J[k]
  {
    RawInjective(k, I[k], l, J[l]);
  }

  lemma FirstDigest(H: Hash, I: Index, ks: seq<Key>)
    requires ks != [] && (forall k | k in ks :: k in I) && FixedWidth(H, I)
    ensures |Fold(H, I, ks)| >= WIDTH
    ensures Fold(H, I, ks)[..WIDTH] == H(Raw(ks[0], I[ks[0]]))
    ensures Fold(H, I, ks)[WIDTH..] == Fold(H, I, ks[1..])
  {
  }

  lemma {:induction false} FoldInjective(H: Hash, I: Index, ks: seq<Key>, J: Index, ls: seq<Key>)
    requires (forall k | k in ks :: k in I) && (forall l | l in ls :: l in J)
    requires Clean(I) && Clean(J) && FixedWidth(H, I) && FixedWidth(H, J)
    requires NoEntryCollision(H, I, J)
    requires Fold(H, I, ks) == Fold(H, J, ls)
    ensures ks == ls && forall k | k in ks :: I[k] == J[k]
  {
    hide Raw, Clean, FixedWidth, NoEntryCollision;
    if ks != [] { FirstDigest(H, I, ks); }
    if ls != [] { FirstDigest(H, J, ls); }
    if ks != [] && ls != [] {
      EntryDecided(H, I, ks[0], J, ls[0]);
      FoldInjective(H, I, ks[1..], J, ls[1..]);
      assert ks == [ks[0]] + ks[1..] && ls == [ls[0]] + ls[1..];
    }
  }

  /** Buckets whose hashes match are identical, whatever the bucket counts. */
  lemma MatchingBucketsIdentical(H: Hash, I: Index, nI: nat, J: Index, nJ: nat, b: nat)
    requires Sound(H, I, nI, J, nJ)
    requires b !in Differing(BucketHashes(H, I, nI), BucketHashes(H, J, nJ))
    ensures Bucket(H, I, nI, b) == Bucket(H, J, nJ, b)
    ensures forall k | k in Bucket(H, I, nI, b) :: I[k] == J[k]
  {
    var l, r := BucketHashes(H, I, nI), BucketHashes(H, J, nJ);
    if b in l && b in r {
      EqualHashesEqualBuckets(H, I, nI, J, nJ, b);
    } else {
      assert b !in l && b !in r;
      AbsentBucket(H, I, nI, b);
      AbsentBucket(H, J, nJ, b);
    }
  }

  lemma AbsentBucket(H: Hash, I: Index, n: nat, b: nat)
    requires n > 0 && b !in BucketHashes(H, I, n)
    ensures Bucket(H, I, n, b) == {}
  {
  }

  lemma EqualHashesEqualBuckets(H: Hash, I: Index, nI: nat, J: Index, nJ: nat, b: nat)
    requires Sound(H, I, nI, J, nJ)
    requires H(Preimage(H, I, nI, b)) == H(Preimage(H, J, nJ, b))
    ensures Bucket(H, I, nI, b) == Bucket(H, J, nJ, b)
    ensures forall k | k in Bucket(H, I, nI, b) :: I[k] == J[k]
  {
    var ks, ls := Arranged(Bucket(H, I, nI, b)), Arranged(Bucket(H, J, nJ, b));
    FoldInjective(H, I, ks, J, ls);
    forall k ensures k in Bucket(H, I, nI, b) <==> k in Bucket(H, J, nJ, b) {
      assert k in ks <==> k in ls;
    }
  }

  // ---- the reconcile diff ------------------------------------------------------------

  /** Keys that the other side has newer: the plain index diff. */
  function Wanted(mine: Index, theirs: Index): set<Key> {
    set k | k in theirs && Newer(theirs[k], if k in mine then Some(mine[k]) else None)
  }

  /** The rows of an index that fall into the given buckets. */
  function Rows(H: Hash, idx: Index, n: nat, buckets: set<nat>): Index
    requires n > 0
  {
    map k | k in idx && BucketOf(H, k, n) in buckets :: idx[k]
  }

  /** A key missing from the transferred rows of one side but present on the other side's rows is absent or unneeded. */
  lemma RowsAgree(H: Hash, I: Index, nI: nat, J: Index, nJ: nat, k: Key)
    requires Sound(H, I, nI, J, nJ) && k in J
    ensures var diff := Differing(BucketHashes(H, I, nI), BucketHashes(H, J, nJ));
      && (k in Rows(H, J, nJ, diff) ==> (k in I <==> k in Rows(H, I, nI, diff)))
      && (k !in Rows(H, J, nJ, diff) ==> k in I && I[k] == J[k] && k !in Rows(H, I, nI, diff))
  {
    var diff := Differing(BucketHashes(H, I, nI), BucketHashes(H, J, nJ));
    var b := BucketOf(H, k, nJ);
    if b !in diff {
      MatchingBucketsIdentical(H, I, nI, J, nJ, b);
      assert k in Bucket(H, J, nJ, b);
    } else if k in I && BucketOf(H, k, nI) !in diff {
      assert k in Bucket(H, I, nI, BucketOf(H, k, nI));
      MatchingBucketsIdentical(H, I, nI, J, nJ, BucketOf(H, k, nI));
    }
  }

  lemma SoundSymmetric(H: Hash, I: Index, nI: nat, J: Index, nJ: nat)
    requires Sound(H, I, nI, J, nJ)
    ensures Sound(H, J, nJ, I, nI)
    ensures Differing(BucketHashes(H, I, nI), BucketHashes(H, J, nJ)) == Differing(BucketHashes(H, J, nJ), BucketHashes(H, I, nI))
  {
  }

  /**
   * The Merkle path is exact: for any two indices and any two bucket counts,
   * the pull set computed from the rows of the differing buckets is the pull set
   * of the full index diff. The push set is the same statement with the sides
   * exchanged (`PushExact`).
   */
  lemma PullExact(H: Hash, I: Index, nI: nat, J: Index, nJ: nat)
    requires Sound(H, I, nI, J, nJ)
    ensures var diff := Differing(BucketHashes(H, I, nI), BucketHashes(H, J, nJ));
            Wanted(Rows(H, I, nI, diff), Rows(H, J, nJ, diff)) == Wanted(I, J)
  {
    var diff := Differing(BucketHashes(H, I, nI), BucketHashes(H, J, nJ));
    var i, j := Rows(H, I, nI, diff), Rows(H, J, nJ, diff);
    forall k
      ensures k in Wanted(i, j) <==> k in Wanted(I, J)
    {
      if k in J {
        RowsAgree(H, I, nI, J, nJ, k);
        VersionIrreflexive(J[k]);
      }
    }
  }

  lemma PushExact(H: Hash, I: Index, nI: nat, J: Index, nJ: nat)
    requires Sound(H, I, nI, J, nJ)
    ensures var diff := Differing(BucketHashes(H, I, nI), BucketHashes(H, J, nJ));
            Wanted(Rows(H, J, nJ, diff), Rows(H, I, nI, diff)) == Wanted(J, I)
  {
    SoundSymmetric(H, I, nI, J, nJ);
    PullExact(H, J, nJ, I, nI);
  }

  /** The fast path stops only when nothing differs; with equal bucket counts it always stops then. */
  lemma FastPathExact(H: Hash, I: Index, nI: nat, J: Index, nJ: nat)
    requires Sound(H, I, nI, J, nJ)
    ensures Differing(BucketHashes(H, I, nI), BucketHashes(H, J, nJ)) == {} ==> I == J
    ensures nI == nJ && I == J ==> Differing(BucketHashes(H, I, nI), BucketHashes(H, J, nJ)) == {}
  {
    var diff := Differing(BucketHashes(H, I, nI), BucketHashes(H, J, nJ));
    if diff == {} {
      SoundSymmetric(H, I, nI, J, nJ);
      forall k
        ensures k in I <==> k in J
        ensures k in I ==> I[k] == J[k]
      {
        if k in J { RowsAgree(H, I, nI, J, nJ, k); }
        if k in I { RowsAgree(H, J, nJ, I, nI, k); }
      }
      assert I == J;
    }
  }

  // ---- the executable digest -----------------------------------------------------------

  lemma ArrangedFold(H: Hash, idx: Index, n: nat, b: nat, entries: seq<Key>)
    requires n > 0 && Distinct(entries)
    requires forall k :: k in entries <==> k in Bucket(H, idx, n, b)
    ensures Sort(entries) == Arranged(Bucket(H, idx, n, b))
  {
    SortCorrect(entries);
    AscendingUnique(Sort(entries), Arranged(Bucket(H, idx, n, b)));
  }

  /** First loop of `bucket_hashes`: partition the keys, in whatever order the dictionary yields them. */
  method Partitioned(H: Hash, idx: Index, n: nat) returns (buckets: map<nat, seq<Key>>)
    requires n > 0
    ensures buckets.Keys == set k | k in idx :: BucketOf(H, k, n)
    ensures forall b | b in buckets :: Distinct(buckets[b]) && forall k :: k in buckets[b] <==> k in Bucket(H, idx, n, b)
  {
    buckets := map[];
    var todo := idx.Keys;
    while todo != {}
      invariant todo <= idx.Keys
      invariant buckets.Keys == set k | k in idx.Keys - todo :: BucketOf(H, k, n)
      invariant forall b | b in buckets :: Distinct(buckets[b])
      invariant forall b | b in buckets :: forall k :: k in buckets[b] <==> k in Bucket(H, idx, n, b) && k !in todo
      decreases |todo|
    {
      var k :| k in todo;
      var b := BucketOf(H, k, n);
      buckets := buckets[b := (if b in buckets then buckets[b] else []) + [k]];
      todo := todo - {k};
    }
  }

  /** `bucket_hashes`: independent of the order in which the index is enumerated. */
  method ComputeBucketHashes(H: Hash, idx: Index, n: nat) returns (out: map<nat, string>)
    requires n > 0
    ensures out == BucketHashes(H, idx, n)
  {
    var buckets := Partitioned(H, idx, n);
    out := map[];
    var todo := buckets.Keys;
    while todo != {}
      invariant todo <= buckets.Keys
      invariant out.Keys == buckets.Keys - todo
      invariant forall b | b in out :: out[b] == H(Preimage(H, idx, n, b))
      decreases |todo|
    {
      var b :| b in todo;
      ArrangedFold(H, idx, n, b, buckets[b]);
      var sorted := Sort(buckets[b]);
      var acc := FoldDigests(H, idx, sorted);
      out := out[b := H(acc)];
      todo := todo - {b};
    }
  }

  lemma {:induction false} FoldSnoc(H: Hash, idx: Index, ks: seq<Key>, k: Key)
    requires (forall x | x in ks :: x in idx) && k in idx
    ensures Fold(H, idx, ks + [k]) == Fold(H, idx, ks) + H(Raw(k, idx[k]))
  {
    if ks != [] {
      assert (ks + [k])[1..] == ks[1..] + [k];
      FoldSnoc(H, idx, ks[1..], k);
    }
  }

  lemma FoldEmpty(H: Hash, idx: Index)
    ensures Fold(H, idx, []) == []
  {
  }

  /** The `h.update` loop over the sorted entries of one bucket. */
  method FoldDigests(H: Hash, idx: Index, ks: seq<Key>) returns (acc: string)
    requires forall k | k in ks :: k in idx
    ensures acc == Fold(H, idx, ks)
  {
    acc := [];
    hide Fold, Raw;
    assert Fold(H, idx, ks[..0]) == [] by { FoldEmpty(H, idx); }
    for i := 0 to |ks|
      invariant acc == Fold(H, idx, ks[..i])
    {
      FoldSnoc(H, idx, ks[..i], ks[i]);
      assert ks[..i + 1] == ks[..i] + [ks[i]];
      acc := acc + H(Raw(ks[i], idx[ks[i]]));
    }
    assert ks[..|ks|] == ks;
  }

  /** `differing_buckets` */
  method ComputeDiffering(l: map<nat, string>, r: map<nat, string>) returns (diff: set<nat>)
    ensures diff == Differing(l, r)
  {
    hide Differs;
    diff := {};
    var todo := l.Keys + r.Keys;
    while todo != {}
      invariant todo <= l.Keys + r.Keys
      invariant forall b :: b in diff <==> b in l.Keys + r.Keys - todo && Differs(l, r, b)
      decreases |todo|
    {
      var b :| b in todo;
      if Differs(l, r, b) {
        diff := diff + {b};
      }
      todo := todo - {b};
    }
  }
}
