/** Joining strings with a separator and splitting them again. */
module Separators {

  /** `str.partition`: the text before and after the first separator. */
  function Partition(s: string, sep: char): (string, string) {
    if s == [] then ([], [])
    else if s[0] == sep then ([], s[1..])
    else var (l, r) := Partition(s[1..], sep); ([s[0]] + l, r)
  }

  lemma {:induction false} PartitionJoined(a: string, sep: char, b: string)
    requires sep !in a
    ensures Partition(a + [sep] + b, sep) == (a, b)
  {
    if a == [] {
      assert (a + [sep] + b)[1..] == b;
    } else {
      assert (a + [sep] + b)[1..] == a[1..] + [sep] + b;
      PartitionJoined(a[1..], sep, b);
      assert a == [a[0]] + a[1..];
    }
  }

  lemma {:induction false} PartitionHead(s: string, sep: char)
    ensures sep !in Partition(s, sep).0
  {
    if s != [] && s[0] != sep { PartitionHead(s[1..], sep); }
  }

  /** A separator that does not occur in the first part makes the join unambiguous. */
  lemma JoinInjective(a: string, b: string, c: string, d: string, sep: char)
    requires sep !in a && sep !in c
    requires a + [sep] + b == c + [sep] + d
    ensures a == c && b == d
  {
    PartitionJoined(a, sep, b);
    PartitionJoined(c, sep, d);
  }
}

/** The composite keys of the persisted maps (cluster/state.py). */
module StateKeys {
  import opened Separators

  const NUL: char := '\0'

  function MakeKey(dataset: string, sid: string): string { dataset + [NUL] + sid }

  function SplitKey(key: string): (string, string) { Partition(key, NUL) }

  /** Splitting undoes making exactly when the dataset contains no NUL; the service id is free. */
  lemma SplitUndoesMake(dataset: string, sid: string)
    ensures SplitKey(MakeKey(dataset, sid)) == (dataset, sid) <==> NUL !in dataset
  {
    if NUL !in dataset {
      PartitionJoined(dataset, NUL, sid);
    } else {
      PartitionHead(MakeKey(dataset, sid), NUL);
    }
  }

  /** Distinct records have distinct composite keys. */
  lemma MakeKeyInjective(d: string, s: string, d': string, s': string)
    requires NUL !in d && NUL !in d' && MakeKey(d, s) == MakeKey(d', s')
    ensures d == d' && s == s'
  {
    JoinInjective(d, s, d', s', NUL);
  }
}
