/**
 * Accumulation of streamed message chunks (intelli_router/types.py,
 * `AssistantMessageChunk.__add__`). Fields whose content does not matter to
 * the merge (parsed content, log probabilities, provider data) are opaque
 * strings.
 */
module Chunks {
  import opened Order

  datatype ToolCall = ToolCall(id: string, kind: string, name: string, arguments: string, index: Option<int>)

  // ---- tool calls ----------------------------------------------------------------------

  /** An incoming fragment continues a call: later non-empty id and name win, arguments are appended. */
  function Continue(t: ToolCall, u: ToolCall): ToolCall {
    t.(id := if u.id != "" then u.id else t.id,
       name := if u.name != "" then u.name else t.name,
       arguments := t.arguments + u.arguments)
  }

  predicate Has(s: seq<ToolCall>, i: int) { exists p :: 0 <= p < |s| && s[p].index == Some(i) }

  /** The position `by_index` points to: the last call with that index. */
  function LastAt(s: seq<ToolCall>, i: int): (p: nat)
    requires Has(s, i)
    ensures p < |s| && s[p].index == Some(i) && forall q | p < q < |s| :: s[q].index != Some(i)
  {
    if s[|s| - 1].index == Some(i) then |s| - 1 else LastAt(s[..|s| - 1], i)
  }

  /** One turn of the loop over the incoming calls. */
  function Insert(s: seq<ToolCall>, u: ToolCall): seq<ToolCall> {
    if u.index.Some? && Has(s, u.index.value) then
      var p := LastAt(s, u.index.value);
      s[p := Continue(s[p], u)]
    else s + [u]
  }

  function InsertAll(a: seq<ToolCall>, b: seq<ToolCall>): seq<ToolCall> {
    if b == [] then a else Insert(InsertAll(a, b[..|b| - 1]), b[|b| - 1])
  }

  /** `_merge_tool_calls` */
  function MergeCalls(a: Option<seq<ToolCall>>, b: Option<seq<ToolCall>>): Option<seq<ToolCall>> {
    if b.None? then a else if a.None? then b else Some(InsertAll(a.value, b.value))
  }

  lemma LastAtUnique(s: seq<ToolCall>, i: int, p: nat)
    requires p < |s| && s[p].index == Some(i) && forall q | p < q < |s| :: s[q].index != Some(i)
    ensures Has(s, i) && LastAt(s, i) == p
  {
  }

  lemma ContinueAssociative(t: ToolCall, u: ToolCall, v: ToolCall)
    ensures Continue(Continue(t, u), v) == Continue(t, Continue(u, v))
  {
  }

  /** Two fragments of one call, inserted one after the other or already joined. */
  lemma InsertJoined(s: seq<ToolCall>, u: ToolCall, v: ToolCall)
    requires u.index.Some? && v.index == u.index
    ensures Insert(s, Continue(u, v)) == Insert(Insert(s, u), v)
  {
    var i := u.index.value;
    if Has(s, i) {
      var p := LastAt(s, i);
      ContinueAssociative(s[p], u, v);
      LastAtUnique(Insert(s, u), i, p);
    } else {
      LastAtUnique(Insert(s, u), i, |s|);
    }
  }

  /** A fragment that continues an existing call does not interfere with other calls. */
  lemma InsertCommutes(s: seq<ToolCall>, u: ToolCall, v: ToolCall)
    requires u.index.Some? && Has(s, u.index.value) && v.index != u.index
    ensures Insert(Insert(s, u), v) == Insert(Insert(s, v), u)
  {
    var p := LastAt(s, u.index.value);
    LastAtUnique(Insert(s, v), u.index.value, p);
    if v.index.Some? && Has(s, v.index.value) {
      LastAtUnique(Insert(s, u), v.index.value, LastAt(s, v.index.value));
    } else if v.index.Some? {
      assert !Has(Insert(s, u), v.index.value);
    }
  }

  lemma InsertKeeps(s: seq<ToolCall>, u: ToolCall, i: int)
    ensures Has(Insert(s, u), i) <==> Has(s, i) || u.index == Some(i)
  {
    var r := Insert(s, u);
    if Has(s, i) {
      var p :| 0 <= p < |s| && s[p].index == Some(i);
      assert r[p].index == Some(i);
    }
    if u.index == Some(i) && !Has(s, i) { assert r[|s|].index == Some(i); }
  }

  lemma {:induction false} InsertAllKeeps(a: seq<ToolCall>, b: seq<ToolCall>, i: int)
    ensures Has(InsertAll(a, b), i) <==> Has(a, i) || Has(b, i)
  {
    if b != [] {
      var k := |b| - 1;
      InsertAllKeeps(a, b[..k], i);
      InsertKeeps(InsertAll(a, b[..k]), b[k], i);
      assert Has(b, i) <==> Has(b[..k], i) || b[k].index == Some(i) by {
        if Has(b, i) { assert Has(b[..k], i) || b[k].index == Some(i) by { var p := LastAt(b, i); if p < k { assert b[..k][p] == b[p]; } } }
        if Has(b[..k], i) { var p := LastAt(b[..k], i); assert b[p].index == Some(i); }
      }
    }
  }

  lemma InsertAllSnoc(a: seq<ToolCall>, b: seq<ToolCall>, q: ToolCall)
    ensures InsertAll(a, b + [q]) == Insert(InsertAll(a, b), q)
  {
    hide Insert;
    assert (b + [q])[..|b|] == b;
  }

  lemma InsertAtEnd(r: seq<ToolCall>, q: ToolCall, u: ToolCall)
    requires u.index.Some? && q.index == u.index
    ensures Insert(r + [q], u) == r + [Continue(q, u)]
  {
    LastAtUnique(r + [q], u.index.value, |r|);
    hide Continue;
  }

  lemma InsertBeforeEnd(r: seq<ToolCall>, q: ToolCall, u: ToolCall)
    requires u.index.Some? && q.index != u.index && Has(r + [q], u.index.value)
    ensures Has(r, u.index.value) && Insert(r + [q], u) == Insert(r, u) + [q]
  {
    var p := LastAt(r + [q], u.index.value);
    assert p < |r| && r[p] == (r + [q])[p];
    LastAtUnique(r, u.index.value, p);
    hide Continue, LastAt;
  }

  /** Inserting into the right operand first, or into the merged list: the same. */
  lemma {:induction false} InsertDistributes(a: seq<ToolCall>, r: seq<ToolCall>, u: ToolCall)
    ensures InsertAll(a, Insert(r, u)) == Insert(InsertAll(a, r), u)
    decreases |r|
  {
    if u.index.None? || !Has(r, u.index.value) {
      InsertAllSnoc(a, r, u);
    } else {
      var k := |r| - 1;
      var r0, q := r[..k], r[k];
      var f := InsertAll(a, r0);
      assert r == r0 + [q];
      InsertAllSnoc(a, r0, q);
      if q.index == u.index {
        InsertAtEnd(r0, q, u);
        InsertAllSnoc(a, r0, Continue(q, u));
        InsertJoined(f, q, u);
      } else {
        InsertBeforeEnd(r0, q, u);
        InsertAllSnoc(a, Insert(r0, u), q);
        InsertDistributes(a, r0, u);
        InsertAllKeeps(a, r0, u.index.value);
        InsertCommutes(f, u, q);
      }
      hide Insert, InsertAll, Continue, Has;
    }
  }

  lemma {:induction false} InsertAllAssociative(a: seq<ToolCall>, b: seq<ToolCall>, c: seq<ToolCall>)
    ensures InsertAll(InsertAll(a, b), c) == InsertAll(a, InsertAll(b, c))
  {
    if c != [] {
      var k := |c| - 1;
      InsertAllAssociative(a, b, c[..k]);
      InsertDistributes(a, InsertAll(b, c[..k]), c[k]);
    }
  }

  lemma MergeCallsAssociative(a: Option<seq<ToolCall>>, b: Option<seq<ToolCall>>, c: Option<seq<ToolCall>>)
    ensures MergeCalls(MergeCalls(a, b), c) == MergeCalls(a, MergeCalls(b, c))
  {
    if a.Some? && b.Some? && c.Some? { InsertAllAssociative(a.value, b.value, c.value); }
  }

  // ---- conservation ------------------------------------------------------------------------

  /** All argument text carried under one index, in list order. */
  function ArgumentsOf(s: seq<ToolCall>, i: int): string {
    if s == [] then ""
    else var k := |s| - 1; ArgumentsOf(s[..k], i) + if s[k].index == Some(i) then s[k].arguments else ""
  }

  lemma {:induction false} AppendAtLast(s: seq<ToolCall>, p: nat, t: ToolCall, i: int, extra: string)
    requires p < |s| && t.index == s[p].index && t.arguments == s[p].arguments + extra
    requires s[p].index.Some? && forall q | p < q < |s| :: s[q].index != s[p].index
    ensures ArgumentsOf(s[p := t], i) == ArgumentsOf(s, i) + if s[p].index == Some(i) then extra else ""
  {
    var k := |s| - 1;
    if p == k {
      assert s[p := t][..k] == s[..k];
    } else {
      assert s[p := t][..k] == s[..k][p := t];
      AppendAtLast(s[..k], p, t, i, extra);
    }
  }

  lemma InsertArguments(s: seq<ToolCall>, u: ToolCall, i: int)
    ensures ArgumentsOf(Insert(s, u), i) == ArgumentsOf(s, i) + if u.index == Some(i) then u.arguments else ""
  {
    if u.index.Some? && Has(s, u.index.value) {
      var p := LastAt(s, u.index.value);
      AppendAtLast(s, p, Continue(s[p], u), i, u.arguments);
    } else {
      assert (s + [u])[..|s|] == s;
    }
  }

  /** For every index the merged text is the text of the first operand followed by the text of the second. */
  lemma {:induction false} ArgumentsConcatenate(a: seq<ToolCall>, b: seq<ToolCall>, i: int)
    ensures ArgumentsOf(InsertAll(a, b), i) == ArgumentsOf(a, i) + ArgumentsOf(b, i)
  {
    if b != [] {
      var k := |b| - 1;
      ArgumentsConcatenate(a, b[..k], i);
      InsertArguments(InsertAll(a, b[..k]), b[k], i);
    }
  }

  ghost predicate OneCallPerIndex(s: seq<ToolCall>) {
    forall p, q | 0 <= p < q < |s| :: s[p].index.Some? ==> s[p].index != s[q].index
  }

  /** Calls never multiply: merged into a list with one call per index, a list leaves one call per index. */
  lemma {:induction false} IndicesStayUnique(a: seq<ToolCall>, b: seq<ToolCall>)
    requires OneCallPerIndex(a)
    ensures OneCallPerIndex(InsertAll(a, b))
  {
    if b != [] { IndicesStayUnique(a, b[..|b| - 1]); }
  }

  // ---- usage metadata --------------------------------------------------------------------------

  datatype Usage = Usage(
    modelName: Option<string>, input: int, output: int, total: int,
    cache: int, cacheRead: Option<int>, cacheMiss: Option<int>, cacheWrite: Option<int>,
    cacheStatus: Option<string>, cacheSource: Option<string>, authoritative: bool, cacheCreation: Option<int>,
    reasoning: int, inputCost: real, outputCost: real, totalCost: real)

  /** `__post_init__` */
  function Complete(u: Usage): Usage {
    if u.total == 0 && (u.input != 0 || u.output != 0) then u.(total := u.input + u.output) else u
  }

  function NewestInt(incoming: int, existing: int): int { if incoming == 0 then existing else incoming }

  function NewestReal(incoming: real, existing: real): real { if incoming == 0.0 then existing else incoming }

  function NewestOption(incoming: Option<int>, existing: Option<int>): Option<int> {
    if incoming.None? || incoming == Some(0) then existing else incoming
  }

  function Later<T>(incoming: Option<T>, existing: Option<T>): Option<T> {
    if incoming.Some? then incoming else existing
  }

  /** `_merge_usage_metadata` on two reports. */
  function MergeReports(a: Usage, b: Usage): Usage {
    var input, output := NewestInt(b.input, a.input), NewestInt(b.output, a.output);
    var total := if input != 0 || output != 0 then input + output else NewestInt(b.total, a.total);
    Complete(Usage(
               Later(b.modelName, a.modelName), input, output, total,
               NewestInt(b.cache, a.cache), NewestOption(b.cacheRead, a.cacheRead), NewestOption(b.cacheMiss, a.cacheMiss),
               NewestOption(b.cacheWrite, a.cacheWrite), Later(b.cacheStatus, a.cacheStatus), Later(b.cacheSource, a.cacheSource),
               a.authoritative || b.authoritative, NewestOption(b.cacheCreation, a.cacheCreation),
               NewestInt(b.reasoning, a.reasoning), NewestReal(b.inputCost, a.inputCost),
               NewestReal(b.outputCost, a.outputCost), NewestReal(b.totalCost, a.totalCost)))
  }

  function MergeUsage(a: Option<Usage>, b: Option<Usage>): Option<Usage> {
    if a.None? then b else if b.None? then a else Some(MergeReports(a.value, b.value))
  }

  lemma MergeReportsAssociative(a: Usage, b: Usage, c: Usage)
    ensures MergeReports(MergeReports(a, b), c) == MergeReports(a, MergeReports(b, c))
  {
  }

  lemma MergeUsageAssociative(a: Option<Usage>, b: Option<Usage>, c: Option<Usage>)
    ensures MergeUsage(MergeUsage(a, b), c) == MergeUsage(a, MergeUsage(b, c))
  {
    hide MergeReports;
    if a.Some? && b.Some? && c.Some? { MergeReportsAssociative(a.value, b.value, c.value); }
  }

  // ---- chunks ----------------------------------------------------------------------------------

  datatype Chunk = Chunk(
    content: string, reasoning: Option<string>, toolCalls: Option<seq<ToolCall>>, usage: Option<Usage>,
    finishReason: Option<string>, parserContent: Option<string>, promptIds: Option<seq<int>>,
    completionIds: Option<seq<int>>, logprobs: Option<string>, responseId: Option<string>, responseModel: Option<string>,
    providerMetadata: map<string, string>, providerContent: Option<string>)

  function OrEmpty<T>(s: Option<seq<T>>): seq<T> { match s case None => [] case Some(v) => v }

  function Truthy<T>(s: Option<seq<T>>): bool { s.Some? && s.value != [] }

  /** Python's `a or b` on an optional sequence. */
  function Or<T>(a: Option<seq<T>>, b: Option<seq<T>>): Option<seq<T>> { if Truthy(a) then a else b }

  /** `__add__` */
  function Add(a: Chunk, b: Chunk): Chunk {
    var ids := OrEmpty(a.completionIds) + OrEmpty(b.completionIds);
    Chunk(
      a.content + b.content,
      if a.reasoning.Some? || b.reasoning.Some? then Some(OrEmpty(a.reasoning) + OrEmpty(b.reasoning)) else None,
      MergeCalls(a.toolCalls, b.toolCalls),
      MergeUsage(a.usage, b.usage),
      Later(b.finishReason, a.finishReason),
      Later(b.parserContent, a.parserContent),
      Or(a.promptIds, b.promptIds),
      if ids == [] then None else Some(ids),
      Later(b.logprobs, a.logprobs),
      Or(b.responseId, a.responseId),
      Or(b.responseModel, a.responseModel),
      a.providerMetadata + b.providerMetadata,
      Later(b.providerContent, a.providerContent))
  }

  /** Adding chunks is associative on every field. */
  lemma AddAssociative(a: Chunk, b: Chunk, c: Chunk)
    ensures Add(Add(a, b), c) == Add(a, Add(b, c))
  {
    var l, r := Add(Add(a, b), c), Add(a, Add(b, c));
    assert l.content == r.content;
    assert OrEmpty(l.reasoning) == OrEmpty(r.reasoning);
    MergeCallsAssociative(a.toolCalls, b.toolCalls, c.toolCalls);
    MergeUsageAssociative(a.usage, b.usage, c.usage);
    var x, y, z := OrEmpty(a.completionIds), OrEmpty(b.completionIds), OrEmpty(c.completionIds);
    assert (x + y) + z == x + (y + z);
    assert OrEmpty(l.completionIds) == x + y + z == OrEmpty(r.completionIds);
    assert l.providerMetadata == r.providerMetadata;
  }

  /** A way of grouping the chunks of a stream. */
  datatype Grouping = One(chunk: Chunk) | Plus(left: Grouping, right: Grouping)

  function Evaluate(g: Grouping): Chunk {
    match g case One(c) => c case Plus(l, r) => Add(Evaluate(l), Evaluate(r))
  }

  function Stream(g: Grouping): (s: seq<Chunk>)
    ensures s != []
  {
    match g case One(c) => [c] case Plus(l, r) => Stream(l) + Stream(r)
  }

  /** The accumulation loop of a caller: first chunk, then `+=`. */
  function Accumulate(s: seq<Chunk>): Chunk
    requires s != []
  {
    if |s| == 1 then s[0] else Add(Accumulate(s[..|s| - 1]), s[|s| - 1])
  }

  lemma {:induction false} AccumulateJoin(s: seq<Chunk>, t: seq<Chunk>)
    requires s != [] && t != []
    ensures Accumulate(s + t) == Add(Accumulate(s), Accumulate(t))
  {
    var k := |t| - 1;
    if k == 0 {
      assert (s + t)[..|s + t| - 1] == s;
    } else {
      assert (s + t)[..|s + t| - 1] == s + t[..k];
      AccumulateJoin(s, t[..k]);
      AddAssociative(Accumulate(s), Accumulate(t[..k]), t[k]);
    }
  }

  /** Any grouping of a stream gives the message that plain accumulation gives. */
  lemma {:induction false} GroupingIrrelevant(g: Grouping)
    ensures Evaluate(g) == Accumulate(Stream(g))
  {
    match g
    case One(_) =>
    case Plus(l, r) =>
      GroupingIrrelevant(l);
      GroupingIrrelevant(r);
      AccumulateJoin(Stream(l), Stream(r));
  }

  /** In an accumulated stream, the text under an index is the concatenation of its fragments in arrival order. */
  function Fragments(s: seq<Chunk>, i: int): string {
    if s == [] then "" else Fragments(s[..|s| - 1], i) + ArgumentsOf(OrEmpty(s[|s| - 1].toolCalls), i)
  }

  lemma {:induction false} StreamArguments(s: seq<Chunk>, i: int)
    requires s != []
    ensures ArgumentsOf(OrEmpty(Accumulate(s).toolCalls), i) == Fragments(s, i)
  {
    hide Add, ArgumentsOf;
    var k := |s| - 1;
    if k == 0 {
      assert Fragments(s[..0], i) == "";
    } else {
      StreamArguments(s[..k], i);
      AddArguments(Accumulate(s[..k]), s[k], i);
    }
  }

  lemma AddArguments(a: Chunk, b: Chunk, i: int)
    ensures ArgumentsOf(OrEmpty(Add(a, b).toolCalls), i) == ArgumentsOf(OrEmpty(a.toolCalls), i) + ArgumentsOf(OrEmpty(b.toolCalls), i)
  {
    if a.toolCalls.Some? && b.toolCalls.Some? {
      ArgumentsConcatenate(a.toolCalls.value, b.toolCalls.value, i);
    }
  }

  // ---- what a whole stream amounts to ------------------------------------------------------------

  /** The last value that is not blank, or the first value if all are. */
  function LastOf<T>(xs: seq<T>, blank: T -> bool): T
    requires xs != []
  {
    var k := |xs| - 1;
    if k > 0 && blank(xs[k]) then LastOf(xs[..k], blank) else xs[k]
  }

  /** The first value that is not blank, or the last value if all are. */
  function FirstOf<T>(xs: seq<T>, blank: T -> bool): T
    requires xs != []
  {
    if |xs| > 1 && blank(xs[0]) then FirstOf(xs[1..], blank) else xs[0]
  }

  lemma {:induction false} LastOfMeans<T>(xs: seq<T>, blank: T -> bool)
    requires xs != []
    ensures exists p :: 0 <= p < |xs| && LastOf(xs, blank) == xs[p] && (forall q | p < q < |xs| :: blank(xs[q])) && (blank(xs[p]) ==> p == 0)
  {
    var k := |xs| - 1;
    if k > 0 && blank(xs[k]) {
      LastOfMeans(xs[..k], blank);
      var p :| 0 <= p < k && LastOf(xs[..k], blank) == xs[..k][p] && (forall q | p < q < k :: blank(xs[..k][q])) && (blank(xs[..k][p]) ==> p == 0);
      assert forall q | p < q < k :: blank(xs[q]) by { assert forall q | p < q < k :: xs[..k][q] == xs[q]; }
      assert LastOf(xs, blank) == xs[p];
    } else {
      assert LastOf(xs, blank) == xs[k];
    }
  }

  lemma {:induction false} FirstOfMeans<T>(xs: seq<T>, blank: T -> bool)
    requires xs != []
    ensures exists p :: 0 <= p < |xs| && FirstOf(xs, blank) == xs[p] && (forall q | 0 <= q < p :: blank(xs[q])) && (blank(xs[p]) ==> p == |xs| - 1)
  {
    if |xs| > 1 && blank(xs[0]) {
      FirstOfMeans(xs[1..], blank);
      var p :| 0 <= p < |xs| - 1 && FirstOf(xs[1..], blank) == xs[1..][p] && (forall q | 0 <= q < p :: blank(xs[1..][q])) && (blank(xs[1..][p]) ==> p == |xs| - 2);
      assert forall q | 0 <= q < p + 1 :: blank(xs[q]) by { assert forall q | 0 < q < p + 1 :: xs[q] == xs[1..][q - 1]; }
      assert FirstOf(xs, blank) == xs[p + 1];
    } else {
      assert FirstOf(xs, blank) == xs[0];
    }
  }

  lemma {:induction false} FirstOfGrows<T>(xs: seq<T>, x: T, blank: T -> bool)
    requires xs != []
    ensures FirstOf(xs + [x], blank) == if blank(FirstOf(xs, blank)) then x else FirstOf(xs, blank)
  {
    if |xs| > 1 && blank(xs[0]) {
      FirstOfGrows(xs[1..], x, blank);
      assert (xs + [x])[1..] == xs[1..] + [x];
    } else {
      assert (xs + [x])[1..] == xs[1..] + [x];
    }
  }

  function Concat<T>(parts: seq<seq<T>>): seq<T> {
    if parts == [] then [] else Concat(parts[..|parts| - 1]) + parts[|parts| - 1]
  }

  function Each<A, B>(f: A -> B, s: seq<A>): (r: seq<B>)
    ensures |r| == |s| && forall i | 0 <= i < |s| :: r[i] == f(s[i])
  {
    seq(|s|, i requires 0 <= i < |s| => f(s[i]))
  }

  lemma EachPrefix<A, B>(f: A -> B, s: seq<A>)
    requires s != []
    ensures Each(f, s) == Each(f, s[..|s| - 1]) + [f(s[|s| - 1])]
    ensures Each(f, s)[..|s| - 1] == Each(f, s[..|s| - 1])
  {
  }

  function Content(c: Chunk): string { c.content }
  function Reasoning(c: Chunk): string { OrEmpty(c.reasoning) }
  function CompletionIds(c: Chunk): seq<int> { OrEmpty(c.completionIds) }
  function FinishReason(c: Chunk): Option<string> { c.finishReason }
  function ParserContent(c: Chunk): Option<string> { c.parserContent }
  function Logprobs(c: Chunk): Option<string> { c.logprobs }
  function ProviderContent(c: Chunk): Option<string> { c.providerContent }
  function ResponseId(c: Chunk): Option<string> { c.responseId }
  function ResponseModel(c: Chunk): Option<string> { c.responseModel }
  function PromptIds(c: Chunk): Option<seq<int>> { c.promptIds }
  function Metadata(key: string): Chunk -> Option<string> { (c: Chunk) => if key in c.providerMetadata then Some(c.providerMetadata[key]) else None }

  predicate Missing<T>(o: Option<T>) { o.None? }
  predicate MissingOrEmpty<T>(o: Option<seq<T>>) { o.None? || o.value == [] }

  /** The content, the reasoning and the completion ids of a stream are those of its chunks in arrival order. */
  lemma {:induction false} StreamTexts(s: seq<Chunk>)
    requires s != []
    ensures Accumulate(s).content == Concat(Each(Content, s))
    ensures OrEmpty(Accumulate(s).reasoning) == Concat(Each(Reasoning, s))
    ensures OrEmpty(Accumulate(s).completionIds) == Concat(Each(CompletionIds, s))
  {
    hide Add, Each;
    var k := |s| - 1;
    EachPrefix(Content, s);
    EachPrefix(Reasoning, s);
    EachPrefix(CompletionIds, s);
    if k == 0 {
      assert Each(Content, s[..0]) == [] && Each(Reasoning, s[..0]) == [] && Each(CompletionIds, s[..0]) == [];
    } else {
      StreamTexts(s[..k]);
      AddTexts(Accumulate(s[..k]), s[k]);
      hide Accumulate;
    }
  }

  /** They are absent exactly when no chunk has any. */
  lemma {:induction false} StreamPresence(s: seq<Chunk>)
    requires s != []
    ensures Accumulate(s).reasoning.None? <==> forall i | 0 <= i < |s| :: s[i].reasoning.None?
    ensures |s| > 1 ==> (Accumulate(s).completionIds.None? <==> OrEmpty(Accumulate(s).completionIds) == [])
  {
    hide Add;
    var k := |s| - 1;
    if k > 0 {
      StreamPresence(s[..k]);
      AddTexts(Accumulate(s[..k]), s[k]);
    }
  }

  lemma AddTexts(a: Chunk, b: Chunk)
    ensures var m := Add(a, b);
      && m.content == a.content + b.content && OrEmpty(m.reasoning) == OrEmpty(a.reasoning) + OrEmpty(b.reasoning)
      && (m.reasoning.None? <==> a.reasoning.None? && b.reasoning.None?)
      && OrEmpty(m.completionIds) == OrEmpty(a.completionIds) + OrEmpty(b.completionIds)
      && (m.completionIds.None? <==> OrEmpty(m.completionIds) == [])
  {
    hide MergeCalls, MergeUsage;
  }

  /** What chunks report is what the last chunk that reports it says; the prompt ids are the first non-empty ones. */
  lemma {:induction false} StreamReports(s: seq<Chunk>)
    requires s != []
    ensures var m := Accumulate(s);
      && m.finishReason == LastOf(Each(FinishReason, s), Missing)
      && m.parserContent == LastOf(Each(ParserContent, s), Missing)
      && m.logprobs == LastOf(Each(Logprobs, s), Missing)
      && m.providerContent == LastOf(Each(ProviderContent, s), Missing)
      && m.responseId == LastOf(Each(ResponseId, s), MissingOrEmpty)
      && m.responseModel == LastOf(Each(ResponseModel, s), MissingOrEmpty)
      && m.promptIds == FirstOf(Each(PromptIds, s), MissingOrEmpty)
  {
    hide MergeCalls, MergeUsage;
    var k := |s| - 1;
    if k > 0 {
      StreamReports(s[..k]);
      EachPrefix(FinishReason, s);
      EachPrefix(ParserContent, s);
      EachPrefix(Logprobs, s);
      EachPrefix(ProviderContent, s);
      EachPrefix(ResponseId, s);
      EachPrefix(ResponseModel, s);
      EachPrefix(PromptIds, s);
      FirstOfGrows(Each(PromptIds, s[..k]), s[k].promptIds, MissingOrEmpty);
    }
  }

  /** Per key the provider's metadata is the last that came. */
  lemma {:induction false} StreamMetadata(s: seq<Chunk>, key: string)
    requires s != []
    ensures Metadata(key)(Accumulate(s)) == LastOf(Each(Metadata(key), s), Missing)
  {
    hide MergeCalls, MergeUsage;
    var k := |s| - 1;
    if k > 0 {
      StreamMetadata(s[..k], key);
      EachPrefix(Metadata(key), s);
    }
  }

  /** The usage reports of a stream. */
  function Reports(s: seq<Chunk>): seq<Usage> {
    if s == [] then [] else Reports(s[..|s| - 1]) + (match s[|s| - 1].usage case None => [] case Some(u) => [u])
  }

  predicate Zero(n: int) { n == 0 }
  predicate Free(x: real) { x == 0.0 }
  predicate MissingOrZero(o: Option<int>) { o.None? || o.value == 0 }

  function ModelName(u: Usage): Option<string> { u.modelName }
  function CacheStatus(u: Usage): Option<string> { u.cacheStatus }
  function CacheSource(u: Usage): Option<string> { u.cacheSource }
  function Input(u: Usage): int { u.input }
  function Output(u: Usage): int { u.output }
  function Total(u: Usage): int { u.total }
  function Cache(u: Usage): int { u.cache }
  function ReasoningTokens(u: Usage): int { u.reasoning }
  function CacheRead(u: Usage): Option<int> { u.cacheRead }
  function CacheMiss(u: Usage): Option<int> { u.cacheMiss }
  function CacheWrite(u: Usage): Option<int> { u.cacheWrite }
  function CacheCreation(u: Usage): Option<int> { u.cacheCreation }
  function InputCost(u: Usage): real { u.inputCost }
  function OutputCost(u: Usage): real { u.outputCost }
  function TotalCost(u: Usage): real { u.totalCost }

  ghost predicate SameTexts(u: Usage, rs: seq<Usage>)
    requires rs != []
  {
    && u.modelName == LastOf(Each(ModelName, rs), Missing)
    && u.cacheStatus == LastOf(Each(CacheStatus, rs), Missing) && u.cacheSource == LastOf(Each(CacheSource, rs), Missing)
    && (u.authoritative <==> exists r :: r in rs && r.authoritative)
  }

  ghost predicate SameCounts(u: Usage, rs: seq<Usage>)
    requires rs != []
  {
    && u.input == LastOf(Each(Input, rs), Zero) && u.output == LastOf(Each(Output, rs), Zero)
    && u.cache == LastOf(Each(Cache, rs), Zero) && u.reasoning == LastOf(Each(ReasoningTokens, rs), Zero)
    && u.total == if |rs| > 1 && (u.input != 0 || u.output != 0) then u.input + u.output else LastOf(Each(Total, rs), Zero)
  }

  ghost predicate SameCacheCounts(u: Usage, rs: seq<Usage>)
    requires rs != []
  {
    && u.cacheRead == LastOf(Each(CacheRead, rs), MissingOrZero) && u.cacheMiss == LastOf(Each(CacheMiss, rs), MissingOrZero)
    && u.cacheWrite == LastOf(Each(CacheWrite, rs), MissingOrZero) && u.cacheCreation == LastOf(Each(CacheCreation, rs), MissingOrZero)
  }

  ghost predicate SameCosts(u: Usage, rs: seq<Usage>)
    requires rs != []
  {
    && u.inputCost == LastOf(Each(InputCost, rs), Free) && u.outputCost == LastOf(Each(OutputCost, rs), Free)
    && u.totalCost == LastOf(Each(TotalCost, rs), Free)
  }

  /** Every field is the last one reported, where zero counts as not reported; the total is derived. */
  ghost predicate Summarises(u: Usage, rs: seq<Usage>)
    requires rs != []
  {
    SameTexts(u, rs) && SameCounts(u, rs) && SameCacheCounts(u, rs) && SameCosts(u, rs)
  }

  lemma LastGrows<A, B>(rs: seq<A>, r: A, f: A -> B, blank: B -> bool)
    requires rs != []
    ensures LastOf(Each(f, rs + [r]), blank) == if blank(f(r)) then LastOf(Each(f, rs), blank) else f(r)
  {
    EachPrefix(f, rs + [r]);
    assert (rs + [r])[..|rs|] == rs;
  }

  lemma OneReport(u: Usage)
    ensures Summarises(u, [u])
  {
  }

  lemma MoreTexts(u: Usage, rs: seq<Usage>, r: Usage)
    requires rs != [] && SameTexts(u, rs)
    ensures SameTexts(MergeReports(u, r), rs + [r])
  {
    LastGrows(rs, r, ModelName, Missing);
    LastGrows(rs, r, CacheStatus, Missing);
    LastGrows(rs, r, CacheSource, Missing);
    hide LastOf, Each;
  }

  lemma MoreCounts(u: Usage, rs: seq<Usage>, r: Usage)
    requires rs != [] && SameCounts(u, rs)
    ensures SameCounts(MergeReports(u, r), rs + [r])
  {
    LastGrows(rs, r, Input, Zero);
    LastGrows(rs, r, Output, Zero);
    LastGrows(rs, r, Total, Zero);
    LastGrows(rs, r, Cache, Zero);
    LastGrows(rs, r, ReasoningTokens, Zero);
    hide LastOf, Each;
  }

  lemma MoreCacheCounts(u: Usage, rs: seq<Usage>, r: Usage)
    requires rs != [] && SameCacheCounts(u, rs)
    ensures SameCacheCounts(MergeReports(u, r), rs + [r])
  {
    LastGrows(rs, r, CacheRead, MissingOrZero);
    LastGrows(rs, r, CacheMiss, MissingOrZero);
    LastGrows(rs, r, CacheWrite, MissingOrZero);
    LastGrows(rs, r, CacheCreation, MissingOrZero);
    hide LastOf, Each;
  }

  lemma MoreCosts(u: Usage, rs: seq<Usage>, r: Usage)
    requires rs != [] && SameCosts(u, rs)
    ensures SameCosts(MergeReports(u, r), rs + [r])
  {
    LastGrows(rs, r, InputCost, Free);
    LastGrows(rs, r, OutputCost, Free);
    LastGrows(rs, r, TotalCost, Free);
    hide LastOf, Each;
  }

  /** The usage of a stream summarises its reports. */
  lemma {:induction false} StreamUsage(s: seq<Chunk>)
    requires s != []
    ensures Accumulate(s).usage.None? <==> Reports(s) == []
    ensures Reports(s) != [] ==> Summarises(Accumulate(s).usage.value, Reports(s))
  {
    hide MergeCalls, MergeReports, SameTexts, SameCounts, SameCacheCounts, SameCosts;
    var k := |s| - 1;
    if k > 0 { StreamUsage(s[..k]); } else { assert Reports(s[..0]) == []; }
    var before := Reports(s[..k]);
    assert before + [] == before;
    if s[k].usage.Some? {
      var r := s[k].usage.value;
      if before == [] {
        assert before + [r] == [r];
        OneReport(r);
      } else {
        var u := Accumulate(s[..k]).usage.value;
        MoreTexts(u, before, r);
        MoreCounts(u, before, r);
        MoreCacheCounts(u, before, r);
        MoreCosts(u, before, r);
      }
    }
  }

  function CallId(t: ToolCall): string { t.id }
  function CallName(t: ToolCall): string { t.name }
  function CallArguments(t: ToolCall): string { t.arguments }
  predicate Empty(text: string) { text == "" }

  /** The calls of a list that carry an index, and those that carry none. */
  function CallsAt(s: seq<ToolCall>, index: Option<int>): seq<ToolCall> {
    if s == [] then []
    else CallsAt(s[..|s| - 1], index) + if s[|s| - 1].index == index then [s[|s| - 1]] else []
  }

  /** What is joined under an index: the call that stood in the first list, then the fragments that came, in order. */
  function Parts(a: seq<ToolCall>, b: seq<ToolCall>, i: int): seq<ToolCall> {
    (if Has(a, i) then [a[LastAt(a, i)]] else []) + CallsAt(b, Some(i))
  }

  /** The call is its parts joined: the last id and name given, all arguments in order, the kind of the first part. */
  ghost predicate Joins(t: ToolCall, parts: seq<ToolCall>) {
    && parts != [] && t.id == LastOf(Each(CallId, parts), Empty) && t.name == LastOf(Each(CallName, parts), Empty)
    && t.arguments == Concat(Each(CallArguments, parts)) && t.kind == parts[0].kind && t.index == parts[0].index
  }

  lemma JoinsOne(t: ToolCall)
    ensures Joins(t, [t])
  {
    EachPrefix(CallArguments, [t]);
    assert [t][..0] == [] && Each(CallArguments, []) == [];
  }

  lemma JoinsMore(t: ToolCall, parts: seq<ToolCall>, u: ToolCall)
    requires Joins(t, parts)
    ensures Joins(Continue(t, u), parts + [u])
  {
    LastGrows(parts, u, CallId, Empty);
    LastGrows(parts, u, CallName, Empty);
    EachPrefix(CallArguments, parts + [u]);
    assert (parts + [u])[..|parts|] == parts;
    hide LastOf, Each;
  }

  /** Inserting a fragment of another index leaves the call alone. */
  lemma InsertElsewhere(s: seq<ToolCall>, u: ToolCall, i: int)
    requires Has(s, i) && u.index != Some(i)
    ensures Has(Insert(s, u), i) && Insert(s, u)[LastAt(Insert(s, u), i)] == s[LastAt(s, i)]
  {
    LastAtUnique(Insert(s, u), i, LastAt(s, i));
  }

  lemma InsertHere(s: seq<ToolCall>, u: ToolCall, i: int)
    requires u.index == Some(i)
    ensures var r := Insert(s, u);
      Has(r, i) && r[LastAt(r, i)] == if Has(s, i) then Continue(s[LastAt(s, i)], u) else u
  {
    LastAtUnique(Insert(s, u), i, if Has(s, i) then LastAt(s, i) else |s|);
  }

  /** What a merged list holds under an index. */
  lemma {:induction false} MergedCall(a: seq<ToolCall>, b: seq<ToolCall>, i: int)
    ensures var r := InsertAll(a, b);
      && (Has(r, i) <==> Parts(a, b, i) != [])
      && (Has(r, i) ==> Joins(r[LastAt(r, i)], Parts(a, b, i)))
  {
    hide Joins;
    if b == [] {
      if Has(a, i) { JoinsOne(a[LastAt(a, i)]); assert Parts(a, b, i) == [a[LastAt(a, i)]]; }
    } else {
      var k := |b| - 1;
      var mid, u, parts := InsertAll(a, b[..k]), b[k], Parts(a, b[..k], i);
      MergedCall(a, b[..k], i);
      if u.index == Some(i) {
        InsertHere(mid, u, i);
        assert Parts(a, b, i) == parts + [u];
        if Has(mid, i) { JoinsMore(mid[LastAt(mid, i)], parts, u); } else { JoinsOne(u); assert parts + [u] == [u]; }
      } else {
        InsertKeeps(mid, u, i);
        if Has(mid, i) { InsertElsewhere(mid, u, i); }
        assert Parts(a, b, i) == parts;
      }
      hide Insert, LastAt, Parts;
    }
  }

  /** Calls without an index are appended, each once, in order. */
  lemma {:induction false} UnindexedAppended(a: seq<ToolCall>, b: seq<ToolCall>)
    ensures CallsAt(InsertAll(a, b), None) == CallsAt(a, None) + CallsAt(b, None)
  {
    if b != [] {
      var k := |b| - 1;
      UnindexedAppended(a, b[..k]);
      InsertUnindexed(InsertAll(a, b[..k]), b[k]);
    }
  }

  lemma InsertUnindexed(s: seq<ToolCall>, u: ToolCall)
    ensures CallsAt(Insert(s, u), None) == CallsAt(s, None) + if u.index.None? then [u] else []
  {
    if u.index.Some? && Has(s, u.index.value) {
      ReplaceIndexed(s, LastAt(s, u.index.value), Continue(s[LastAt(s, u.index.value)], u));
    } else {
      assert (s + [u])[..|s|] == s;
    }
  }

  lemma {:induction false} ReplaceIndexed(s: seq<ToolCall>, p: nat, t: ToolCall)
    requires p < |s| && s[p].index.Some? && t.index.Some?
    ensures CallsAt(s[p := t], None) == CallsAt(s, None)
  {
    var k := |s| - 1;
    if p == k {
      assert s[p := t][..k] == s[..k];
    } else {
      assert s[p := t][..k] == s[..k][p := t];
      ReplaceIndexed(s[..k], p, t);
    }
  }

  /** The lists of tool calls that the chunks of a stream carry. */
  function CallLists(s: seq<Chunk>): seq<seq<ToolCall>> {
    if s == [] then [] else CallLists(s[..|s| - 1]) + (match s[|s| - 1].toolCalls case None => [] case Some(l) => [l])
  }

  lemma {:induction false} InsertAllAppend(a: seq<ToolCall>, b: seq<ToolCall>, c: seq<ToolCall>)
    ensures InsertAll(InsertAll(a, b), c) == InsertAll(a, b + c)
  {
    if c == [] {
      assert b + c == b;
    } else {
      var k := |c| - 1;
      InsertAllAppend(a, b, c[..k]);
      assert (b + c)[..|b + c| - 1] == b + c[..k];
    }
  }

  /** A stream's calls are those of the first list, continued by everything that came in later lists. */
  lemma {:induction false} StreamLists(s: seq<Chunk>)
    requires s != []
    ensures var lists := CallLists(s);
      && (Accumulate(s).toolCalls.None? <==> lists == [])
      && (lists != [] ==> Accumulate(s).toolCalls.value == InsertAll(lists[0], Concat(lists[1..])))
  {
    hide MergeUsage, InsertAll;
    var k := |s| - 1;
    if k > 0 { StreamLists(s[..k]); } else { assert CallLists(s[..0]) == []; }
    var before := CallLists(s[..k]);
    assert before + [] == before;
    if s[k].toolCalls.Some? {
      var l := s[k].toolCalls.value;
      if before == [] {
        assert before + [l] == [l] && [l][1..] == [];
        NothingInserted(l);
      } else {
        assert (before + [l])[1..] == before[1..] + [l] && (before[1..] + [l])[..|before| - 1] == before[1..];
        InsertAllAppend(before[0], Concat(before[1..]), l);
      }
    }
  }

  lemma NothingInserted(l: seq<ToolCall>)
    ensures InsertAll(l, []) == l
  {
  }

  /**
   * The tool calls of a whole stream: under each index one call with the last id and name that
   * were given and all argument texts in arrival order, and every call without an index.
   */
  lemma StreamCalls(s: seq<Chunk>, i: int)
    requires s != [] && CallLists(s) != []
    ensures Accumulate(s).toolCalls.Some?
    ensures var r, first, later := Accumulate(s).toolCalls.value, CallLists(s)[0], Concat(CallLists(s)[1..]);
      && (Has(r, i) <==> Parts(first, later, i) != [])
      && (Has(r, i) ==> Joins(r[LastAt(r, i)], Parts(first, later, i)))
      && CallsAt(r, None) == CallsAt(first, None) + CallsAt(later, None)
  {
    StreamLists(s);
    var first, later := CallLists(s)[0], Concat(CallLists(s)[1..]);
    hide InsertAll, Joins, Parts, Accumulate;
    MergedCall(first, later, i);
    UnindexedAppended(first, later);
  }

  // ---- the merge on objects ------------------------------------------------------------------------

  class ToolCallObject {
    var id: string
    var kind: string
    var name: string
    var arguments: string
    var index: Option<int>

    function Value(): ToolCall
      reads this
    {
      ToolCall(id, kind, name, arguments, index)
    }

    constructor (v: ToolCall)
      ensures Value() == v
    {
      id, kind, name, arguments, index := v.id, v.kind, v.name, v.arguments, v.index;
    }
  }

  function Values(s: seq<ToolCallObject>): (r: seq<ToolCall>)
    reads s
    ensures |r| == |s| && forall i | 0 <= i < |s| :: r[i] == s[i].Value()
  {
    seq(|s|, i requires 0 <= i < |s| reads s => s[i].Value())
  }

  function OptionValues(o: Option<seq<ToolCallObject>>): Option<seq<ToolCall>>
    reads OrEmpty(o)
  {
    match o case None => None case Some(s) => Some(Values(s))
  }

  ghost predicate NoAlias(s: seq<ToolCallObject>) { forall p, q | 0 <= p < q < |s| :: s[p] != s[q] }

  method CopyAll(calls: seq<ToolCallObject>) returns (copies: seq<ToolCallObject>)
    ensures forall c | c in copies :: fresh(c)
    ensures NoAlias(copies) && Values(copies) == Values(calls)
  {
    copies := [];
    for k := 0 to |calls|
      invariant |copies| == k
      invariant forall c | c in copies :: fresh(c)
      invariant NoAlias(copies)
      invariant forall j | 0 <= j < k :: copies[j].Value() == calls[j].Value()
    {
      var copied := new ToolCallObject(calls[k].Value());
      copies := copies + [copied];
    }
  }

  /** `by_index`: each index leads to the last call that carries it. */
  ghost predicate Indexes(byIndex: map<int, ToolCallObject>, result: seq<ToolCallObject>)
    reads result
  {
    && (forall i :: i in byIndex <==> Has(Values(result), i))
    && forall i | i in byIndex :: byIndex[i] == result[LastAt(Values(result), i)]
  }

  method IndexAll(result: seq<ToolCallObject>) returns (byIndex: map<int, ToolCallObject>)
    ensures Indexes(byIndex, result)
  {
    byIndex := map[];
    for k := 0 to |result|
      invariant Indexes(byIndex, result[..k])
    {
      IndexGrows(result[..k], result[k], byIndex);
      assert result[..k + 1] == result[..k] + [result[k]];
      if result[k].index.Some? { byIndex := byIndex[result[k].index.value := result[k]]; }
    }
    assert result[..|result|] == result;
  }

  lemma IndexGrows(result: seq<ToolCallObject>, c: ToolCallObject, byIndex: map<int, ToolCallObject>)
    requires Indexes(byIndex, result)
    ensures Indexes(if c.index.Some? then byIndex[c.index.value := c] else byIndex, result + [c])
  {
    var before, after := Values(result), Values(result + [c]);
    assert after[..|before|] == before;
    forall i ensures Has(after, i) <==> Has(before, i) || c.index == Some(i) {
      if Has(before, i) { assert after[LastAt(before, i)].index == Some(i); }
      if c.index == Some(i) { assert after[|before|].index == Some(i); }
    }
    forall i | Has(after, i)
      ensures LastAt(after, i) == if c.index == Some(i) then |before| else LastAt(before, i)
    {
      LastAtUnique(after, i, if c.index == Some(i) then |before| else LastAt(before, i));
    }
  }

  /** `_merge_tool_calls`: both operands keep their lists and their calls; every returned call is new. */
  method MergeToolCalls(existing: Option<seq<ToolCallObject>>, incoming: Option<seq<ToolCallObject>>)
    returns (merged: Option<seq<ToolCallObject>>)
    ensures OptionValues(merged) == MergeCalls(OptionValues(existing), OptionValues(incoming))
    ensures merged.Some? ==> NoAlias(merged.value) && forall c | c in merged.value :: fresh(c)
  {
    if existing.None? && incoming.None? { return None; }
    if incoming.None? {
      var copies := CopyAll(existing.value);
      return Some(copies);
    }
    if existing.None? {
      var copies := CopyAll(incoming.value);
      return Some(copies);
    }
    var copies := CopyAll(existing.value);
    assert forall c | c in existing.value + incoming.value :: c !in copies;
    ghost var a, b := Values(existing.value), Values(incoming.value);
    var result := MergeInto(copies, incoming.value);
    assert Values(existing.value) == a && Values(incoming.value) == b;
    assert Values(result) == InsertAll(a, b);
    return Some(result);
  }

  /** The second loop: merge the incoming calls into a list of new calls. */
  method MergeInto(start: seq<ToolCallObject>, calls: seq<ToolCallObject>) returns (result: seq<ToolCallObject>)
    requires NoAlias(start) && forall c | c in calls :: c !in start
    modifies set c | c in start
    ensures Values(result) == InsertAll(old(Values(start)), old(Values(calls)))
    ensures NoAlias(result) && forall c | c in result :: c in start || fresh(c)
  {
    hide Insert, LastAt, Has;
    result := start;
    var byIndex := IndexAll(result);
    ghost var a, b := Values(start), Values(calls);
    assert b[..0] == [];
    for k := 0 to |calls|
      invariant forall c | c in result :: c in start || fresh(c)
      invariant NoAlias(result)
      invariant Values(result) == InsertAll(a, b[..k])
      invariant Indexes(byIndex, result)
      invariant Values(calls) == b
    {
      assert b[..k + 1][..k] == b[..k];
      result, byIndex := MergeCall(result, byIndex, calls[k]);
    }
    assert b[..|calls|] == b;
  }

  /** One turn of that loop: continue an existing call in place, or add a new one. */
  method MergeCall(list: seq<ToolCallObject>, index: map<int, ToolCallObject>, tc: ToolCallObject)
    returns (result: seq<ToolCallObject>, byIndex: map<int, ToolCallObject>)
    requires Indexes(index, list) && NoAlias(list) && tc !in list
    modifies set c | c in list
    ensures Values(result) == Insert(old(Values(list)), tc.Value())
    ensures Indexes(byIndex, result) && NoAlias(result)
    ensures forall c | c in result :: c in list || fresh(c)
  {
    hide Insert, LastAt, Has;
    if tc.index.Some? && tc.index.value in index {
      var target := index[tc.index.value];
      IndexedInList(index, list, tc.index.value);
      ContinueInPlace(list, index, target, tc);
      return list, index;
    }
    NewCall(index, list, tc.Value());
    var added := new ToolCallObject(tc.Value());
    IndexGrows(list, added, index);
    assert Values(list + [added]) == Values(list) + [added.Value()];
    return list + [added], if tc.index.Some? then index[tc.index.value := added] else index;
  }

  lemma IndexedInList(byIndex: map<int, ToolCallObject>, result: seq<ToolCallObject>, i: int)
    requires Indexes(byIndex, result) && i in byIndex
    ensures byIndex[i] in result
  {
  }

  lemma NewCall(byIndex: map<int, ToolCallObject>, result: seq<ToolCallObject>, t: ToolCall)
    requires Indexes(byIndex, result) && (t.index.Some? ==> t.index.value !in byIndex)
    ensures Insert(Values(result), t) == Values(result) + [t]
  {
  }

  lemma SamePositions(s: seq<ToolCall>, p: nat, t: ToolCall)
    requires p < |s| && t.index == s[p].index
    ensures forall i :: Has(s[p := t], i) <==> Has(s, i)
    ensures forall i | Has(s, i) :: LastAt(s[p := t], i) == LastAt(s, i)
  {
    forall i ensures Has(s[p := t], i) <==> Has(s, i) {
      if Has(s, i) { assert s[p := t][LastAt(s, i)].index == Some(i); }
    }
    forall i | Has(s, i) ensures LastAt(s[p := t], i) == LastAt(s, i) {
      LastAtUnique(s[p := t], i, LastAt(s, i));
    }
  }

  /** The in-place continuation of one call. */
  method ContinueInPlace(result: seq<ToolCallObject>, byIndex: map<int, ToolCallObject>, target: ToolCallObject, tc: ToolCallObject)
    requires Indexes(byIndex, result) && NoAlias(result) && tc !in result
    requires tc.index.Some? && tc.index.value in byIndex && target == byIndex[tc.index.value]
    modifies target
    ensures Values(result) == Insert(old(Values(result)), tc.Value())
    ensures Indexes(byIndex, result)
    ensures target in result
  {
    hide Has, LastAt;
    ghost var before, p := Values(result), LastAt(Values(result), tc.index.value);
    if tc.id != "" { target.id := tc.id; }
    if tc.name != "" { target.name := tc.name; }
    target.arguments := target.arguments + tc.arguments;
    assert Values(result) == before[p := Continue(before[p], tc.Value())];
    SamePositions(before, p, Continue(before[p], tc.Value()));
  }
}
