/** OTLP label sets: the full sort-and-dedup build and the prepared build, which
    merges labels sorted once per resource with each datapoint's labels. */
module LabelMerge {
  import opened Common
  import opened LabelOrder
  import Decimal

  const METRIC_NAME_LABEL := "__name__"

  /** A double carries its rendered text. */
  datatype AnyValue =
    | StringValue(text: string)
    | BoolValue(flag: bool)
    | IntValue(number: int)
    | DoubleValue(rendered: string)
    | BytesValue
    | ArrayValue
    | KvlistValue
    | StringIndexValue

  /** The value and, inside it, the variant may both be absent. */
  datatype KeyValue = KeyValue(key: string, value: Option<Option<AnyValue>>)

  datatype TmpValue = Borrowed(text: string) | Scratch(index: nat)
  datatype TmpLabel = TmpLabel(key: string, value: TmpValue, rank: nat, ordinal: nat)

  // ------------------------------------------------------------ specification

  predicate Ignored(kv: KeyValue) {
    kv.key == "" || kv.key == METRIC_NAME_LABEL || kv.value.None? || kv.value.value.None?
  }

  predicate Scalar(v: AnyValue) {
    v.StringValue? || v.BoolValue? || v.IntValue? || v.DoubleValue?
  }

  function Text(v: AnyValue): string
    requires Scalar(v)
  {
    match v
    case StringValue(text) => text
    case BoolValue(flag) => if flag then "true" else "false"
    case IntValue(i) => Decimal.Text(i)
    case DoubleValue(rendered) => rendered
  }

  /** The label an attribute stands for, if it is supported. */
  function Supported(kv: KeyValue): seq<Label> {
    if Ignored(kv) || !Scalar(kv.value.value.value) then [] else [Label(kv.key, Text(kv.value.value.value))]
  }

  function SupportedLabels(kvs: seq<KeyValue>): seq<Label> {
    if kvs == [] then [] else SupportedLabels(kvs[..|kvs| - 1]) + Supported(kvs[|kvs| - 1])
  }

  predicate IsSkipped(kv: KeyValue) { !Ignored(kv) && !Scalar(kv.value.value.value) }

  function Skipped(kvs: seq<KeyValue>): nat {
    if kvs == [] then 0 else Skipped(kvs[..|kvs| - 1]) + if IsSkipped(kvs[|kvs| - 1]) then 1 else 0
  }

  /** The label set of a datapoint: the metric name, then the last supported
      datapoint attribute, then the last supported resource attribute. */
  function Wanted(resource: seq<KeyValue>, name: string, datapoint: seq<KeyValue>): string -> Option<string> {
    (k: string) =>
      if k == METRIC_NAME_LABEL then Some(name)
      else if LastOf(SupportedLabels(datapoint), k).Some? then LastOf(SupportedLabels(datapoint), k)
      else LastOf(SupportedLabels(resource), k)
  }

  predicate InScratch(v: TmpValue, scratch: seq<string>) { v.Scratch? ==> v.index < |scratch| }

  function AsStr(v: TmpValue, scratch: seq<string>): string
    requires InScratch(v, scratch)
  {
    match v
    case Borrowed(text) => text
    case Scratch(index) => scratch[index]
  }

  predicate AllInScratch(labels: seq<TmpLabel>, scratch: seq<string>) {
    forall i :: 0 <= i < |labels| ==> InScratch(labels[i].value, scratch)
  }

  function Resolve(labels: seq<TmpLabel>, scratch: seq<string>): (r: seq<Label>)
    requires AllInScratch(labels, scratch)
    ensures |r| == |labels|
    ensures forall i :: 0 <= i < |r| ==> r[i] == Label(labels[i].key, AsStr(labels[i].value, scratch))
  {
    seq(|labels|, i requires 0 <= i < |labels| => Label(labels[i].key, AsStr(labels[i].value, scratch)))
  }

  /** What scalars are rendered as. */
  lemma TextForms(t: string)
    ensures Text(StringValue(t)) == t && Text(DoubleValue(t)) == t
    ensures Text(BoolValue(true)) == "true" && Text(BoolValue(false)) == "false"
    ensures Text(IntValue(907)) == "907" && Text(IntValue(-42)) == "-42"
  {
    Decimal.TextExamples();
  }

  lemma {:induction false} NoMetricName(kvs: seq<KeyValue>)
    ensures forall x :: x in SupportedLabels(kvs) ==> x.key != METRIC_NAME_LABEL && x.key != ""
    ensures LastOf(SupportedLabels(kvs), METRIC_NAME_LABEL).None?
  {
    if kvs != [] { NoMetricName(kvs[..|kvs| - 1]); }
    LastOfNone(SupportedLabels(kvs), METRIC_NAME_LABEL);
  }

  /** Attribute number `i` has this key and a scalar value. */
  predicate ScalarAt(kvs: seq<KeyValue>, i: int, k: string) {
    0 <= i < |kvs| && kvs[i].key == k && kvs[i].value.Some? && kvs[i].value.value.Some? && Scalar(kvs[i].value.value.value)
  }

  ghost predicate NoScalar(kvs: seq<KeyValue>, k: string) { forall i :: !ScalarAt(kvs, i, k) }

  /** It gives the label its value: no later scalar attribute has this key. */
  ghost predicate Gives(kvs: seq<KeyValue>, i: int, k: string, v: string) {
    ScalarAt(kvs, i, k) && Text(kvs[i].value.value.value) == v && forall j :: i < j ==> !ScalarAt(kvs, j, k)
  }

  lemma {:induction false} LastSupported(kvs: seq<KeyValue>, k: string, v: string)
    requires k != "" && k != METRIC_NAME_LABEL
    ensures LastOf(SupportedLabels(kvs), k) == Some(v) <==> exists i :: Gives(kvs, i, k, v)
    ensures LastOf(SupportedLabels(kvs), k).None? <==> NoScalar(kvs, k)
  {
    hide Gives, ScalarAt, SupportedLabels;
    if kvs == [] {
      NothingGiven(k, v);
    } else {
      LastSupported(kvs[..|kvs| - 1], k, v);
      LastTurn(kvs, k);
      GivesTurn(kvs, k, v);
    }
  }

  lemma NothingGiven(k: string, v: string)
    ensures LastOf(SupportedLabels([]), k).None? && NoScalar([], k) && forall i :: !Gives([], i, k, v)
  {
  }

  lemma LastTurn(kvs: seq<KeyValue>, k: string)
    requires kvs != [] && k != "" && k != METRIC_NAME_LABEL
    ensures var n := |kvs| - 1;
            LastOf(SupportedLabels(kvs), k) == if ScalarAt(kvs, n, k) then Some(Text(kvs[n].value.value.value))
                                               else LastOf(SupportedLabels(kvs[..n]), k)
  {
    hide Supported, LastOf;
    var n := |kvs| - 1;
    LastOfConcat(SupportedLabels(kvs[..n]), Supported(kvs[n]), k);
    LastOfOne(kvs[n], k);
  }

  lemma LastOfOne(kv: KeyValue, k: string)
    requires k != "" && k != METRIC_NAME_LABEL
    ensures LastOf(Supported(kv), k) == if ScalarAt([kv], 0, k) then Some(Text(kv.value.value.value)) else None
  {
    hide Scalar, Text;
    assert Supported(kv) == [] || Supported(kv)[..0] == [];
  }

  lemma GivesTurn(kvs: seq<KeyValue>, k: string, v: string)
    requires kvs != []
    ensures var n, init := |kvs| - 1, kvs[..|kvs| - 1];
            if ScalarAt(kvs, n, k) then ((exists i :: Gives(kvs, i, k, v)) <==> Text(kvs[n].value.value.value) == v) && !NoScalar(kvs, k)
            else ((exists i :: Gives(kvs, i, k, v)) <==> exists i :: Gives(init, i, k, v)) && (NoScalar(kvs, k) <==> NoScalar(init, k))
  {
    hide Scalar, Text;
    var n, init := |kvs| - 1, kvs[..|kvs| - 1];
    forall i ensures i != n ==> ScalarAt(kvs, i, k) == ScalarAt(init, i, k) { }
    if ScalarAt(kvs, n, k) {
      if Text(kvs[n].value.value.value) == v { assert Gives(kvs, n, k, v); }
    } else {
      forall i ensures Gives(kvs, i, k, v) <==> Gives(init, i, k, v) { }
    }
  }

  /** What a datapoint's labels are: the metric name; then each key with a scalar datapoint
      attribute, with the value of the last of these; then each other key with a scalar
      resource attribute, likewise. The empty key and the metric name's are never taken from
      attributes. */
  lemma WantedIs(resource: seq<KeyValue>, name: string, datapoint: seq<KeyValue>, k: string, v: string)
    ensures Wanted(resource, name, datapoint)(k) == Some(v) <==>
              if k == "__name__" then v == name
              else k != "" && ((exists i :: Gives(datapoint, i, k, v)) || (NoScalar(datapoint, k) && exists i :: Gives(resource, i, k, v)))
  {
    hide LastOf, SupportedLabels, Gives, NoScalar;
    if k == "" {
      NoEmptyKey(datapoint);
      NoEmptyKey(resource);
    } else if k != METRIC_NAME_LABEL {
      LastSupported(datapoint, k, v);
      LastSupported(resource, k, v);
    }
  }

  lemma NoEmptyKey(kvs: seq<KeyValue>)
    ensures LastOf(SupportedLabels(kvs), "").None?
  {
    NoMetricName(kvs);
    LastOfNone(SupportedLabels(kvs), "");
  }

  /** What is counted as skipped: attributes with a key of their own and a value that is no
      scalar. */
  lemma {:induction false} SkippedIs(kvs: seq<KeyValue>)
    ensures Skipped(kvs) == |NonScalars(kvs)|
  {
    hide NotScalar;
    if kvs == [] {
      assert NonScalars(kvs) == {};
    } else {
      var n := |kvs| - 1;
      SkippedIs(kvs[..n]);
      SkippedTurn(kvs[n]);
      assert NonScalars(kvs) == NonScalars(kvs[..n]) + if NotScalar(kvs[n]) then {n} else {};
    }
  }

  function NonScalars(kvs: seq<KeyValue>): set<int> { set i | 0 <= i < |kvs| && NotScalar(kvs[i]) }

  predicate NotScalar(kv: KeyValue) {
    && kv.key != "" && kv.key != "__name__" && kv.value.Some? && kv.value.value.Some?
    && var v := kv.value.value.value; v.BytesValue? || v.ArrayValue? || v.KvlistValue? || v.StringIndexValue?
  }

  lemma SkippedTurn(kv: KeyValue)
    ensures IsSkipped(kv) <==> NotScalar(kv)
  {
  }

  // ------------------------------------------------------------------ pushing

  /** Renders a scalar, into the scratch list unless it is borrowed. */
  method Render(v: AnyValue, scratch: seq<string>) returns (value: Option<TmpValue>, scratch': seq<string>)
    ensures scratch <= scratch' && (value.Some? <==> Scalar(v))
    ensures value.Some? ==> InScratch(value.value, scratch') && AsStr(value.value, scratch') == Text(v)
  {
    scratch' := scratch;
    match v {
    case StringValue(text) =>
      value := Some(Borrowed(text));
    case BoolValue(flag) =>
      scratch' := scratch' + [if flag then "true" else "false"];
      value := Some(Scratch(|scratch'| - 1));
    case IntValue(i) =>
      scratch' := scratch' + [Decimal.Text(i)];
      value := Some(Scratch(|scratch'| - 1));
    case DoubleValue(rendered) =>
      scratch' := scratch' + [rendered];
      value := Some(Scratch(|scratch'| - 1));
    case _ =>
      value := None;
    }
  }

  lemma SupportedStep(kvs: seq<KeyValue>, n: nat)
    requires n < |kvs|
    ensures SupportedLabels(kvs[..n + 1]) == SupportedLabels(kvs[..n]) + Supported(kvs[n])
    ensures Skipped(kvs[..n + 1]) == Skipped(kvs[..n]) + if IsSkipped(kvs[n]) then 1 else 0
  {
    assert kvs[..n + 1][..n] == kvs[..n] && kvs[..n + 1][n] == kvs[n];
  }

  lemma ResolveGrow(labels: seq<TmpLabel>, scratch: seq<string>, scratch': seq<string>)
    requires AllInScratch(labels, scratch) && scratch <= scratch'
    ensures AllInScratch(labels, scratch') && Resolve(labels, scratch') == Resolve(labels, scratch)
  {
  }

  lemma ResolveAppend(labels: seq<TmpLabel>, scratch: seq<string>, l: TmpLabel)
    requires AllInScratch(labels, scratch) && InScratch(l.value, scratch)
    ensures AllInScratch(labels + [l], scratch)
    ensures Resolve(labels + [l], scratch) == Resolve(labels, scratch) + [Label(l.key, AsStr(l.value, scratch))]
  {
  }

  /** `push_kvs`: appends the supported attributes with their rank and position. */
  method PushKvs(labels: seq<TmpLabel>, scratch: seq<string>, kvs: seq<KeyValue>, rank: nat)
      returns (labels': seq<TmpLabel>, scratch': seq<string>, skipped: nat)
    requires AllInScratch(labels, scratch)
    ensures labels <= labels' && scratch <= scratch' && AllInScratch(labels', scratch')
    ensures Resolve(labels', scratch') == Resolve(labels, scratch) + SupportedLabels(kvs)
    ensures forall i :: |labels| <= i < |labels'| ==> labels'[i].rank == rank && labels'[i].ordinal == i
    ensures skipped == Skipped(kvs)
  {
    hide Resolve, Text;
    labels', scratch', skipped := labels, scratch, 0;
    assert Resolve(labels, scratch) + SupportedLabels(kvs[..0]) == Resolve(labels, scratch);
    for n := 0 to |kvs|
      invariant labels <= labels' && scratch <= scratch' && AllInScratch(labels', scratch')
      invariant Resolve(labels', scratch') == Resolve(labels, scratch) + SupportedLabels(kvs[..n])
      invariant forall i :: |labels| <= i < |labels'| ==> labels'[i].rank == rank && labels'[i].ordinal == i
      invariant skipped == Skipped(kvs[..n])
    {
      SupportedStep(kvs, n);
      var kv := kvs[n];
      if kv.key == "" || kv.key == METRIC_NAME_LABEL || kv.value.None? || kv.value.value.None? { continue; }
      var value, grown := Render(kv.value.value.value, scratch');
      ResolveGrow(labels', scratch', grown);
      scratch' := grown;
      if value.None? {
        skipped := skipped + 1;
        continue;
      }
      var pushed := TmpLabel(kv.key, value.value, rank, |labels'|);
      ResolveAppend(labels', scratch', pushed);
      labels' := labels' + [pushed];
    }
    assert kvs[..|kvs|] == kvs;
  }

  // --------------------------------------------------------- sort and dedup

  /** The sort key order: name, then rank, then position. */
  predicate Before(a: TmpLabel, b: TmpLabel) {
    Less(a.key, b.key) || (a.key == b.key && (a.rank < b.rank || (a.rank == b.rank && a.ordinal < b.ordinal)))
  }

  ghost predicate Sorted(s: seq<TmpLabel>) {
    forall i, j :: 0 <= i < j < |s| ==> !Before(s[j], s[i])
  }

  /** Stands for the library sort, of which only its contract is used. */
  function SortLabels(s: seq<TmpLabel>): (r: seq<TmpLabel>)
    ensures Sorted(r) && multiset(r) == multiset(s)
  {
    if s == [] then []
    else
      var n := |s| - 1;
      assert s == s[..n] + [s[n]];
      Insert(SortLabels(s[..n]), s[n])
  }

  function Insert(s: seq<TmpLabel>, x: TmpLabel): (r: seq<TmpLabel>)
    requires Sorted(s)
    ensures Sorted(r) && multiset(r) == multiset(s) + multiset{x}
  {
    if s == [] || !Before(x, s[|s| - 1]) then
      InsertLast(s, x);
      s + [x]
    else
      var n := |s| - 1;
      assert s == s[..n] + [s[n]];
      var r := Insert(s[..n], x) + [s[n]];
      InsertBefore(s, x, Insert(s[..n], x));
      r
  }

  lemma BeforeTrans(a: TmpLabel, b: TmpLabel, c: TmpLabel)
    requires !Before(b, a) && !Before(c, b)
    ensures !Before(c, a)
  {
    LessTotal(a.key, b.key);
    LessTotal(b.key, c.key);
    LessTotal(a.key, c.key);
    if Less(a.key, b.key) && Less(b.key, c.key) { LessTrans(a.key, b.key, c.key); }
  }

  lemma BeforeAsym(a: TmpLabel, b: TmpLabel)
    requires Before(a, b)
    ensures !Before(b, a)
  {
    LessTotal(a.key, b.key);
  }

  lemma InsertLast(s: seq<TmpLabel>, x: TmpLabel)
    requires Sorted(s) && (s == [] || !Before(x, s[|s| - 1]))
    ensures Sorted(s + [x])
  {
    forall i | 0 <= i < |s| ensures !Before(x, s[i]) {
      if i < |s| - 1 { BeforeTrans(s[i], s[|s| - 1], x); }
    }
  }

  lemma InsertBefore(s: seq<TmpLabel>, x: TmpLabel, r: seq<TmpLabel>)
    requires Sorted(s) && s != [] && Before(x, s[|s| - 1])
    requires Sorted(r) && multiset(r) == multiset(s[..|s| - 1]) + multiset{x}
    ensures Sorted(r + [s[|s| - 1]])
  {
    var last := s[|s| - 1];
    forall i | 0 <= i < |r| ensures !Before(last, r[i]) {
      assert r[i] in multiset(r);
      if r[i] == x {
        BeforeAsym(x, last);
      } else {
        var j :| 0 <= j < |s| - 1 && s[j] == r[i];
      }
    }
  }

  /** `l` is the greatest label of its key among `s`, by rank and position. */
  ghost predicate Greatest(s: seq<TmpLabel>, l: TmpLabel) {
    l in s && forall x :: x in s && x.key == l.key ==> !Before(l, x)
  }

  predicate StrictLabels(s: seq<TmpLabel>) {
    forall i, j :: 0 <= i < j < |s| ==> Less(s[i].key, s[j].key)
  }

  /** One label per key, the greatest, in key order. */
  ghost predicate Deduped(s: seq<TmpLabel>, r: seq<TmpLabel>) {
    && StrictLabels(r)
    && (forall l :: l in r ==> Greatest(s, l))
    && (forall x :: x in s ==> exists i :: 0 <= i < |r| && r[i].key == x.key)
  }

  /** `sort_and_dedup_labels`: sorts, then compacts each run of equal keys to its
      last label in place. */
  method SortAndDedup(s: seq<TmpLabel>) returns (labels: seq<TmpLabel>)
    ensures Deduped(s, labels)
  {
    hide Sorted, Deduped, SortLabels;
    labels := SortLabels(s);
    ghost var sorted := labels;
    NothingDeduped(sorted[..0], labels[..0]);
    var read, write := 0, 0;
    while read < |labels|
      invariant write <= read <= |labels| == |sorted|
      invariant labels[read..] == sorted[read..]
      invariant 0 < read < |sorted| ==> sorted[read - 1].key != sorted[read].key
      invariant Deduped(sorted[..read], labels[..write])
    {
      var key := labels[read].key;
      var end := read + 1;
      while end < |labels| && labels[end].key == key
        invariant read < end <= |labels|
        invariant forall i :: read <= i < end ==> sorted[i].key == key
      {
        end := end + 1;
      }
      RunCompacts(sorted, read, end, labels[..write]);
      labels := labels[write := labels[end - 1]];
      assert labels[..write + 1] == labels[..write] + [sorted[end - 1]];
      write := write + 1;
      read := end;
    }
    assert sorted[..|sorted|] == sorted;
    labels := labels[..write];
    SameMembers(s, sorted);
    DedupedSame(sorted, s, labels);
  }

  lemma NothingDeduped(s: seq<TmpLabel>, r: seq<TmpLabel>)
    requires s == [] && r == []
    ensures Deduped(s, r)
  {
  }

  lemma DedupedSame(s: seq<TmpLabel>, t: seq<TmpLabel>, r: seq<TmpLabel>)
    requires Deduped(s, r) && forall x :: x in s <==> x in t
    ensures Deduped(t, r)
  {
  }

  lemma SameMembers(s: seq<TmpLabel>, t: seq<TmpLabel>)
    requires multiset(s) == multiset(t)
    ensures forall x :: x in s <==> x in t
  {
    forall x ensures x in s <==> x in t { assert x in multiset(s) <==> x in multiset(t); }
  }

  /** Appending the last label of the next run keeps the compaction. */
  lemma RunCompacts(s: seq<TmpLabel>, read: nat, end: nat, out: seq<TmpLabel>)
    requires Sorted(s) && read < end <= |s| && Deduped(s[..read], out)
    requires forall i :: read <= i < end ==> s[i].key == s[read].key
    requires read > 0 ==> s[read - 1].key != s[read].key
    ensures Deduped(s[..end], out + [s[end - 1]])
  {
    var last := s[end - 1];
    EarlierKeysLess(s, read);
    forall l | l in out ensures Less(l.key, last.key) && Greatest(s[..end], l) {
      var i :| 0 <= i < read && s[i] == l;
      assert Less(s[i].key, s[read].key);
      forall x | x in s[..end] && x.key == l.key ensures !Before(l, x) {
        var j :| 0 <= j < end && s[j] == x;
        if j >= read { LessTotal(l.key, last.key); } else { assert x in s[..read]; }
      }
      assert l in s[..end];
    }
    LessTotal(last.key, last.key);
    forall x | x in s[..end] && x.key == last.key ensures !Before(last, x) {
      var j :| 0 <= j < end && s[j] == x;
    }
    assert s[..end][end - 1] == last;
    var more := out + [last];
    forall x | x in s[..end] ensures exists i :: 0 <= i < |more| && more[i].key == x.key {
      var j :| 0 <= j < end && s[j] == x;
      if j >= read {
        assert more[|out|].key == x.key;
      } else {
        assert x in s[..read];
        var i :| 0 <= i < |out| && out[i].key == x.key;
        assert more[i].key == x.key;
      }
    }
  }

  lemma EarlierKeysLess(s: seq<TmpLabel>, read: nat)
    requires Sorted(s) && read < |s| && (read > 0 ==> s[read - 1].key != s[read].key)
    ensures forall i :: 0 <= i < read ==> Less(s[i].key, s[read].key)
  {
    forall i | 0 <= i < read ensures Less(s[i].key, s[read].key) {
      LessTotal(s[i].key, s[read].key);
      LessTotal(s[read - 1].key, s[read].key);
      LessTotal(s[i].key, s[read - 1].key);
    }
  }

  // --------------------------------------------------------------- full build

  /** Among labels of one key, the later one is the greater one. */
  ghost predicate LaterIsGreater(s: seq<TmpLabel>) {
    forall i, j :: 0 <= i < j < |s| && s[i].key == s[j].key ==> Before(s[i], s[j])
  }

  /** Then dedup keeps, for each key, the last label. */
  lemma DedupKeepsLast(s: seq<TmpLabel>, r: seq<TmpLabel>, scratch: seq<string>)
    requires Deduped(s, r) && LaterIsGreater(s) && AllInScratch(s, scratch)
    ensures AllInScratch(r, scratch) && StrictKeys(Resolve(r, scratch))
    ensures forall x :: x in Resolve(r, scratch) <==> LastOf(Resolve(s, scratch), x.key) == Some(x.value)
  {
    forall i | 0 <= i < |r| ensures InScratch(r[i].value, scratch) { assert r[i] in r; }
    var whole, kept := Resolve(s, scratch), Resolve(r, scratch);
    forall x ensures x in kept <==> LastOf(whole, x.key) == Some(x.value) {
      LastOfNone(whole, x.key);
      if i :| 0 <= i < |r| && r[i].key == x.key {
        KeptIsLast(s, r[i], scratch);
        StrictLast(kept, kept[i]);
        StrictLast(kept, x);
        assert kept[i] in kept;
      } else {
        forall j | 0 <= j < |whole| ensures whole[j].key != x.key { assert s[j] in s; }
      }
    }
  }

  lemma KeptIsLast(s: seq<TmpLabel>, l: TmpLabel, scratch: seq<string>)
    requires Greatest(s, l) && LaterIsGreater(s) && AllInScratch(s, scratch)
    ensures InScratch(l.value, scratch) && LastOf(Resolve(s, scratch), l.key) == Some(AsStr(l.value, scratch))
  {
    var i :| 0 <= i < |s| && s[i] == l;
    forall j | i < j < |s| ensures s[j].key != l.key { assert s[j] in s; }
    LastOfAt(Resolve(s, scratch), i);
  }

  /** `build_canonical_labelset`: everything in one list, sorted and deduped. */
  method BuildFullSort(resource: seq<KeyValue>, name: string, datapoint: seq<KeyValue>)
      returns (labels: seq<TmpLabel>, scratch: seq<string>, skipped: nat)
    ensures AllInScratch(labels, scratch) && Canonical(Resolve(labels, scratch), Wanted(resource, name, datapoint))
    ensures skipped == Skipped(resource) + Skipped(datapoint)
  {
    hide Deduped, Resolve, SupportedLabels, LaterIsGreater, Skipped;
    var first := [TmpLabel(METRIC_NAME_LABEL, Borrowed(name), 3, 0)];
    var some, values, skippedResource := PushKvs(first, [], resource, 0);
    var all, skippedDatapoint;
    all, scratch, skippedDatapoint := PushKvs(some, values, datapoint, 2);
    skipped := skippedResource + skippedDatapoint;
    ResolveGrow(some, values, scratch);
    assert Resolve(all, scratch) == [Label(METRIC_NAME_LABEL, name)] + SupportedLabels(resource) + SupportedLabels(datapoint) by {
      assert Resolve(first, []) == [Label(METRIC_NAME_LABEL, name)];
    }
    PushedOrder(name, some, all, scratch, resource, datapoint);
    labels := SortAndDedup(all);
    DedupKeepsLast(all, labels, scratch);
    LastIsWanted(resource, name, datapoint, Resolve(all, scratch));
  }

  lemma PushedOrder(name: string, some: seq<TmpLabel>, all: seq<TmpLabel>, scratch: seq<string>,
                    resource: seq<KeyValue>, datapoint: seq<KeyValue>)
    requires 1 <= |some| && some <= all && AllInScratch(all, scratch)
    requires forall i :: 1 <= i < |some| ==> some[i].rank == 0 && some[i].ordinal == i
    requires forall i :: |some| <= i < |all| ==> all[i].rank == 2 && all[i].ordinal == i
    requires Resolve(all, scratch) == [Label(METRIC_NAME_LABEL, name)] + SupportedLabels(resource) + SupportedLabels(datapoint)
    ensures LaterIsGreater(all)
  {
    hide Less, SupportedLabels, Resolve;
    assert all[0].key == METRIC_NAME_LABEL by { assert Resolve(all, scratch)[0] == Label(METRIC_NAME_LABEL, name); }
    forall j | 1 <= j < |all| ensures all[j].key != METRIC_NAME_LABEL {
      NamesApart(name, resource, datapoint, j);
      assert Resolve(all, scratch)[j].key == all[j].key;
    }
    forall i, j | 0 <= i < j < |all| && all[i].key == all[j].key ensures Before(all[i], all[j]) {
      assert i >= 1;
      if i < |some| { assert all[i] == some[i]; }
      if j < |some| { assert all[j] == some[j]; }
    }
  }

  lemma NamesApart(name: string, resource: seq<KeyValue>, datapoint: seq<KeyValue>, j: nat)
    requires 1 <= j < |[Label(METRIC_NAME_LABEL, name)] + SupportedLabels(resource) + SupportedLabels(datapoint)|
    ensures ([Label(METRIC_NAME_LABEL, name)] + SupportedLabels(resource) + SupportedLabels(datapoint))[j].key != METRIC_NAME_LABEL
  {
    hide SupportedLabels;
    var a, b := SupportedLabels(resource), SupportedLabels(datapoint);
    NoMetricName(resource);
    NoMetricName(datapoint);
    if j <= |a| { assert a[j - 1] in a; } else { assert b[j - 1 - |a|] in b; }
  }

  lemma LastIsWanted(resource: seq<KeyValue>, name: string, datapoint: seq<KeyValue>, all: seq<Label>)
    requires all == [Label(METRIC_NAME_LABEL, name)] + SupportedLabels(resource) + SupportedLabels(datapoint)
    ensures forall k :: LastOf(all, k) == Wanted(resource, name, datapoint)(k)
  {
    var head := [Label(METRIC_NAME_LABEL, name)];
    forall k ensures LastOf(all, k) == Wanted(resource, name, datapoint)(k) {
      NoMetricName(resource);
      NoMetricName(datapoint);
      LastOfConcat(head + SupportedLabels(resource), SupportedLabels(datapoint), k);
      LastOfConcat(head, SupportedLabels(resource), k);
      assert head[..0] == [];
    }
  }

  // ----------------------------------------------------------- prepared build

  /** `PreparedOtlpResourceLabels`. */
  datatype PreparedResource = PreparedResource(labels: seq<TmpLabel>, scratch: seq<string>, skipped: nat)

  /** Sorted labels of the resource alone: its last supported attribute per key. */
  ghost predicate LabelsOf(labels: seq<TmpLabel>, scratch: seq<string>, attributes: seq<KeyValue>) {
    && AllInScratch(labels, scratch) && StrictKeys(Resolve(labels, scratch))
    && forall x :: x in Resolve(labels, scratch) <==> LastOf(SupportedLabels(attributes), x.key) == Some(x.value)
  }

  method SortedAttributes(attributes: seq<KeyValue>, rank: nat) returns (labels: seq<TmpLabel>, scratch: seq<string>, skipped: nat)
    ensures LabelsOf(labels, scratch, attributes) && skipped == Skipped(attributes)
  {
    hide Deduped, LabelsOf, SupportedLabels, Skipped;
    var pushed;
    pushed, scratch, skipped := PushKvs([], [], attributes, rank);
    labels := SortAndDedup(pushed);
    assert Resolve([], []) + SupportedLabels(attributes) == SupportedLabels(attributes);
    SortedIsLabelsOf(pushed, labels, scratch, attributes, rank);
  }

  lemma SortedIsLabelsOf(pushed: seq<TmpLabel>, labels: seq<TmpLabel>, scratch: seq<string>, attributes: seq<KeyValue>, rank: nat)
    requires AllInScratch(pushed, scratch) && Resolve(pushed, scratch) == SupportedLabels(attributes)
    requires forall i :: 0 <= i < |pushed| ==> pushed[i].rank == rank && pushed[i].ordinal == i
    requires Deduped(pushed, labels)
    ensures LabelsOf(labels, scratch, attributes)
  {
    hide Deduped, SupportedLabels, AllInScratch, Resolve;
    DedupKeepsLast(pushed, labels, scratch);
  }

  method PrepareResource(attributes: seq<KeyValue>) returns (p: PreparedResource)
    ensures LabelsOf(p.labels, p.scratch, attributes) && p.skipped == Skipped(attributes)
  {
    var labels, scratch, skipped := SortedAttributes(attributes, 0);
    p := PreparedResource(labels, scratch, skipped);
  }

  datatype PreparedValue = Direct(text: string) | ResourceScratch(index: nat) | DatapointScratch(index: nat)
  datatype SymbolCache = Uncached | ResourceSymbol(index: nat) | MetricSymbol
  datatype PreparedLabel = PreparedLabel(key: string, value: PreparedValue, cache: SymbolCache)

  predicate PreparedInScratch(v: PreparedValue, resource: seq<string>, datapoint: seq<string>) {
    (v.ResourceScratch? ==> v.index < |resource|) && (v.DatapointScratch? ==> v.index < |datapoint|)
  }

  predicate AllPrepared(labels: seq<PreparedLabel>, resource: seq<string>, datapoint: seq<string>) {
    forall i :: 0 <= i < |labels| ==> PreparedInScratch(labels[i].value, resource, datapoint)
  }

  function PreparedStr(v: PreparedValue, resource: seq<string>, datapoint: seq<string>): string
    requires PreparedInScratch(v, resource, datapoint)
  {
    match v
    case Direct(text) => text
    case ResourceScratch(index) => resource[index]
    case DatapointScratch(index) => datapoint[index]
  }

  function ResolvePrepared(labels: seq<PreparedLabel>, resource: seq<string>, datapoint: seq<string>): (r: seq<Label>)
    requires AllPrepared(labels, resource, datapoint)
    ensures |r| == |labels|
    ensures forall i :: 0 <= i < |r| ==> r[i] == Label(labels[i].key, PreparedStr(labels[i].value, resource, datapoint))
  {
    seq(|labels|, i requires 0 <= i < |labels| => Label(labels[i].key, PreparedStr(labels[i].value, resource, datapoint)))
  }

  function ResourceLabel(index: nat, l: TmpLabel): PreparedLabel {
    PreparedLabel(l.key, match l.value case Borrowed(text) => Direct(text) case Scratch(i) => ResourceScratch(i), ResourceSymbol(index))
  }

  function DatapointLabel(l: TmpLabel): PreparedLabel {
    PreparedLabel(l.key, match l.value case Borrowed(text) => Direct(text) case Scratch(i) => DatapointScratch(i), Uncached)
  }

  /** A cached symbol slot always stands for the same key and value: entry `i` for
      resource label `i`, the metric slot for the metric name. */
  ghost predicate CacheSound(merged: seq<PreparedLabel>, values: seq<Label>, resource: seq<Label>, name: string)
    requires |values| == |merged|
  {
    forall i :: 0 <= i < |merged| ==>
      match merged[i].cache
      case Uncached => true
      case ResourceSymbol(j) => j < |resource| && values[i] == resource[j]
      case MetricSymbol => values[i] == Label(METRIC_NAME_LABEL, name)
  }

  /** The label set of a merge that has consumed `r` and `d`. */
  function Have(r: seq<Label>, d: seq<Label>, name: Option<string>, k: string): Option<string> {
    if k == METRIC_NAME_LABEL then name
    else if LastOf(d, k).Some? then LastOf(d, k) else LastOf(r, k)
  }

  predicate Below(s: seq<Label>, b: string) {
    forall i :: 0 <= i < |s| ==> Less(s[i].key, b)
  }

  /** What the merge has written when it stands at `ri` and `di`. */
  ghost predicate MergedTo(out: seq<Label>, r: seq<Label>, d: seq<Label>, name: string, ri: nat, di: nat, pending: bool)
    requires ri <= |r| && di <= |d|
  {
    && StrictKeys(out)
    && (forall x :: x in out <==> Have(r[..ri], d[..di], if pending then None else Some(name), x.key) == Some(x.value))
    && (forall b :: Remaining(r, d, ri, di, pending, b) ==> Below(out, b) && Below(r[..ri], b) && Below(d[..di], b))
  }

  predicate Remaining(r: seq<Label>, d: seq<Label>, ri: nat, di: nat, pending: bool, b: string)
    requires ri <= |r| && di <= |d|
  {
    || (exists i :: ri <= i < |r| && r[i].key == b)
    || (exists i :: di <= i < |d| && d[i].key == b)
    || (pending && b == METRIC_NAME_LABEL)
  }

  /** The merge moves from one position to the next by writing `x`. */
  ghost predicate Writes(r: seq<Label>, d: seq<Label>, name: string, ri: nat, di: nat, pending: bool,
                         x: Label, ri': nat, di': nat, pending': bool) {
    && ri <= ri' <= ri + 1 && ri' <= |r| && di <= di' <= di + 1 && di' <= |d|
    && (ri' > ri ==> r[ri].key == x.key) && (di' > di ==> d[di].key == x.key)
    && (pending' ==> pending)
    && if pending && !pending' then x == Label(METRIC_NAME_LABEL, name) && ri' == ri && di' == di
       else if di' > di then x == d[di] && x.key != METRIC_NAME_LABEL
       else ri' > ri && x == r[ri] && x.key != METRIC_NAME_LABEL
  }

  lemma {:induction false} PrefixStep(s: seq<Label>, i: nat, i': nat, k: string)
    requires i <= i' <= i + 1 && i' <= |s|
    ensures LastOf(s[..i'], k) == if i' > i && s[i].key == k then Some(s[i].value) else LastOf(s[..i], k)
  {
    if i' > i { assert s[..i'][..i] == s[..i]; }
  }

  lemma MergeMembers(out: seq<Label>, r: seq<Label>, d: seq<Label>, name: string, ri: nat, di: nat, pending: bool,
                     x: Label, ri': nat, di': nat, pending': bool, y: Label)
    requires Writes(r, d, name, ri, di, pending, x, ri', di', pending')
    requires y in out <==> Have(r[..ri], d[..di], if pending then None else Some(name), y.key) == Some(y.value)
    requires Below(out, x.key) && Below(r[..ri], x.key) && Below(d[..di], x.key)
    ensures y in out + [x] <==> Have(r[..ri'], d[..di'], if pending' then None else Some(name), y.key) == Some(y.value)
  {
    PrefixStep(r, ri, ri', y.key);
    PrefixStep(d, di, di', y.key);
    if y.key == x.key {
      LessTotal(x.key, x.key);
      LastOfNone(r[..ri], x.key);
      LastOfNone(d[..di], x.key);
      NotBelow(out, x.key, y);
    }
  }

  lemma BelowStep(s: seq<Label>, i: nat, i': nat, x: string, b: string)
    requires i <= i' <= i + 1 && i' <= |s| && (i' > i ==> s[i].key == x) && Below(s[..i], b) && Less(x, b)
    ensures Below(s[..i'], b)
  {
  }

  /** Writing the least remaining key keeps the merge's invariant. */
  lemma MergeOne(out: seq<Label>, r: seq<Label>, d: seq<Label>, name: string, ri: nat, di: nat, pending: bool,
                 x: Label, ri': nat, di': nat, pending': bool)
    requires Writes(r, d, name, ri, di, pending, x, ri', di', pending')
    requires MergedTo(out, r, d, name, ri, di, pending) && Remaining(r, d, ri, di, pending, x.key)
    requires forall b :: Remaining(r, d, ri', di', pending', b) ==> Remaining(r, d, ri, di, pending, b) && Less(x.key, b)
    ensures MergedTo(out + [x], r, d, name, ri', di', pending')
  {
    hide Remaining, Have;
    assert Below(out, x.key) && Below(r[..ri], x.key) && Below(d[..di], x.key);
    forall y ensures y in out + [x] <==> Have(r[..ri'], d[..di'], if pending' then None else Some(name), y.key) == Some(y.value) {
      MergeMembers(out, r, d, name, ri, di, pending, x, ri', di', pending', y);
    }
    forall b | Remaining(r, d, ri', di', pending', b)
      ensures Below(out + [x], b) && Below(r[..ri'], b) && Below(d[..di'], b)
    {
      BelowStep(r, ri, ri', x.key, b);
      BelowStep(d, di, di', x.key, b);
    }
  }

  lemma NotBelow(s: seq<Label>, b: string, y: Label)
    requires Below(s, b) && y.key == b
    ensures y !in s
  {
    LessTotal(b, b);
  }

  /** If every next key is greater than `x`, every remaining key is. */
  lemma AllGreater(r: seq<Label>, d: seq<Label>, ri: nat, di: nat, pending: bool, x: string, ri': nat, di': nat, pending': bool)
    requires StrictKeys(r) && StrictKeys(d) && ri <= ri' <= |r| && di <= di' <= |d| && (pending' ==> pending)
    requires ri' < |r| ==> Less(x, r[ri'].key)
    requires di' < |d| ==> Less(x, d[di'].key)
    requires pending' ==> Less(x, METRIC_NAME_LABEL)
    ensures forall b :: Remaining(r, d, ri', di', pending', b) ==> Remaining(r, d, ri, di, pending, b) && Less(x, b)
  {
    forall i | ri' <= i < |r| ensures Less(x, r[i].key) {
      if i > ri' { LessTrans(x, r[ri'].key, r[i].key); }
    }
    forall i | di' <= i < |d| ensures Less(x, d[i].key) {
      if i > di' { LessTrans(x, d[di'].key, d[i].key); }
    }
  }

  /** The ghost side of one turn of the merge. */
  lemma MergeTurn(out: seq<Label>, r: seq<Label>, d: seq<Label>, name: string, ri: nat, di: nat, pending: bool,
                  x: Label, ri': nat, di': nat, pending': bool)
    requires StrictKeys(r) && StrictKeys(d) && ri <= |r| && di <= |d| && MergedTo(out, r, d, name, ri, di, pending)
    requires Writes(r, d, name, ri, di, pending, x, ri', di', pending')
    requires ri' < |r| ==> Less(x.key, r[ri'].key)
    requires di' < |d| ==> Less(x.key, d[di'].key)
    requires pending' ==> Less(x.key, METRIC_NAME_LABEL)
    ensures MergedTo(out + [x], r, d, name, ri', di', pending')
  {
    AllGreater(r, d, ri, di, pending, x.key, ri', di', pending');
    MergeOne(out, r, d, name, ri, di, pending, x, ri', di', pending');
  }

  ghost predicate Mergeable(r: seq<Label>) {
    StrictKeys(r) && forall i :: 0 <= i < |r| ==> r[i].key != METRIC_NAME_LABEL
  }

  lemma AppendPrepared(merged: seq<PreparedLabel>, resource: seq<string>, datapoint: seq<string>, l: PreparedLabel)
    requires AllPrepared(merged, resource, datapoint) && PreparedInScratch(l.value, resource, datapoint)
    ensures AllPrepared(merged + [l], resource, datapoint)
    ensures ResolvePrepared(merged + [l], resource, datapoint) ==
            ResolvePrepared(merged, resource, datapoint) + [Label(l.key, PreparedStr(l.value, resource, datapoint))]
  {
  }

  datatype Turn = Metric | FromResource | FromBoth | FromDatapoint

  /** Which label the merge writes next. */
  function NextTurn(resource: seq<TmpLabel>, datapoint: seq<TmpLabel>, ri: nat, di: nat, pending: bool): Turn
    requires ri <= |resource| && di <= |datapoint| && (ri < |resource| || di < |datapoint| || pending)
  {
    var next :=
      if ri < |resource| && di < |datapoint| then
        Some(if Less(resource[ri].key, datapoint[di].key) then resource[ri].key else datapoint[di].key)
      else if ri < |resource| then Some(resource[ri].key)
      else if di < |datapoint| then Some(datapoint[di].key)
      else None;
    if pending && (next.None? || Less(METRIC_NAME_LABEL, next.value)) then Metric
    else if ri < |resource| && di < |datapoint| then
      if Less(resource[ri].key, datapoint[di].key) then FromResource
      else if resource[ri].key == datapoint[di].key then FromBoth
      else FromDatapoint
    else if ri < |resource| then FromResource
    else FromDatapoint
  }

  /** `merge_prepared_labels`: three sorted sources, the datapoint shadowing the
      resource, the metric name in its place. */
  method MergePrepared(resource: PreparedResource, name: string, labels: seq<TmpLabel>, ghost values: seq<string>)
      returns (merged: seq<PreparedLabel>)
    requires AllInScratch(resource.labels, resource.scratch) && AllInScratch(labels, values)
    requires Mergeable(Resolve(resource.labels, resource.scratch)) && Mergeable(Resolve(labels, values))
    ensures AllPrepared(merged, resource.scratch, values)
    ensures var r, d := Resolve(resource.labels, resource.scratch), Resolve(labels, values);
            var out := ResolvePrepared(merged, resource.scratch, values);
            MergedTo(out, r, d, name, |r|, |d|, false) && CacheSound(merged, out, r, name)
  {
    hide Resolve, ResolvePrepared, AllPrepared, MergedTo, StrictKeys, CacheSound, NextTurn, Less;
    ghost var r, d := Resolve(resource.labels, resource.scratch), Resolve(labels, values);
    merged := [];
    ghost var out := [];
    NothingMerged(r, d, name);
    NothingWritten(r, name, resource.scratch, values);
    var ri, di, pending := 0, 0, true;
    while ri < |resource.labels| || di < |labels| || pending
      invariant ri <= |resource.labels| == |r| && di <= |labels| == |d|
      invariant AllPrepared(merged, resource.scratch, values) && out == ResolvePrepared(merged, resource.scratch, values)
      invariant MergedTo(out, r, d, name, ri, di, pending) && CacheSound(merged, out, r, name)
      decreases |resource.labels| - ri, |labels| - di, pending
    {
      TurnMerges(resource.labels, labels, r, d, ri, di, pending, out, name);
      var next;
      match NextTurn(resource.labels, labels, ri, di, pending) {
      case Metric =>
        next := PreparedLabel(METRIC_NAME_LABEL, Direct(name), MetricSymbol);
        pending := false;
      case FromResource =>
        next := ResourceLabel(ri, resource.labels[ri]);
        ri := ri + 1;
      case FromBoth =>
        next := DatapointLabel(labels[di]);
        ri, di := ri + 1, di + 1;
      case FromDatapoint =>
        next := DatapointLabel(labels[di]);
        di := di + 1;
      }
      ghost var x := Label(next.key, PreparedStr(next.value, resource.scratch, values));
      WritesLabel(merged, out, r, name, resource.scratch, values, next, x);
      out := out + [x];
      merged := merged + [next];
    }
  }

  lemma NothingWritten(r: seq<Label>, name: string, scratch: seq<string>, values: seq<string>)
    ensures AllPrepared([], scratch, values) && ResolvePrepared([], scratch, values) == [] && CacheSound([], [], r, name)
  {
  }

  /** Writing one label whose cache mark is right. */
  lemma WritesLabel(merged: seq<PreparedLabel>, out: seq<Label>, r: seq<Label>, name: string, scratch: seq<string>, values: seq<string>,
                    next: PreparedLabel, x: Label)
    requires AllPrepared(merged, scratch, values) && out == ResolvePrepared(merged, scratch, values) && CacheSound(merged, out, r, name)
    requires PreparedInScratch(next.value, scratch, values) && x == Label(next.key, PreparedStr(next.value, scratch, values))
    requires match next.cache {
             case Uncached => true
             case ResourceSymbol(j) => j < |r| && x == r[j]
             case MetricSymbol => x == Label(METRIC_NAME_LABEL, name)
             }
    ensures AllPrepared(merged + [next], scratch, values) && out + [x] == ResolvePrepared(merged + [next], scratch, values)
    ensures CacheSound(merged + [next], out + [x], r, name)
  {
    hide AllPrepared, ResolvePrepared, PreparedStr, CacheSound;
    AppendPrepared(merged, scratch, values, next);
    CacheOne(next, x, r, name);
    CacheMore(merged, out, r, name, next, x);
  }

  lemma CacheMore(merged: seq<PreparedLabel>, out: seq<Label>, r: seq<Label>, name: string, l: PreparedLabel, x: Label)
    requires |out| == |merged| && CacheSound(merged, out, r, name) && CacheSound([l], [x], r, name)
    ensures CacheSound(merged + [l], out + [x], r, name)
  {
    var more := merged + [l];
    forall i | 0 <= i < |more| ensures CacheSound([more[i]], [(out + [x])[i]], r, name) {
      if i < |merged| { assert more[i] == merged[i]; }
    }
    assert forall i :: 0 <= i < |more| ==> [more[i]][0] == more[i];
  }

  lemma CacheOne(l: PreparedLabel, x: Label, r: seq<Label>, name: string)
    requires match l.cache {
             case Uncached => true
             case ResourceSymbol(j) => j < |r| && x == r[j]
             case MetricSymbol => x == Label(METRIC_NAME_LABEL, name)
             }
    ensures CacheSound([l], [x], r, name)
  {
  }

  lemma NothingMerged(r: seq<Label>, d: seq<Label>, name: string)
    ensures MergedTo([], r, d, name, 0, 0, true)
  {
  }

  /** Whichever label the turn writes, the merge stays right. */
  lemma TurnMerges(resource: seq<TmpLabel>, datapoint: seq<TmpLabel>, r: seq<Label>, d: seq<Label>, ri: nat, di: nat, pending: bool,
                   out: seq<Label>, name: string)
    requires |r| == |resource| && |d| == |datapoint| && Mergeable(r) && Mergeable(d)
    requires forall i :: 0 <= i < |r| ==> r[i].key == resource[i].key
    requires forall i :: 0 <= i < |d| ==> d[i].key == datapoint[i].key
    requires ri <= |resource| && di <= |datapoint| && (ri < |resource| || di < |datapoint| || pending)
    requires MergedTo(out, r, d, name, ri, di, pending)
    ensures match NextTurn(resource, datapoint, ri, di, pending) {
            case Metric => pending && MergedTo(out + [Label(METRIC_NAME_LABEL, name)], r, d, name, ri, di, false)
            case FromResource => ri < |r| && MergedTo(out + [r[ri]], r, d, name, ri + 1, di, pending)
            case FromBoth => ri < |r| && di < |d| && MergedTo(out + [d[di]], r, d, name, ri + 1, di + 1, pending)
            case FromDatapoint => di < |d| && MergedTo(out + [d[di]], r, d, name, ri, di + 1, pending)
            }
  {
    hide MergedTo, NextTurn, Less;
    TurnOrder(resource, datapoint, r, d, ri, di, pending);
    match NextTurn(resource, datapoint, ri, di, pending) {
    case Metric => MergeTurn(out, r, d, name, ri, di, pending, Label(METRIC_NAME_LABEL, name), ri, di, false);
    case FromResource => MergeTurn(out, r, d, name, ri, di, pending, r[ri], ri + 1, di, pending);
    case FromBoth => MergeTurn(out, r, d, name, ri, di, pending, d[di], ri + 1, di + 1, pending);
    case FromDatapoint => MergeTurn(out, r, d, name, ri, di, pending, d[di], ri, di + 1, pending);
    }
  }

  /** The turn writes a key below every key that stays. */
  lemma TurnOrder(resource: seq<TmpLabel>, datapoint: seq<TmpLabel>, r: seq<Label>, d: seq<Label>, ri: nat, di: nat, pending: bool)
    requires |r| == |resource| && |d| == |datapoint| && Mergeable(r) && Mergeable(d)
    requires forall i :: 0 <= i < |r| ==> r[i].key == resource[i].key
    requires forall i :: 0 <= i < |d| ==> d[i].key == datapoint[i].key
    requires ri <= |resource| && di <= |datapoint| && (ri < |resource| || di < |datapoint| || pending)
    ensures match NextTurn(resource, datapoint, ri, di, pending) {
            case Metric =>
              && pending
              && (ri < |r| ==> Less(METRIC_NAME_LABEL, r[ri].key)) && (di < |d| ==> Less(METRIC_NAME_LABEL, d[di].key))
            case FromResource =>
              && ri < |r| && (ri + 1 < |r| ==> Less(r[ri].key, r[ri + 1].key))
              && (di < |d| ==> Less(r[ri].key, d[di].key)) && (pending ==> Less(r[ri].key, METRIC_NAME_LABEL))
            case FromBoth =>
              && ri < |r| && di < |d| && r[ri].key == d[di].key && (ri + 1 < |r| ==> Less(d[di].key, r[ri + 1].key))
              && (di + 1 < |d| ==> Less(d[di].key, d[di + 1].key)) && (pending ==> Less(d[di].key, METRIC_NAME_LABEL))
            case FromDatapoint =>
              && di < |d| && (di + 1 < |d| ==> Less(d[di].key, d[di + 1].key))
              && (ri < |r| ==> Less(d[di].key, r[ri].key)) && (pending ==> Less(d[di].key, METRIC_NAME_LABEL))
            }
  {
    if ri < |r| && di < |d| {
      LessTotal(r[ri].key, d[di].key);
      if pending && Less(METRIC_NAME_LABEL, d[di].key) && Less(d[di].key, r[ri].key) { LessTrans(METRIC_NAME_LABEL, d[di].key, r[ri].key); }
      if pending && Less(METRIC_NAME_LABEL, r[ri].key) && Less(r[ri].key, d[di].key) { LessTrans(METRIC_NAME_LABEL, r[ri].key, d[di].key); }
    }
    if ri < |r| { LessTotal(r[ri].key, METRIC_NAME_LABEL); }
    if di < |d| { LessTotal(d[di].key, METRIC_NAME_LABEL); }
  }

  /** `build_prepared_canonical_labelset` over a resource prepared once. */
  method BuildPrepared(p: PreparedResource, ghost resource: seq<KeyValue>, name: string, datapoint: seq<KeyValue>)
      returns (labels: seq<PreparedLabel>, values: seq<string>, skipped: nat)
    requires LabelsOf(p.labels, p.scratch, resource) && p.skipped == Skipped(resource)
    ensures AllPrepared(labels, p.scratch, values)
    ensures Canonical(ResolvePrepared(labels, p.scratch, values), Wanted(resource, name, datapoint))
    ensures skipped == Skipped(resource) + Skipped(datapoint)
    ensures CacheSound(labels, ResolvePrepared(labels, p.scratch, values), Resolve(p.labels, p.scratch), name)
  {
    var sorted, skippedDatapoint;
    sorted, values, skippedDatapoint := SortedAttributes(datapoint, 2);
    MergeableAttributes(p.labels, p.scratch, resource);
    MergeableAttributes(sorted, values, datapoint);
    labels := MergePrepared(p, name, sorted, values);
    skipped := p.skipped + skippedDatapoint;
    MergedIsWanted(Resolve(p.labels, p.scratch), Resolve(sorted, values), resource, name, datapoint,
                   ResolvePrepared(labels, p.scratch, values));
  }

  lemma MergeableAttributes(labels: seq<TmpLabel>, scratch: seq<string>, attributes: seq<KeyValue>)
    requires LabelsOf(labels, scratch, attributes)
    ensures Mergeable(Resolve(labels, scratch))
  {
    NoMetricName(attributes);
    var r := Resolve(labels, scratch);
    forall i | 0 <= i < |r| ensures r[i].key != METRIC_NAME_LABEL { assert r[i] in r; }
  }

  lemma MergedIsWanted(r: seq<Label>, d: seq<Label>, resource: seq<KeyValue>, name: string, datapoint: seq<KeyValue>, out: seq<Label>)
    requires MergedTo(out, r, d, name, |r|, |d|, false) && StrictKeys(r) && StrictKeys(d)
    requires forall x :: x in r <==> LastOf(SupportedLabels(resource), x.key) == Some(x.value)
    requires forall x :: x in d <==> LastOf(SupportedLabels(datapoint), x.key) == Some(x.value)
    ensures Canonical(out, Wanted(resource, name, datapoint))
  {
    forall k ensures Have(r, d, Some(name), k) == Wanted(resource, name, datapoint)(k) {
      SameLast(r, SupportedLabels(resource), k);
      SameLast(d, SupportedLabels(datapoint), k);
    }
    assert r[..|r|] == r && d[..|d|] == d;
  }

  lemma SameLast(r: seq<Label>, s: seq<Label>, k: string)
    requires StrictKeys(r) && forall x :: x in r <==> LastOf(s, x.key) == Some(x.value)
    ensures LastOf(r, k) == LastOf(s, k)
  {
    if LastOf(s, k).Some? { StrictLast(r, Label(k, LastOf(s, k).value)); }
    if LastOf(r, k).Some? { StrictLast(r, Label(k, LastOf(r, k).value)); }
  }

  /** The prepared build and the full sort give the same label sequence. */
  lemma BuildsAgree(full: seq<Label>, prepared: seq<Label>, resource: seq<KeyValue>, name: string, datapoint: seq<KeyValue>)
    requires Canonical(full, Wanted(resource, name, datapoint)) && Canonical(prepared, Wanted(resource, name, datapoint))
    ensures full == prepared
  {
    CanonicalUnique(full, prepared);
  }

  /** Both builds on the same input: the same labels, and the same skipped count. */
  method BuildBoth(resource: seq<KeyValue>, name: string, datapoint: seq<KeyValue>)
      returns (full: seq<TmpLabel>, scratch: seq<string>, skipped: nat,
               plan: PreparedResource, prepared: seq<PreparedLabel>, values: seq<string>, skippedToo: nat)
    ensures AllInScratch(full, scratch) && AllPrepared(prepared, plan.scratch, values)
    ensures Resolve(full, scratch) == ResolvePrepared(prepared, plan.scratch, values) && skipped == skippedToo
  {
    hide Canonical, Wanted, Skipped, LabelsOf, CacheSound;
    full, scratch, skipped := BuildFullSort(resource, name, datapoint);
    plan := PrepareResource(resource);
    prepared, values, skippedToo := BuildPrepared(plan, resource, name, datapoint);
    BuildsAgree(Resolve(full, scratch), ResolvePrepared(prepared, plan.scratch, values), resource, name, datapoint);
  }
}
