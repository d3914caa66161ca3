/** Records grouped by key, and the groups on which the oracle's label is not determined. */
module Fibers {
  import opened Options
  import opened Json
  import opened Observations
  import opened Renaming
  import opened NormalForms
  import opened ObservationTheorems

  datatype Fiber = Fiber(keyDigest: Bytes, cases: multiset<string>, labels: set<string>)

  /** How records are given keys. */
  type Keying = Record -> Bytes

  function KeyingAt(codec: Codec, level: Level): Keying {
    (r: Record) => RecordKey(codec, r, level)
  }

  /** The records with the given key. */
  function Group(keying: Keying, records: seq<Record>, key: Bytes): seq<Record> {
    if records == [] then []
    else
      var before, last := Group(keying, records[..|records| - 1], key), records[|records| - 1];
      if keying(last) == key then before + [last] else before
  }

  function Labels(records: seq<Record>): set<string> {
    set r | r in records :: r.decision
  }

  function Cases(records: seq<Record>): multiset<string> {
    multiset(seq(|records|, i requires 0 <= i < |records| => records[i].caseId))
  }

  predicate Mixed(keying: Keying, records: seq<Record>, key: Bytes) {
    |Labels(Group(keying, records, key))| > 1
  }

  function FiberOf(codec: Codec, keying: Keying, records: seq<Record>, key: Bytes): Fiber {
    var group := Group(keying, records, key);
    Fiber(codec.sha(key), Cases(group), Labels(group))
  }

  /** The keys in the order they are first met. */
  function KeysSeen(keying: Keying, records: seq<Record>): seq<Bytes> {
    if records == [] then []
    else
      var before, key := KeysSeen(keying, records[..|records| - 1]), keying(records[|records| - 1]);
      if key in before then before else before + [key]
  }

  function MixedAmong(codec: Codec, keying: Keying, records: seq<Record>, keys: seq<Bytes>): seq<Fiber> {
    if keys == [] then []
    else
      var before, key := MixedAmong(codec, keying, records, keys[..|keys| - 1]), keys[|keys| - 1];
      if Mixed(keying, records, key) then before + [FiberOf(codec, keying, records, key)] else before
  }

  function MixedFibers(codec: Codec, keying: Keying, records: seq<Record>): seq<Fiber> {
    MixedAmong(codec, keying, records, KeysSeen(keying, records))
  }

  /** `mixed_label_fibers`, up to the sorting of its result; `None` stands for ValueError. */
  method MixedLabelFibers(codec: Codec, records: seq<Record>, level: string) returns (mixed: Option<seq<Fiber>>)
    ensures mixed.None? <==> records != [] && LevelNamed(level).None?
    ensures records == [] ==> mixed == Some([])
    ensures LevelNamed(level).Some? ==>
      mixed == Some(MixedFibers(codec, KeyingAt(codec, LevelNamed(level).value), records))
    ensures LevelNamed(level).Some? ==>
      FibersListed(codec, KeyingAt(codec, LevelNamed(level).value), records, mixed.value)
  {
    if records == [] {
      if LevelNamed(level).Some? {
        FibersAreListed(codec, KeyingAt(codec, LevelNamed(level).value), []);
      }
      return Some([]);
    }
    if LevelNamed(level).None? {
      return None;
    }
    ghost var keying := KeyingAt(codec, LevelNamed(level).value);
    var fibers := MixedGroups(codec, records, level, keying);
    FibersAreListed(codec, keying, records);
    mixed := Some(fibers);
  }

  /** The groups, and the second loop, over them. */
  method MixedGroups(codec: Codec, records: seq<Record>, level: string, ghost keying: Keying)
    returns (fibers: seq<Fiber>)
    requires LevelNamed(level).Some? && keying == KeyingAt(codec, LevelNamed(level).value)
    ensures fibers == MixedFibers(codec, keying, records)
  {
    var keys, grouped := GroupByKey(codec, records, level);
    fibers := [];
    for i := 0 to |keys|
      invariant fibers == MixedAmong(codec, keying, records, keys[..i])
    {
      assert keys[..i + 1][..i] == keys[..i];
      var members := grouped[keys[i]];
      var labels := Labels(members);
      if |labels| > 1 {
        fibers := fibers + [Fiber(codec.sha(keys[i]), Cases(members), labels)];
      }
    }
    assert keys[..|keys|] == keys;
  }

  method KeyFor(codec: Codec, r: Record, level: string, ghost keying: Keying) returns (key: Bytes)
    requires LevelNamed(level).Some? && keying == KeyingAt(codec, LevelNamed(level).value)
    ensures key == keying(r)
  {
    var found := ObservationKey(codec, r, level);
    key := found.value;
  }

  /** The first loop: the dictionary of groups, with its keys in insertion order. */
  method GroupByKey(codec: Codec, records: seq<Record>, level: string)
    returns (keys: seq<Bytes>, grouped: map<Bytes, seq<Record>>)
    requires LevelNamed(level).Some?
    ensures
      var keying := KeyingAt(codec, LevelNamed(level).value);
      && keys == KeysSeen(keying, records)
      && (forall key :: key in keys <==> key in grouped)
      && forall key :: key in grouped ==> grouped[key] == Group(keying, records, key)
  {
    ghost var keying := KeyingAt(codec, LevelNamed(level).value);
    keys, grouped := [], map[];
    for i := 0 to |records|
      invariant keys == KeysSeen(keying, records[..i])
      invariant Grouped(keying, records[..i], keys, grouped)
    {
      var key := KeyFor(codec, records[i], level, keying);
      GroupedOneMore(keying, records, i, keys, grouped);
      var earlier := if key in grouped then grouped[key] else [];
      keys := if key in grouped then keys else keys + [key];
      grouped := grouped[key := earlier + [records[i]]];
    }
    assert records[..|records|] == records;
  }

  /** The dictionary holds every group that is not empty. */
  ghost predicate Grouped(keying: Keying, records: seq<Record>, keys: seq<Bytes>, grouped: map<Bytes, seq<Record>>) {
    && (forall key :: key in keys <==> key in grouped)
    && (forall key :: Group(keying, records, key) == if key in grouped then grouped[key] else [])
  }

  lemma GroupedOneMore(keying: Keying, records: seq<Record>, i: nat, keys: seq<Bytes>, grouped: map<Bytes, seq<Record>>)
    requires i < |records| && Grouped(keying, records[..i], keys, grouped) && keys == KeysSeen(keying, records[..i])
    ensures
      var key := keying(records[i]);
      && KeysSeen(keying, records[..i + 1]) == (if key in grouped then keys else keys + [key])
      && Grouped(keying, records[..i + 1], if key in grouped then keys else keys + [key],
           grouped[key := (if key in grouped then grouped[key] else []) + [records[i]]])
  {
    assert records[..i + 1][..i] == records[..i];
  }

  // ----- What the result means -----

  lemma {:induction false} GroupIs(keying: Keying, records: seq<Record>, key: Bytes)
    ensures forall r :: r in Group(keying, records, key) <==> r in records && keying(r) == key
    decreases |records|
  {
    if records != [] {
      GroupIs(keying, records[..|records| - 1], key);
      assert records == records[..|records| - 1] + [records[|records| - 1]];
    }
  }

  lemma ManyIff<T>(s: set<T>)
    ensures |s| > 1 <==> exists a, b :: a in s && b in s && a != b
  {
    if |s| > 1 {
      var a :| a in s;
      assert |s - {a}| == |s| - 1;
      var b :| b in s - {a};
      assert b in s && a != b;
    }
    if a, b :| a in s && b in s && a != b {
      assert {a, b} <= s;
      assert s == {a, b} + (s - {a, b});
    }
  }

  /** Two records with this key and different labels. */
  ghost predicate Clash(keying: Keying, records: seq<Record>, key: Bytes, r: Record, q: Record) {
    r in records && q in records && r.decision != q.decision && keying(r) == key && keying(q) == key
  }

  /** A key is mixed exactly when two records have it and different labels. */
  lemma {:induction false} MixedIff(keying: Keying, records: seq<Record>, key: Bytes)
    ensures Mixed(keying, records, key) <==> exists r, q :: Clash(keying, records, key, r, q)
  {
    var group := Group(keying, records, key);
    GroupIs(keying, records, key);
    ManyIff(Labels(group));
    if a, b :| a in Labels(group) && b in Labels(group) && a != b {
      var r :| r in group && r.decision == a;
      var q :| q in group && q.decision == b;
      assert Clash(keying, records, key, r, q);
    }
    if r, q :| Clash(keying, records, key, r, q) {
      assert r in group && q in group;
      assert r.decision in Labels(group) && q.decision in Labels(group);
    }
  }

  lemma {:induction false} KeysSeenIs(keying: Keying, records: seq<Record>)
    ensures forall r :: r in records ==> keying(r) in KeysSeen(keying, records)
    decreases |records|
  {
    if records != [] {
      KeysSeenIs(keying, records[..|records| - 1]);
      assert records == records[..|records| - 1] + [records[|records| - 1]];
    }
  }

  lemma {:induction false} MixedAmongIs(codec: Codec, keying: Keying, records: seq<Record>, keys: seq<Bytes>, f: Fiber)
    ensures
      f in MixedAmong(codec, keying, records, keys) <==>
      exists key :: key in keys && Mixed(keying, records, key) && f == FiberOf(codec, keying, records, key)
    decreases |keys|
  {
    if keys != [] {
      MixedAmongIs(codec, keying, records, keys[..|keys| - 1], f);
      assert keys == keys[..|keys| - 1] + [keys[|keys| - 1]];
    }
  }

  /** The result lists exactly the fibers of the mixed keys. */
  lemma {:induction false} ListsMixedFibers(codec: Codec, keying: Keying, records: seq<Record>, f: Fiber)
    ensures
      f in MixedFibers(codec, keying, records) <==>
      exists key :: Mixed(keying, records, key) && f == FiberOf(codec, keying, records, key)
  {
    MixedAmongIs(codec, keying, records, KeysSeen(keying, records), f);
    if key :| Mixed(keying, records, key) && f == FiberOf(codec, keying, records, key) {
      MixedIff(keying, records, key);
      KeysSeenIs(keying, records);
      assert key in KeysSeen(keying, records);
    }
  }

  // ----- The result, record by record -----

  predicate HasKeyAt(keying: Keying, records: seq<Record>, key: Bytes, i: int) {
    0 <= i < |records| && keying(records[i]) == key
  }

  /** The records at these places have this key and different labels. */
  predicate ClashAt(keying: Keying, records: seq<Record>, key: Bytes, i: int, j: int) {
    && HasKeyAt(keying, records, key, i) && HasKeyAt(keying, records, key, j)
    && records[i].decision != records[j].decision
  }

  ghost predicate IsMixed(keying: Keying, records: seq<Record>, key: Bytes) {
    exists i, j :: ClashAt(keying, records, key, i, j)
  }

  /** The places of the records of this case with this key. */
  function Places(keying: Keying, records: seq<Record>, key: Bytes, caseId: string): set<int> {
    set i | 0 <= i < |records| && keying(records[i]) == key && records[i].caseId == caseId
  }

  /** The labels are those of the records with this key. */
  ghost predicate HasLabels(keying: Keying, records: seq<Record>, key: Bytes, labels: set<string>) {
    forall d :: d in labels <==> exists i :: HasKeyAt(keying, records, key, i) && records[i].decision == d
  }

  /** The fiber shows the digest of the key, the cases of the records with it, and their labels. */
  ghost predicate Describes(codec: Codec, keying: Keying, records: seq<Record>, key: Bytes, f: Fiber) {
    && f.keyDigest == codec.sha(key)
    && (forall c :: f.cases[c] == |Places(keying, records, key, c)|)
    && HasLabels(keying, records, key, f.labels)
  }

  /** The first record with its key. */
  ghost predicate IsFirst(keying: Keying, records: seq<Record>, i: int) {
    0 <= i < |records| && forall j :: 0 <= j < i ==> keying(records[j]) != keying(records[i])
  }

  lemma {:induction false} CasesSnoc(group: seq<Record>, r: Record)
    ensures Cases(group + [r]) == Cases(group) + multiset{r.caseId}
  {
    var ids := seq(|group|, i requires 0 <= i < |group| => group[i].caseId);
    var all := group + [r];
    assert seq(|all|, i requires 0 <= i < |all| => all[i].caseId) == ids + [r.caseId];
  }

  lemma PlacesSnoc(keying: Keying, records: seq<Record>, r: Record, key: Bytes, c: string)
    ensures
      |Places(keying, records + [r], key, c)|
      == |Places(keying, records, key, c)| + if keying(r) == key && r.caseId == c then 1 else 0
  {
    var some, all := Places(keying, records, key, c), Places(keying, records + [r], key, c);
    assert |records| !in some;
    assert all == some + if keying(r) == key && r.caseId == c then {|records|} else {};
  }

  lemma {:induction false} CasesCounted(keying: Keying, records: seq<Record>, key: Bytes, c: string)
    ensures Cases(Group(keying, records, key))[c] == |Places(keying, records, key, c)|
    decreases |records|
  {
    if records != [] {
      var front, last := records[..|records| - 1], records[|records| - 1];
      assert records == front + [last];
      CasesCounted(keying, front, key, c);
      PlacesSnoc(keying, front, last, key, c);
      CasesSnoc(Group(keying, front, key), last);
    }
  }

  lemma {:induction false} LabelsAre(keying: Keying, records: seq<Record>, key: Bytes)
    ensures HasLabels(keying, records, key, Labels(Group(keying, records, key)))
  {
    var group := Group(keying, records, key);
    GroupIs(keying, records, key);
    forall d | d in Labels(group) ensures exists i :: HasKeyAt(keying, records, key, i) && records[i].decision == d {
      var r :| r in group && r.decision == d;
      var i :| 0 <= i < |records| && records[i] == r;
      assert HasKeyAt(keying, records, key, i);
    }
    forall i | HasKeyAt(keying, records, key, i) ensures records[i].decision in Labels(group) {
      assert records[i] in group;
    }
  }

  lemma {:induction false} MixedIsMixed(keying: Keying, records: seq<Record>, key: Bytes)
    ensures Mixed(keying, records, key) <==> IsMixed(keying, records, key)
  {
    MixedIff(keying, records, key);
    if r, q :| Clash(keying, records, key, r, q) {
      var i :| 0 <= i < |records| && records[i] == r;
      var j :| 0 <= j < |records| && records[j] == q;
      assert ClashAt(keying, records, key, i, j);
    }
    if i, j :| ClashAt(keying, records, key, i, j) {
      assert Clash(keying, records, key, records[i], records[j]);
    }
  }

  lemma {:induction false} FiberDescribes(codec: Codec, keying: Keying, records: seq<Record>, key: Bytes)
    ensures Describes(codec, keying, records, key, FiberOf(codec, keying, records, key))
  {
    LabelsAre(keying, records, key);
    forall c ensures Cases(Group(keying, records, key))[c] == |Places(keying, records, key, c)| {
      CasesCounted(keying, records, key, c);
    }
  }

  ghost predicate Ascending(at: seq<nat>) {
    forall p, q :: 0 <= p < q < |at| ==> at[p] < at[q]
  }

  /** The keys seen are those of the records at these places, which are the first with their keys. */
  ghost predicate SeenAt(keying: Keying, records: seq<Record>, keys: seq<Bytes>, at: seq<nat>) {
    && |keys| == |at| && Ascending(at)
    && (forall p :: 0 <= p < |at| ==> IsFirst(keying, records, at[p]) && keys[p] == keying(records[at[p]]))
    && forall i: nat :: IsFirst(keying, records, i) ==> i in at
  }

  lemma {:induction false} SeenOneMore(
    keying: Keying, records: seq<Record>, r: Record, keys: seq<Bytes>, at: seq<nat>)
    requires SeenAt(keying, records, keys, at)
    requires forall q :: q in records ==> keying(q) in keys
    ensures keying(r) in keys ==> SeenAt(keying, records + [r], keys, at)
    ensures keying(r) !in keys ==> SeenAt(keying, records + [r], keys + [keying(r)], at + [|records|])
  {
    var all := records + [r];
    assert forall j :: 0 <= j < |records| ==> all[j] == records[j];
    if keying(r) in keys {
      var p :| 0 <= p < |keys| && keys[p] == keying(r);
      assert keying(all[at[p]]) == keying(all[|records|]);
      assert !IsFirst(keying, all, |records|);
    } else {
      forall j | 0 <= j < |records| ensures keying(all[j]) != keying(r) {
        assert records[j] in records;
      }
      assert IsFirst(keying, all, |records|);
      var at' := at + [|records|];
      forall i: nat | IsFirst(keying, all, i) ensures i in at' {
        assert i < |records| ==> i in at;
      }
    }
  }

  lemma {:induction false} KeysSeenAt(keying: Keying, records: seq<Record>) returns (at: seq<nat>)
    ensures SeenAt(keying, records, KeysSeen(keying, records), at)
    decreases |records|
  {
    if records == [] {
      at := [];
    } else {
      var front, last := records[..|records| - 1], records[|records| - 1];
      assert records == front + [last];
      at := KeysSeenAt(keying, front);
      KeysSeenIs(keying, front);
      SeenOneMore(keying, front, last, KeysSeen(keying, front), at);
      if keying(last) !in KeysSeen(keying, front) {
        at := at + [|front|];
      }
    }
  }

  /** The fibers describe the mixed keys among those of the records at `at`; `firsts` are the places of these. */
  ghost predicate Picks(
    codec: Codec, keying: Keying, records: seq<Record>, at: seq<nat>, fibers: seq<Fiber>, firsts: seq<nat>)
    requires forall p :: 0 <= p < |at| ==> at[p] < |records|
  {
    && |fibers| == |firsts| && Ascending(firsts)
    && (forall i :: i in firsts <==> i in at && IsMixed(keying, records, keying(records[i])))
    && forall p :: 0 <= p < |firsts| ==>
         && firsts[p] < |records| && Describes(codec, keying, records, keying(records[firsts[p]]), fibers[p])
  }

  lemma {:induction false} PicksOneMore(
    codec: Codec, keying: Keying, records: seq<Record>, at: seq<nat>, i: nat, fibers: seq<Fiber>, firsts: seq<nat>)
    requires Ascending(at + [i]) && i < |records| && forall p :: 0 <= p < |at| ==> at[p] < |records|
    requires Picks(codec, keying, records, at, fibers, firsts)
    ensures
      var key := keying(records[i]);
      if Mixed(keying, records, key)
      then Picks(codec, keying, records, at + [i], fibers + [FiberOf(codec, keying, records, key)], firsts + [i])
      else Picks(codec, keying, records, at + [i], fibers, firsts)
  {
    var key, all := keying(records[i]), at + [i];
    MixedIsMixed(keying, records, key);
    FiberDescribes(codec, keying, records, key);
    assert forall j :: j in all <==> j in at || j == i;
    forall p | 0 <= p < |firsts| ensures firsts[p] < i {
      assert firsts[p] in firsts;
      var q :| 0 <= q < |at| && at[q] == firsts[p];
      assert all[q] < all[|at|];
    }
    if Mixed(keying, records, key) {
      assert forall j :: j in firsts + [i] <==> j in firsts || j == i;
    }
  }

  lemma {:induction false} MixedAmongPicks(
    codec: Codec, keying: Keying, records: seq<Record>, keys: seq<Bytes>, at: seq<nat>) returns (firsts: seq<nat>)
    requires |keys| == |at| && Ascending(at)
    requires forall p :: 0 <= p < |at| ==> at[p] < |records| && keys[p] == keying(records[at[p]])
    ensures Picks(codec, keying, records, at, MixedAmong(codec, keying, records, keys), firsts)
    decreases |keys|
  {
    if keys == [] {
      firsts := [];
    } else {
      var n := |keys| - 1;
      assert at == at[..n] + [at[n]];
      firsts := MixedAmongPicks(codec, keying, records, keys[..n], at[..n]);
      PicksOneMore(codec, keying, records, at[..n], at[n], MixedAmong(codec, keying, records, keys[..n]), firsts);
      if Mixed(keying, records, keys[n]) {
        firsts := firsts + [at[n]];
      }
    }
  }

  /** The places of the fibers: of the first record with each key that two records with different labels have. */
  ghost predicate IsFiberPlace(keying: Keying, records: seq<Record>, i: int) {
    IsFirst(keying, records, i) && IsMixed(keying, records, keying(records[i]))
  }

  /** One fiber for each of these places, in their order, describing the records with the key met there. */
  ghost predicate ListsFibers(
    codec: Codec, keying: Keying, records: seq<Record>, fibers: seq<Fiber>, firsts: seq<nat>)
  {
    && |fibers| == |firsts| && Ascending(firsts)
    && (forall i: nat :: i in firsts <==> IsFiberPlace(keying, records, i))
    && forall p :: 0 <= p < |firsts| && firsts[p] < |records| ==>
         Describes(codec, keying, records, keying(records[firsts[p]]), fibers[p])
  }

  ghost predicate FibersListed(codec: Codec, keying: Keying, records: seq<Record>, fibers: seq<Fiber>) {
    exists firsts :: ListsFibers(codec, keying, records, fibers, firsts)
  }

  /**
   The result, in terms of the records alone: one fiber for every key that two records with different
   labels have, in the order in which these keys are first met, with the digest of the key, each case as
   often as records of it have the key, and the labels of those records.
   */
  lemma {:induction false} FibersByRecord(codec: Codec, keying: Keying, records: seq<Record>)
    returns (firsts: seq<nat>)
    ensures ListsFibers(codec, keying, records, MixedFibers(codec, keying, records), firsts)
  {
    var at := KeysSeenAt(keying, records);
    firsts := MixedAmongPicks(codec, keying, records, KeysSeen(keying, records), at);
    forall i: nat ensures i in firsts <==> IsFiberPlace(keying, records, i) {
      if i in at {
        var p :| 0 <= p < |at| && at[p] == i;
        assert IsFirst(keying, records, at[p]);
      }
    }
  }

  lemma FibersAreListed(codec: Codec, keying: Keying, records: seq<Record>)
    ensures FibersListed(codec, keying, records, MixedFibers(codec, keying, records))
  {
    var firsts := FibersByRecord(codec, keying, records);
  }

  // ----- No mixed fibers: the label is a function of the key -----

  /** `table` gives the label of every record from its key. */
  predicate Decides(keying: Keying, table: map<Bytes, string>, records: seq<Record>) {
    forall r :: r in records ==> keying(r) in table && table[keying(r)] == r.decision
  }

  function Table(keying: Keying, records: seq<Record>): map<Bytes, string> {
    if records == [] then map[]
    else Table(keying, records[..|records| - 1])[keying(records[|records| - 1]) := records[|records| - 1].decision]
  }

  /** Some record has this key and label. */
  ghost predicate Labelled(keying: Keying, records: seq<Record>, key: Bytes, decision: string) {
    exists r :: r in records && keying(r) == key && r.decision == decision
  }

  lemma LabelledStill(keying: Keying, before: seq<Record>, last: Record, key: Bytes, decision: string)
    requires Labelled(keying, before, key, decision)
    ensures Labelled(keying, before + [last], key, decision)
  {
    var r :| r in before && keying(r) == key && r.decision == decision;
    assert r in before + [last];
  }

  lemma {:induction false} TableIs(keying: Keying, records: seq<Record>)
    ensures forall r :: r in records ==> keying(r) in Table(keying, records)
    ensures forall key :: key in Table(keying, records) ==> Labelled(keying, records, key, Table(keying, records)[key])
    decreases |records|
  {
    if records != [] {
      var before, last := records[..|records| - 1], records[|records| - 1];
      TableIs(keying, before);
      assert records == before + [last];
      assert last in records;
      forall key | key in Table(keying, before) && key != keying(last)
        ensures Labelled(keying, records, key, Table(keying, before)[key])
      {
        LabelledStill(keying, before, last, key, Table(keying, before)[key]);
      }
    }
  }

  /** There are no mixed fibers exactly when some function of the key gives every label. */
  lemma {:induction false} NoMixedFibersIff(codec: Codec, keying: Keying, records: seq<Record>)
    ensures MixedFibers(codec, keying, records) == [] <==> exists table :: Decides(keying, table, records)
  {
    var fibers := MixedFibers(codec, keying, records);
    if fibers == [] {
      var table := Table(keying, records);
      TableIs(keying, records);
      forall r | r in records ensures table[keying(r)] == r.decision {
        var key := keying(r);
        assert Labelled(keying, records, key, table[key]);
        var q :| q in records && keying(q) == key && q.decision == table[key];
        ListsMixedFibers(codec, keying, records, FiberOf(codec, keying, records, key));
        MixedIff(keying, records, key);
        assert !Clash(keying, records, key, r, q);
      }
      assert Decides(keying, table, records);
    } else {
      ListsMixedFibers(codec, keying, records, fibers[0]);
      var key :| Mixed(keying, records, key) && fibers[0] == FiberOf(codec, keying, records, key);
      MixedIff(keying, records, key);
    }
  }

  // ----- Levels -----

  /** Records that `fine` does not tell apart, `coarse` does not tell apart either. */
  ghost predicate Refines(fine: Keying, coarse: Keying, records: seq<Record>) {
    forall r, q :: r in records && q in records && fine(r) == fine(q) ==> coarse(r) == coarse(q)
  }

  lemma {:induction false} MixedInside(fine: Keying, coarse: Keying, records: seq<Record>, key: Bytes)
    returns (outer: Bytes)
    requires Refines(fine, coarse, records) && Mixed(fine, records, key)
    ensures Mixed(coarse, records, outer)
    ensures forall r :: r in Group(fine, records, key) ==> r in Group(coarse, records, outer)
  {
    MixedIff(fine, records, key);
    var r, q :| Clash(fine, records, key, r, q);
    outer := coarse(r);
    MixedIff(coarse, records, outer);
    assert Clash(coarse, records, outer, r, q);
    GroupIs(fine, records, key);
    GroupIs(coarse, records, outer);
  }

  /** The records can be keyed, and list what they keep at this level in the same order. */
  ghost predicate Comparable(lex: Lexicon, codec: Codec, records: seq<Record>, level: Level) {
    && (forall r :: r in records ==> Good(lex, codec, r))
    && (forall r, q :: r in records && q in records ==> SameOrder(Kept(codec, r, level), Kept(codec, q, level)))
  }

  lemma {:induction false} InOrderWhenCoarser(codec: Codec, r: Record, q: Record, level: Level)
    requires SameOrder(Kept(codec, r, level), Kept(codec, q, level))
    ensures SameOrder(Kept(codec, r, Coarser(level)), Kept(codec, q, Coarser(level)))
  {
    if level != O0 {
      var ps, qs := Parts(codec, r, level), Parts(codec, q, level);
      CoarserParts(codec, r, level);
      CoarserParts(codec, q, level);
      EraseWithout(ps, |ps| - 2);
      EraseWithout(qs, |ps| - 2);
      OrderWithout(EraseItems(ps), EraseItems(qs), |ps| - 2);
    }
  }

  lemma OrderWithout(ps: seq<Value>, qs: seq<Value>, n: nat)
    requires |ps| == |qs| && n < |ps| && SameOrder(Arr(ps), Arr(qs))
    ensures SameOrder(Arr(Without(ps, n)), Arr(Without(qs, n)))
  {
    forall i | 0 <= i < |ps| - 1 ensures SameOrder(Without(ps, n)[i], Without(qs, n)[i]) {
      WithoutAt(ps, n, i);
      WithoutAt(qs, n, i);
    }
  }

  lemma ComparableWhenCoarser(lex: Lexicon, codec: Codec, records: seq<Record>, level: Level)
    requires Comparable(lex, codec, records, level)
    ensures Comparable(lex, codec, records, Coarser(level))
  {
    forall r, q | r in records && q in records
      ensures SameOrder(Kept(codec, r, Coarser(level)), Kept(codec, q, Coarser(level)))
    {
      InOrderWhenCoarser(codec, r, q, level);
    }
  }

  /** On records that list what they keep in the same order, every level refines the next coarser one. */
  lemma {:induction false} LevelsRefine(lex: Lexicon, codec: Codec, records: seq<Record>, level: Level)
    requires Standard(lex, codec) && Comparable(lex, codec, records, level)
    ensures Refines(KeyingAt(codec, level), KeyingAt(codec, Coarser(level)), records)
  {
    forall r, q |
      r in records && q in records && KeyingAt(codec, level)(r) == KeyingAt(codec, level)(q)
      ensures KeyingAt(codec, Coarser(level))(r) == KeyingAt(codec, Coarser(level))(q)
    {
      CoarserKeysAgree(lex, codec, r, q, level);
    }
  }

  /** Every mixed fiber lies inside a mixed fiber of the next coarser level. */
  lemma {:induction false} MixedInsideCoarser(
    lex: Lexicon, codec: Codec, records: seq<Record>, level: Level, key: Bytes) returns (outer: Bytes)
    requires Standard(lex, codec) && Comparable(lex, codec, records, level)
    requires Mixed(KeyingAt(codec, level), records, key)
    ensures Mixed(KeyingAt(codec, Coarser(level)), records, outer)
    ensures forall r :: r in Group(KeyingAt(codec, level), records, key) ==>
      r in Group(KeyingAt(codec, Coarser(level)), records, outer)
  {
    LevelsRefine(lex, codec, records, level);
    outer := MixedInside(KeyingAt(codec, level), KeyingAt(codec, Coarser(level)), records, key);
  }

  /** If the coarsest observation leaves no label open, no finer one does. */
  lemma {:induction false} CoarsestDecides(lex: Lexicon, codec: Codec, records: seq<Record>, level: Level)
    requires Standard(lex, codec) && Comparable(lex, codec, records, level)
    requires forall key :: !Mixed(KeyingAt(codec, O0), records, key)
    ensures forall key :: !Mixed(KeyingAt(codec, level), records, key)
    decreases match level case O0 => 0 case O1 => 1 case O2 => 2
  {
    if level != O0 {
      ComparableWhenCoarser(lex, codec, records, level);
      CoarsestDecides(lex, codec, records, Coarser(level));
      LevelsRefine(lex, codec, records, level);
      forall key ensures !Mixed(KeyingAt(codec, level), records, key) {
        if Mixed(KeyingAt(codec, level), records, key) {
          var outer := MixedInside(KeyingAt(codec, level), KeyingAt(codec, Coarser(level)), records, key);
        }
      }
    }
  }
}
