/** What equal observation keys say about two records, and how the levels are related. */
module ObservationTheorems {
  import opened Options
  import opened Json
  import opened Canonical
  import opened CanonicalJson
  import opened Observations
  import opened Renaming
  import opened NormalForms

  /** The escapes and the digest are those of the standard library, as far as it matters here. */
  ghost predicate Standard(lex: Lexicon, codec: Codec) {
    && ValidLexicon(lex)
    && KeepsPlain(lex, codec.quote)
    && (forall s :: IsPlain(codec.sha(s)))
  }

  ghost predicate GoodValue(lex: Lexicon, codec: Codec, v: Value) {
    NoRepeats(v) && Writable(lex, codec.quote, v)
  }

  /** The record holds only what Python's dictionaries and JSON encoder admit. */
  ghost predicate Good(lex: Lexicon, codec: Codec, r: Record) {
    && GoodValue(lex, codec, r.workspace)
    && GoodValue(lex, codec, Arr(r.providerEvents))
    && GoodValue(lex, codec, Arr(r.trustedEvents))
    && GoodValue(lex, codec, Obj(r.action))
  }

  // ----- What is normalised is good -----

  lemma GoodSplit(lex: Lexicon, codec: Codec, ms: seq<Member>)
    requires GoodValue(lex, codec, Obj(ms)) && ms != []
    ensures SafeText(lex, codec.quote, ms[0].key) && GoodValue(lex, codec, ms[0].value)
    ensures GoodValue(lex, codec, Obj(ms[1..])) && !HasKey(ms[1..], ms[0].key)
  {
    DistinctSplit(ms);
    assert WritableMembers(lex, codec.quote, ms);
  }

  lemma GoodJoin(lex: Lexicon, codec: Codec, m: Member, ms: seq<Member>)
    requires SafeText(lex, codec.quote, m.key) && GoodValue(lex, codec, m.value)
    requires GoodValue(lex, codec, Obj(ms)) && !HasKey(ms, m.key)
    ensures GoodValue(lex, codec, Obj([m] + ms))
  {
    DistinctJoin(m, ms);
    assert ([m] + ms)[1..] == ms;
    assert WritableMembers(lex, codec.quote, [m] + ms);
  }

  lemma {:induction false} AllowedGood(lex: Lexicon, codec: Codec, ms: seq<Member>)
    requires GoodValue(lex, codec, Obj(ms))
    ensures GoodValue(lex, codec, Obj(Allowed(ms)))
    ensures forall key :: HasKey(Allowed(ms), key) ==> HasKey(ms, key) && key in ALLOWED
    decreases ms
  {
    if ms != [] {
      GoodSplit(lex, codec, ms);
      KeysSplit(ms);
      var rest := Allowed(ms[1..]);
      AllowedGood(lex, codec, ms[1..]);
      if ms[0].key in ALLOWED {
        GoodJoin(lex, codec, ms[0], rest);
        KeysSplit([ms[0]] + rest);
        assert ([ms[0]] + rest)[1..] == rest;
      } else {
        assert [] + rest == rest;
      }
    }
  }

  lemma {:induction false} LookupGood(lex: Lexicon, codec: Codec, ms: seq<Member>, key: Bytes)
    requires GoodValue(lex, codec, Obj(ms)) && Lookup(ms, key).Some?
    ensures GoodValue(lex, codec, Lookup(ms, key).value)
    decreases ms
  {
    GoodSplit(lex, codec, ms);
    if ms[0].key != key {
      LookupGood(lex, codec, ms[1..], key);
    }
  }

  lemma {:induction false} AppendGood(lex: Lexicon, codec: Codec, ms: seq<Member>, m: Member)
    requires GoodValue(lex, codec, Obj(ms)) && GoodValue(lex, codec, m.value)
    requires SafeText(lex, codec.quote, m.key) && !HasKey(ms, m.key)
    ensures GoodValue(lex, codec, Obj(ms + [m]))
    decreases ms
  {
    if ms == [] {
      GoodJoin(lex, codec, m, ms);
      assert ms + [m] == [m] + ms;
    } else {
      GoodSplit(lex, codec, ms);
      KeysSplit(ms);
      AppendGood(lex, codec, ms[1..], m);
      assert ms + [m] == [ms[0]] + (ms[1..] + [m]);
      assert forall key :: HasKey(ms[1..] + [m], key) ==> HasKey(ms[1..], key) || key == m.key;
      GoodJoin(lex, codec, ms[0], ms[1..] + [m]);
    }
  }

  lemma RedactedGood(lex: Lexicon, codec: Codec, v: Value)
    requires Standard(lex, codec) && GoodValue(lex, codec, v)
    ensures GoodValue(lex, codec, Redacted(codec, v))
  {
    if v != NULL {
      var digest := Str(codec.sha(CanonicalText(codec.quote, v)));
      assert IsPlain("canonical_sha256");
      AppendGood(lex, codec, [], Member("canonical_sha256", digest));
      assert [] + [Member("canonical_sha256", digest)] == [Member("canonical_sha256", digest)];
    }
  }

  lemma ArgumentsGood(lex: Lexicon, codec: Codec, ms: seq<Member>, v: Value)
    requires Standard(lex, codec) && GoodValue(lex, codec, Obj(ms)) && GoodValue(lex, codec, v)
    requires !HasKey(ms, "arguments")
    ensures GoodValue(lex, codec, Obj(ms + [Member("arguments", Redacted(codec, v))]))
  {
    RedactedGood(lex, codec, v);
    assert IsPlain("arguments");
    AppendGood(lex, codec, ms, Member("arguments", Redacted(codec, v)));
  }

  lemma SelectedGood(lex: Lexicon, codec: Codec, action: seq<Member>)
    requires Standard(lex, codec) && GoodValue(lex, codec, Obj(action))
    ensures GoodValue(lex, codec, Selected(codec, action))
  {
    AllowedGood(lex, codec, action);
    var arguments := Lookup(action, "arguments");
    if arguments.Some? {
      LookupGood(lex, codec, action, "arguments");
      ArgumentsGood(lex, codec, Allowed(action), arguments.value);
    } else {
      assert Allowed(action) + [] == Allowed(action);
    }
  }

  /** Everything that one key is made from. */
  function Whole(codec: Codec, r: Record, level: Level): Value {
    Arr(Parts(codec, r, level))
  }

  lemma {:induction false} ItemsGood(lex: Lexicon, codec: Codec, items: seq<Value>)
    requires forall i :: 0 <= i < |items| ==> GoodValue(lex, codec, items[i])
    ensures GoodValue(lex, codec, Arr(items))
    decreases |items|
  {
    if items != [] {
      ItemsGood(lex, codec, items[1..]);
    }
  }

  lemma WholeGood(lex: Lexicon, codec: Codec, r: Record, level: Level)
    requires Standard(lex, codec) && Good(lex, codec, r)
    ensures GoodValue(lex, codec, Whole(codec, r, level))
  {
    SelectedGood(lex, codec, r.action);
    ItemsGood(lex, codec, Parts(codec, r, level));
  }

  // ----- What comes out of the normaliser is good -----

  ghost predicate SafeAliases(lex: Lexicon, codec: Codec, known: Aliases) {
    forall id :: Knows(known, id) ==> SafeText(lex, codec.quote, AliasOf(known, id))
  }

  lemma NamedPlain(key: Option<string>, number: nat)
    requires NamespaceOf(key).Some?
    ensures IsPlain(Named(NamespaceOf(key).value, number))
  {
    var names := {"thread", "turn", "call", "effect", "attempt", "claim", "grant", "branch"};
    assert forall k :: k in ID_NAMESPACES ==> ID_NAMESPACES[k] in names;
    assert forall name :: name in names ==> IsPlain(name);
  }

  lemma LearnedSafe(lex: Lexicon, codec: Codec, known: Aliases, key: Option<string>, text: string)
    requires Standard(lex, codec) && SafeAliases(lex, codec, known) && NamespaceOf(key).Some?
    ensures SafeAliases(lex, codec, Learned(known, Id(NamespaceOf(key).value, text)))
  {
    var id := Id(NamespaceOf(key).value, text);
    var later := Learned(known, id);
    NamedPlain(key, |AliasesIn(known, id.namespace)| + 1);
    forall other | Knows(later, other) ensures SafeText(lex, codec.quote, AliasOf(later, other)) {
      assert Knows(known, other) || other == id;
    }
  }

  lemma {:induction false} NormWritable(lex: Lexicon, codec: Codec, known: Aliases, v: Value, key: Option<string>)
    requires Standard(lex, codec) && SafeAliases(lex, codec, known)
    requires Writable(lex, codec.quote, v) && !IsTimestamp(key)
    ensures Writable(lex, codec.quote, Norm(known, v, key).value)
    ensures SafeAliases(lex, codec, Norm(known, v, key).aliases)
    decreases v, 1
  {
    match v
    case Atom(_) =>
    case Str(text) =>
      if NamespaceOf(key).Some? {
        LearnedSafe(lex, codec, known, key, text);
        var id := Id(NamespaceOf(key).value, text);
        assert Knows(Learned(known, id), id);
      }
    case Arr(items) => NormItemsWritable(lex, codec, known, items, key);
    case Obj(members) => NormMembersWritable(lex, codec, known, members);
  }

  lemma {:induction false} NormItemsWritable(
    lex: Lexicon, codec: Codec, known: Aliases, items: seq<Value>, key: Option<string>)
    requires Standard(lex, codec) && SafeAliases(lex, codec, known) && !IsTimestamp(key)
    requires WritableItems(lex, codec.quote, items)
    ensures
      var r := NormItems(known, items, key);
      WritableItems(lex, codec.quote, r.value) && SafeAliases(lex, codec, r.aliases)
    decreases items, 0
  {
    if items != [] {
      NormWritable(lex, codec, known, items[0], key);
      var first := Norm(known, items[0], key);
      NormItemsWritable(lex, codec, first.aliases, items[1..], key);
      var rest := NormItems(first.aliases, items[1..], key);
      assert ([first.value] + rest.value)[1..] == rest.value;
    }
  }

  lemma {:induction false} NormMembersWritable(lex: Lexicon, codec: Codec, known: Aliases, ms: seq<Member>)
    requires Standard(lex, codec) && SafeAliases(lex, codec, known)
    requires WritableMembers(lex, codec.quote, ms)
    ensures
      var r := NormMembers(known, ms);
      WritableMembers(lex, codec.quote, r.value) && SafeAliases(lex, codec, r.aliases)
    decreases ms, 0
  {
    if ms != [] {
      if ms[0].key in TIMESTAMP_KEYS {
        NormMembersWritable(lex, codec, known, ms[1..]);
      } else {
        NormWritable(lex, codec, known, ms[0].value, Some(ms[0].key));
        var first := Norm(known, ms[0].value, Some(ms[0].key));
        NormMembersWritable(lex, codec, first.aliases, ms[1..]);
        var rest := NormMembers(first.aliases, ms[1..]);
        assert ([Member(ms[0].key, first.value)] + rest.value)[1..] == rest.value;
      }
    }
  }

  lemma NormGood(lex: Lexicon, codec: Codec, v: Value)
    requires Standard(lex, codec) && GoodValue(lex, codec, v)
    ensures GoodValue(lex, codec, NormalForm(v))
  {
    NormWritable(lex, codec, map[], v, None);
    EraseKeeps(v);
    NormalFormIs(v);
    RenamingKeepsDistinct(AliasAfter(Ids(Erase(v), None)), Erase(v), None);
  }

  // ----- The text of the key determines the normal form -----

  lemma {:induction false} SameNamesSameTree(ms: seq<Member>, ns: seq<Member>)
    requires NoRepeats(Obj(ms)) && NoRepeats(Obj(ns)) && |ms| == |ns|
    requires forall i :: 0 <= i < |ms| ==> ms[i].key == ns[i].key
    ensures BranchOf(ms) == BranchOf(ns) <==> forall i :: 0 <= i < |ms| ==> TreeOf(ms[i].value) == TreeOf(ns[i].value)
  {
    if BranchOf(ms) == BranchOf(ns) {
      forall i | 0 <= i < |ms| ensures TreeOf(ms[i].value) == TreeOf(ns[i].value) {
        BranchAt(ms, i);
        BranchAt(ns, i);
      }
    }
    if forall i :: 0 <= i < |ms| ==> TreeOf(ms[i].value) == TreeOf(ns[i].value) {
      SameValuesSameBranch(ms, ns);
    }
  }

  lemma {:induction false} SameValuesSameBranch(ms: seq<Member>, ns: seq<Member>)
    requires |ms| == |ns|
    requires forall i :: 0 <= i < |ms| ==> ms[i].key == ns[i].key && TreeOf(ms[i].value) == TreeOf(ns[i].value)
    ensures BranchOf(ms) == BranchOf(ns)
  {
    if ms != [] {
      SameValuesSameBranch(ms[1..], ns[1..]);
    }
  }

  lemma PrefixGood(lex: Lexicon, codec: Codec, ps: seq<Value>)
    requires Standard(lex, codec) && 1 <= |ps| <= 3
    requires forall i :: 0 <= i < |ps| ==> GoodValue(lex, codec, ps[i])
    ensures GoodValue(lex, codec, Prefix(ps))
  {
    assert IsPlain("workspace") && IsPlain("provider_events") && IsPlain("trusted_events");
    assert |"workspace"| == 9 && |"provider_events"| == 15 && |"trusted_events"| == 14;
    var a := Member("workspace", ps[0]);
    AppendGood(lex, codec, [], a);
    assert [] + [a] == [a];
    assert [a] + [] + [] == [a];
    if |ps| > 1 {
      var b := Member("provider_events", ps[1]);
      AppendGood(lex, codec, [a], b);
      assert [a] + [b] + [] == [a] + [b];
      if |ps| > 2 {
        AppendGood(lex, codec, [a] + [b], Member("trusted_events", ps[2]));
      }
    }
  }

  lemma DocumentGood(lex: Lexicon, codec: Codec, ps: seq<Value>)
    requires Standard(lex, codec) && 2 <= |ps| <= 4
    requires forall i :: 0 <= i < |ps| ==> GoodValue(lex, codec, ps[i])
    ensures GoodValue(lex, codec, Document(ps)) && GoodValue(lex, codec, Prefix(ps[..|ps| - 1]))
  {
    var prefix := Prefix(ps[..|ps| - 1]);
    PrefixGood(lex, codec, ps[..|ps| - 1]);
    assert IsPlain("prefix") && IsPlain("action") && "prefix"[0] != "action"[0];
    var a, b := Member("prefix", prefix), Member("action", ps[|ps| - 1]);
    AppendGood(lex, codec, [], a);
    assert [] + [a] == [a];
    AppendGood(lex, codec, [a], b);
    assert [a] + [b] == [a, b];
  }

  lemma {:induction false} PrefixTree(ps: seq<Value>, qs: seq<Value>)
    requires 1 <= |ps| == |qs| <= 3 && NoRepeats(Prefix(ps)) && NoRepeats(Prefix(qs))
    ensures TreeOf(Prefix(ps)) == TreeOf(Prefix(qs)) <==> forall i :: 0 <= i < |ps| ==> TreeOf(ps[i]) == TreeOf(qs[i])
  {
    var ms, ns := Prefix(ps).members, Prefix(qs).members;
    assert |ms| == |ps| && |ns| == |qs|;
    assert forall i :: 0 <= i < |ps| ==> ms[i].value == ps[i] && ns[i].value == qs[i] && ms[i].key == ns[i].key;
    SameNamesSameTree(ms, ns);
  }

  lemma {:induction false} RowTree(ps: seq<Value>, qs: seq<Value>)
    requires |ps| == |qs|
    ensures TreeOf(Arr(ps)) == TreeOf(Arr(qs)) <==> forall i :: 0 <= i < |ps| ==> TreeOf(ps[i]) == TreeOf(qs[i])
  {
    forall i: nat | i < |ps| ensures TreesOf(ps)[i] == TreeOf(ps[i]) && TreesOf(qs)[i] == TreeOf(qs[i]) {
      TreesAt(ps, i);
      TreesAt(qs, i);
    }
    assert TreesOf(ps) == TreesOf(qs) <==> forall i :: 0 <= i < |ps| ==> TreesOf(ps)[i] == TreesOf(qs)[i];
  }

  lemma {:induction false} PairTree(a: Member, b: Member, c: Member, d: Member)
    requires a.key == c.key && b.key == d.key && NoRepeats(Obj([a, b])) && NoRepeats(Obj([c, d]))
    ensures
      TreeOf(Obj([a, b])) == TreeOf(Obj([c, d])) <==>
      TreeOf(a.value) == TreeOf(c.value) && TreeOf(b.value) == TreeOf(d.value)
  {
    var ms, ns := [a, b], [c, d];
    SameNamesSameTree(ms, ns);
    assert ms[0] == a && ms[1] == b && ns[0] == c && ns[1] == d;
  }

  lemma {:induction false} DocumentTree(ps: seq<Value>, qs: seq<Value>)
    requires 2 <= |ps| == |qs| <= 4 && NoRepeats(Document(ps)) && NoRepeats(Document(qs))
    requires NoRepeats(Prefix(ps[..|ps| - 1])) && NoRepeats(Prefix(qs[..|qs| - 1]))
    ensures TreeOf(Document(ps)) == TreeOf(Document(qs)) <==> TreeOf(Arr(ps)) == TreeOf(Arr(qs))
  {
    var n := |ps| - 1;
    PrefixTree(ps[..n], qs[..n]);
    PairTree(
      Member("prefix", Prefix(ps[..n])), Member("action", ps[n]),
      Member("prefix", Prefix(qs[..n])), Member("action", qs[n]));
    RowTree(ps, qs);
    assert forall i :: 0 <= i < n ==> ps[..n][i] == ps[i] && qs[..n][i] == qs[i];
  }

  lemma {:induction false} ItemGood(lex: Lexicon, codec: Codec, items: seq<Value>)
    requires GoodValue(lex, codec, Arr(items))
    ensures forall i :: 0 <= i < |items| ==> GoodValue(lex, codec, items[i])
    decreases |items|
  {
    if items != [] {
      assert WritableItems(lex, codec.quote, items);
      ItemGood(lex, codec, items[1..]);
      assert items == [items[0]] + items[1..];
    }
  }

  lemma {:induction false} KeyShowsForm(lex: Lexicon, codec: Codec, r: Record, q: Record, level: Level)
    requires Standard(lex, codec) && Good(lex, codec, r) && Good(lex, codec, q)
    ensures
      RecordKey(codec, r, level) == RecordKey(codec, q, level) <==>
      TreeOf(NormalForm(Whole(codec, r, level))) == TreeOf(NormalForm(Whole(codec, q, level)))
  {
    var ps := NormItems(map[], Parts(codec, r, level), None).value;
    var qs := NormItems(map[], Parts(codec, q, level), None).value;
    NormLength(map[], Parts(codec, r, level), None);
    NormLength(map[], Parts(codec, q, level), None);
    WholeGood(lex, codec, r, level);
    WholeGood(lex, codec, q, level);
    NormGood(lex, codec, Whole(codec, r, level));
    NormGood(lex, codec, Whole(codec, q, level));
    ItemGood(lex, codec, ps);
    ItemGood(lex, codec, qs);
    DocumentGood(lex, codec, ps);
    DocumentGood(lex, codec, qs);
    DocumentTree(ps, qs);
    SameTextIffSameTree(lex, codec.quote, Document(ps), Document(qs));
  }

  // ----- Soundness and completeness -----

  /** What is left of the record at this level after erasing timestamps, nulls and disallowed fields. */
  function Kept(codec: Codec, r: Record, level: Level): Value {
    Erase(Whole(codec, r, level))
  }

  /** Keys are equal exactly when a renaming carries one record to the other, in the order of meeting. */
  lemma {:induction false} EqualKeysIff(lex: Lexicon, codec: Codec, r: Record, q: Record, level: Level)
    requires Standard(lex, codec) && Good(lex, codec, r) && Good(lex, codec, q)
    ensures
      RecordKey(codec, r, level) == RecordKey(codec, q, level) <==>
      Carried(Kept(codec, r, level), Kept(codec, q, level))
  {
    KeyShowsForm(lex, codec, r, q, level);
    WholeGood(lex, codec, r, level);
    WholeGood(lex, codec, q, level);
    var v, w := Whole(codec, r, level), Whole(codec, q, level);
    SameFormIff(v, w);
  }

  /** Equal keys: one-to-one renamings of the identifiers carry one record to the other. */
  lemma {:induction false} KeysAreSound(lex: Lexicon, codec: Codec, r: Record, q: Record, level: Level)
    returns (rho: Renamer)
    requires Standard(lex, codec) && Good(lex, codec, r) && Good(lex, codec, q)
    requires RecordKey(codec, r, level) == RecordKey(codec, q, level)
    ensures
      var u, w := Kept(codec, r, level), Kept(codec, q, level);
      Bijective(rho, Ids(u, None), Ids(w, None)) && TreeOf(Apply(rho, u, None)) == TreeOf(w)
  {
    EqualKeysIff(lex, codec, r, q, level);
    rho :| Carries(rho, Kept(codec, r, level), Kept(codec, q, level));
    CarriesOneToOne(rho, Kept(codec, r, level), Kept(codec, q, level));
    TreeApplies(rho, Kept(codec, r, level), None);
  }

  function RenamedAction(rho: Renamer, ms: seq<Member>): seq<Member> {
    if ms == [] then []
    else
      [if ms[0].key == "arguments" then ms[0] else Member(ms[0].key, Apply(rho, ms[0].value, Some(ms[0].key)))]
      + RenamedAction(rho, ms[1..])
  }

  /** The record with its identifiers renamed everywhere but inside `arguments`. */
  function RenamedRecord(rho: Renamer, r: Record): Record {
    r.(
      workspace := Apply(rho, r.workspace, None),
      providerEvents := ApplyItems(rho, r.providerEvents, None),
      trustedEvents := ApplyItems(rho, r.trustedEvents, None),
      action := RenamedAction(rho, r.action))
  }

  lemma {:induction false} ApplyJoin(rho: Renamer, a: seq<Member>, b: seq<Member>)
    ensures ApplyMembers(rho, a + b) == ApplyMembers(rho, a) + ApplyMembers(rho, b)
    decreases |a|
  {
    if a == [] {
      assert a + b == b;
    } else {
      assert (a + b)[1..] == a[1..] + b;
      ApplyJoin(rho, a[1..], b);
    }
  }

  lemma {:induction false} ActionRenamed(rho: Renamer, ms: seq<Member>)
    ensures Allowed(RenamedAction(rho, ms)) == ApplyMembers(rho, Allowed(ms))
    ensures Lookup(RenamedAction(rho, ms), "arguments") == Lookup(ms, "arguments")
    decreases ms
  {
    if ms != [] {
      ActionRenamed(rho, ms[1..]);
      assert RenamedAction(rho, ms)[1..] == RenamedAction(rho, ms[1..]);
      assert "arguments" !in ALLOWED;
      if ms[0].key in ALLOWED {
        assert ([ms[0]] + Allowed(ms[1..]))[1..] == Allowed(ms[1..]);
      } else {
        assert [] + Allowed(ms[1..]) == Allowed(ms[1..]);
        assert [] + Allowed(RenamedAction(rho, ms[1..])) == Allowed(RenamedAction(rho, ms[1..]));
      }
    }
  }

  lemma ApplyOne(rho: Renamer, m: Member)
    ensures ApplyMembers(rho, [m]) == [Member(m.key, Apply(rho, m.value, Some(m.key)))]
  {
    MemberApplied(rho, [m], 0);
  }

  lemma RedactedKept(codec: Codec, rho: Renamer, v: Value, key: Option<string>)
    ensures Apply(rho, Redacted(codec, v), key) == Redacted(codec, v)
  {
    if v != NULL {
      assert NamespaceOf(Some("canonical_sha256")) == None;
      ApplyOne(rho, Redacted(codec, v).members[0]);
    }
  }

  lemma DigestKept(codec: Codec, rho: Renamer, action: seq<Member>)
    ensures ApplyMembers(rho, Arguments(codec, action)) == Arguments(codec, action)
  {
    var arguments := Lookup(action, "arguments");
    if arguments.Some? {
      RedactedKept(codec, rho, arguments.value, Some("arguments"));
      ApplyOne(rho, Arguments(codec, action)[0]);
    }
  }

  lemma {:induction false} SelectedRenamed(codec: Codec, rho: Renamer, action: seq<Member>)
    ensures Selected(codec, RenamedAction(rho, action)) == Apply(rho, Selected(codec, action), None)
  {
    ActionRenamed(rho, action);
    DigestKept(codec, rho, action);
    ApplyJoin(rho, Allowed(action), Arguments(codec, action));
  }

  lemma {:induction false} PartRenamed(codec: Codec, rho: Renamer, r: Record, level: Level, i: nat)
    requires i < |Parts(codec, r, level)|
    ensures Parts(codec, RenamedRecord(rho, r), level)[i] == Apply(rho, Parts(codec, r, level)[i], None)
  {
    var renamed := RenamedRecord(rho, r);
    var selected, selected' := Selected(codec, r.action), Selected(codec, renamed.action);
    SelectedRenamed(codec, rho, r.action);
    EventsRenamed(rho, r.providerEvents);
    EventsRenamed(rho, r.trustedEvents);
    SamePart(rho, r, renamed, selected, selected', level, i);
  }

  lemma EventsRenamed(rho: Renamer, events: seq<Value>)
    ensures Arr(ApplyItems(rho, events, None)) == Apply(rho, Arr(events), None)
  {
  }

  lemma SamePart(rho: Renamer, r: Record, r': Record, selected: Value, selected': Value, level: Level, i: nat)
    requires r'.workspace == Apply(rho, r.workspace, None) && selected' == Apply(rho, selected, None)
    requires Arr(r'.providerEvents) == Apply(rho, Arr(r.providerEvents), None)
    requires Arr(r'.trustedEvents) == Apply(rho, Arr(r.trustedEvents), None)
    requires i < |PartsOf(r, selected, level)|
    ensures |PartsOf(r', selected', level)| == |PartsOf(r, selected, level)|
    ensures PartsOf(r', selected', level)[i] == Apply(rho, PartsOf(r, selected, level)[i], None)
  {
  }

  lemma {:induction false} WholeRenamed(codec: Codec, rho: Renamer, r: Record, level: Level)
    ensures Whole(codec, RenamedRecord(rho, r), level) == Apply(rho, Whole(codec, r, level), None)
  {
    var parts, parts' := Parts(codec, r, level), Parts(codec, RenamedRecord(rho, r), level);
    SameItems(parts', ApplyItems(rho, parts, None)) by {
      forall i: nat | i < |parts| ensures parts'[i] == ApplyItems(rho, parts, None)[i] {
        PartRenamed(codec, rho, r, level, i);
        ItemApplied(rho, parts, None, i);
      }
    }
  }

  lemma SameItems(a: seq<Value>, b: seq<Value>)
    requires |a| == |b| && forall i :: 0 <= i < |a| ==> a[i] == b[i]
    ensures a == b
  {
  }

  /**
   Any renaming that is one to one within each namespace on the identifiers that are kept, applied
   everywhere but inside `arguments`, leaves the key unchanged.
   */
  lemma {:induction false} RenamingKeepsKey(lex: Lexicon, codec: Codec, rho: Renamer, r: Record, level: Level)
    requires Standard(lex, codec) && Good(lex, codec, r)
    requires InjectiveOn(rho, Ids(Kept(codec, r, level), None))
    ensures RecordKey(codec, RenamedRecord(rho, r), level) == RecordKey(codec, r, level)
  {
    WholeGood(lex, codec, r, level);
    WholeRenamed(codec, rho, r, level);
    RenamingKeepsForm(rho, Whole(codec, r, level));
  }

  // ----- Arguments enter a key through their digest -----

  /** The arguments that enter a key: those that are present and not null. */
  function Given(r: Record): Option<Value> {
    var arguments := Lookup(r.action, "arguments");
    if arguments == Some(NULL) then None else arguments
  }

  function DigestTree(codec: Codec, v: Value): Tree {
    Branch(map["canonical_sha256" := Word(codec.sha(CanonicalText(codec.quote, v)))])
  }

  lemma {:induction false} EraseJoin(a: seq<Member>, b: seq<Member>)
    ensures EraseMembers(a + b) == EraseMembers(a) + EraseMembers(b)
    decreases |a|
  {
    if a == [] {
      assert a + b == b;
    } else {
      assert (a + b)[1..] == a[1..] + b;
      EraseJoin(a[1..], b);
    }
  }

  lemma AddBeforeJoin(a: map<Bytes, Tree>, b: map<Bytes, Tree>, key: Bytes, t: Tree)
    requires key !in b
    ensures (a + b)[key := t] == a[key := t] + b
  {
  }

  lemma {:induction false} BranchJoin(a: seq<Member>, b: seq<Member>)
    requires forall key :: HasKey(b, key) ==> !HasKey(a, key)
    ensures BranchOf(a + b) == BranchOf(a) + BranchOf(b)
    decreases |a|
  {
    if a == [] {
      assert a + b == b;
    } else {
      KeysSplit(a);
      BranchJoin(a[1..], b);
      assert a + b == [a[0]] + (a[1..] + b);
      Cons(a[0], a[1..] + b);
      AddBeforeJoin(BranchOf(a[1..]), BranchOf(b), a[0].key, TreeOf(a[0].value));
    }
  }

  lemma ErasedArguments(codec: Codec, r: Record)
    ensures
      BranchOf(EraseMembers(Arguments(codec, r.action)))
      == if Given(r).None? then map[] else map["arguments" := DigestTree(codec, Given(r).value)]
  {
    var arguments := Lookup(r.action, "arguments");
    if arguments.Some? {
      var m := Member("arguments", Redacted(codec, arguments.value));
      assert "arguments" !in TIMESTAMP_KEYS && "canonical_sha256" !in TIMESTAMP_KEYS;
      assert [m][1..] == [] && EraseMembers([]) == [] && BranchOf([]) == map[];
      if arguments.value != NULL {
        var d := m.value.members;
        assert d[1..] == [];
        assert EraseMembers(d) == [d[0]] + [] == d;
        assert EraseMembers([m]) == [m] + [] == [m];
        assert BranchOf(d) == map["canonical_sha256" := TreeOf(d[0].value)];
      }
    }
  }

  lemma {:induction false} SelectedTree(lex: Lexicon, codec: Codec, r: Record)
    requires Standard(lex, codec) && Good(lex, codec, r)
    ensures
      var branch := BranchOf(Erase(Selected(codec, r.action)).members);
      && ("arguments" in branch <==> Given(r).Some?)
      && (Given(r).Some? ==> branch["arguments"] == DigestTree(codec, Given(r).value))
  {
    var a, b := EraseMembers(Allowed(r.action)), EraseMembers(Arguments(codec, r.action));
    AllowedGood(lex, codec, r.action);
    EraseMembersKeep(Allowed(r.action));
    ErasedArguments(codec, r);
    assert "arguments" !in ALLOWED;
    EraseJoin(Allowed(r.action), Arguments(codec, r.action));
    assert forall key :: HasKey(b, key) <==> key in BranchOf(b);
    BranchJoin(a, b);
  }

  lemma {:induction false} ErasedAt(items: seq<Value>, i: nat)
    requires i < |items|
    ensures EraseItems(items)[i] == Erase(items[i])
    decreases i
  {
    if i > 0 {
      ErasedAt(items[1..], i - 1);
    }
  }

  lemma {:induction false} LastCarried(rho: Renamer, ps: seq<Value>, qs: seq<Value>)
    requires |ps| == |qs| > 0 && ApplyTree(rho, TreeOf(Erase(Arr(ps))), None) == TreeOf(Erase(Arr(qs)))
    ensures
      var n := |ps| - 1;
      ApplyTree(rho, TreeOf(Erase(ps[n])), None) == TreeOf(Erase(qs[n]))
  {
    var n := |ps| - 1;
    ErasedAt(ps, n);
    ErasedAt(qs, n);
    TreesAt(EraseItems(ps), n);
    TreesAt(EraseItems(qs), n);
    assert ApplyTree(rho, TreeOf(Erase(Arr(ps))), None).items[n] == TreeOf(Erase(Arr(qs))).items[n];
  }

  /** Two different arguments with the same digest. */
  predicate DigestCollision(codec: Codec, x: Value, y: Value) {
    && CanonicalText(codec.quote, x) != CanonicalText(codec.quote, y)
    && codec.sha(CanonicalText(codec.quote, x)) == codec.sha(CanonicalText(codec.quote, y))
  }

  /** A tree carried to another has the same member names, and carries each member. */
  lemma MembersCarried(rho: Renamer, t: Tree, u: Tree, key: Bytes)
    requires t.Branch? && u.Branch? && ApplyTree(rho, t, None) == u
    ensures key in t.members <==> key in u.members
    ensures key in t.members ==> ApplyTree(rho, t.members[key], Some(key)) == u.members[key]
  {
    assert ApplyTree(rho, t, None).members.Keys == t.members.Keys;
  }

  lemma {:induction false} SameDigests(lex: Lexicon, codec: Codec, rho: Renamer, r: Record, q: Record)
    requires Standard(lex, codec) && Good(lex, codec, r) && Good(lex, codec, q)
    requires ApplyTree(rho, TreeOf(Erase(Selected(codec, r.action))), None) == TreeOf(Erase(Selected(codec, q.action)))
    ensures Given(r).Some? <==> Given(q).Some?
    ensures Given(r).Some? ==>
      codec.sha(CanonicalText(codec.quote, Given(r).value)) == codec.sha(CanonicalText(codec.quote, Given(q).value))
  {
    SelectedTree(lex, codec, r);
    SelectedTree(lex, codec, q);
    MembersCarried(
      rho, TreeOf(Erase(Selected(codec, r.action))), TreeOf(Erase(Selected(codec, q.action))), "arguments");
    if Given(r).Some? {
      DigestTreesEqual(codec, rho, Given(r).value, Given(q).value);
    }
  }

  /** Equal keys: the arguments are the same up to the order of members, unless their digests collide. */
  lemma {:induction false} KeysPinArguments(lex: Lexicon, codec: Codec, r: Record, q: Record, level: Level)
    requires Standard(lex, codec) && Good(lex, codec, r) && Good(lex, codec, q)
    requires RecordKey(codec, r, level) == RecordKey(codec, q, level)
    ensures Given(r).Some? <==> Given(q).Some?
    ensures Given(r).Some? ==>
      var x, y := Given(r).value, Given(q).value;
      TreeOf(x) == TreeOf(y) || DigestCollision(codec, x, y)
  {
    var rho := KeysAreSound(lex, codec, r, q, level);
    TreeApplies(rho, Kept(codec, r, level), None);
    LastCarried(rho, Parts(codec, r, level), Parts(codec, q, level));
    SameDigests(lex, codec, rho, r, q);
    if Given(r).Some? {
      LookupGood(lex, codec, r.action, "arguments");
      LookupGood(lex, codec, q.action, "arguments");
      SameTextIffSameTree(lex, codec.quote, Given(r).value, Given(q).value);
    }
  }

  lemma DigestTreesEqual(codec: Codec, rho: Renamer, x: Value, y: Value)
    requires ApplyTree(rho, DigestTree(codec, x), Some("arguments")) == DigestTree(codec, y)
    ensures codec.sha(CanonicalText(codec.quote, x)) == codec.sha(CanonicalText(codec.quote, y))
  {
    assert NamespaceOf(Some("canonical_sha256")) == None;
    assert ApplyTree(rho, DigestTree(codec, x), Some("arguments")).members["canonical_sha256"]
        == DigestTree(codec, y).members["canonical_sha256"];
  }

  // ----- Levels -----

  /** The next coarser level. */
  function Coarser(level: Level): Level {
    match level case O2 => O1 case O1 => O0 case O0 => O0
  }

  function Without<T>(s: seq<T>, i: nat): (r: seq<T>)
    requires i < |s|
    ensures |r| == |s| - 1
  {
    if i == 0 then s[1..] else [s[0]] + Without(s[1..], i - 1)
  }

  lemma {:induction false} WithoutAt<T>(s: seq<T>, n: nat, i: nat)
    requires n < |s| && i < |s| - 1
    ensures Without(s, n)[i] == s[if i < n then i else i + 1]
    decreases n
  {
    if n > 0 && i > 0 {
      WithoutAt(s[1..], n - 1, i - 1);
    }
  }

  lemma CoarserParts(codec: Codec, r: Record, level: Level)
    requires level != O0
    ensures
      var parts := Parts(codec, r, level);
      Parts(codec, r, Coarser(level)) == Without(parts, |parts| - 2)
  {
    var parts := Parts(codec, r, level);
    assert Without(parts[1..], |parts| - 3) ==
      if level == O1 then parts[1..][1..] else [parts[1]] + Without(parts[1..][1..], 0);
  }

  lemma {:induction false} EraseWithout(items: seq<Value>, i: nat)
    requires i < |items|
    ensures EraseItems(Without(items, i)) == Without(EraseItems(items), i)
    decreases i
  {
    assert EraseItems(items)[1..] == EraseItems(items[1..]);
    if i > 0 {
      EraseWithout(items[1..], i - 1);
      assert Without(items, i)[1..] == Without(items[1..], i - 1);
    }
  }

  lemma {:induction false} ApplyWithout(rho: Renamer, items: seq<Value>, i: nat)
    requires i < |items|
    ensures ApplyItems(rho, Without(items, i), None) == Without(ApplyItems(rho, items, None), i)
    decreases i
  {
    assert ApplyItems(rho, items, None)[1..] == ApplyItems(rho, items[1..], None);
    if i > 0 {
      ApplyWithout(rho, items[1..], i - 1);
      assert Without(items, i)[1..] == Without(items[1..], i - 1);
    }
  }

  lemma {:induction false} IdsWithout(items: seq<Value>, i: nat)
    requires i < |items|
    ensures forall id :: id in ItemIds(Without(items, i), None) ==> id in ItemIds(items, None)
    decreases |items|
  {
    if i > 0 {
      assert Without(items, i)[0] == items[0] && Without(items, i)[1..] == Without(items[1..], i - 1);
      IdsWithout(items[1..], i - 1);
    }
  }

  /**
   Records whose kept members are listed in the same order and whose keys agree at one level have
   keys that agree at the next coarser level, where the action is renamed from a different state.
   */
  lemma {:induction false} CoarserKeysAgree(lex: Lexicon, codec: Codec, r: Record, q: Record, level: Level)
    requires Standard(lex, codec) && Good(lex, codec, r) && Good(lex, codec, q)
    requires SameOrder(Kept(codec, r, level), Kept(codec, q, level))
    requires RecordKey(codec, r, level) == RecordKey(codec, q, level)
    ensures RecordKey(codec, r, Coarser(level)) == RecordKey(codec, q, Coarser(level))
  {
    if level != O0 {
      KeyShowsForm(lex, codec, r, q, level);
      WholeGood(lex, codec, r, level);
      WholeGood(lex, codec, q, level);
      var rho := SameFormInOrder(Whole(codec, r, level), Whole(codec, q, level));
      var n := |Parts(codec, r, level)| - 2;
      CoarserParts(codec, r, level);
      CoarserParts(codec, q, level);
      CoarserCarried(codec, rho, Parts(codec, r, level), Parts(codec, q, level), n);
      WholeGood(lex, codec, r, Coarser(level));
      WholeGood(lex, codec, q, Coarser(level));
      SameAfterRenaming(rho, Whole(codec, r, Coarser(level)), Whole(codec, q, Coarser(level)));
      KeyShowsForm(lex, codec, r, q, Coarser(level));
    }
  }

  /** Renamings that give the same tree agree on the identifiers in it. */
  lemma {:induction false} SameOnOccurring(f: Renamer, g: Renamer, t: Tree, key: Option<string>, id: Id)
    requires ApplyTree(f, t, key) == ApplyTree(g, t, key) && Occurs(id, t, key)
    ensures f(id) == g(id)
    decreases t
  {
    match t
    case Word(text) => assert id == Id(NamespaceOf(key).value, text);
    case Row(items) =>
      var i :| 0 <= i < |items| && Occurs(id, items[i], key);
      assert ApplyTree(f, t, key).items[i] == ApplyTree(g, t, key).items[i];
      SameOnOccurring(f, g, items[i], key, id);
    case Branch(members) =>
      var k :| k in members && Occurs(id, members[k], Some(k));
      assert ApplyTree(f, t, key).members[k] == ApplyTree(g, t, key).members[k];
      SameOnOccurring(f, g, members[k], Some(k), id);
  }

  lemma {:induction false} PartCarried(rho: Renamer, us: seq<Value>, ws: seq<Value>, i: nat)
    requires |us| == |ws| && i < |us| && ApplyTree(rho, TreeOf(Arr(us)), None) == TreeOf(Arr(ws))
    ensures ApplyTree(rho, TreeOf(us[i]), None) == TreeOf(ws[i])
  {
    TreesAt(us, i);
    TreesAt(ws, i);
    assert ApplyTree(rho, TreeOf(Arr(us)), None).items[i] == TreeOf(Arr(ws)).items[i];
  }

  lemma {:induction false} PartsCarried(rho: Renamer, us: seq<Value>, ws: seq<Value>)
    requires |us| == |ws| && forall i :: 0 <= i < |us| ==> ApplyTree(rho, TreeOf(us[i]), None) == TreeOf(ws[i])
    ensures ApplyTree(rho, TreeOf(Arr(us)), None) == TreeOf(Arr(ws))
  {
    forall i: nat | i < |us| ensures ApplyTree(rho, TreesOf(us)[i], None) == TreesOf(ws)[i] {
      TreesAt(us, i);
      TreesAt(ws, i);
    }
    assert ApplyTree(rho, TreeOf(Arr(us)), None).items == TreesOf(ws);
  }

  lemma {:induction false} WithoutCarried(rho: Renamer, us: seq<Value>, ws: seq<Value>, n: nat)
    requires |us| == |ws| && n < |us| && ApplyTree(rho, TreeOf(Arr(us)), None) == TreeOf(Arr(ws))
    ensures ApplyTree(rho, TreeOf(Arr(Without(us, n))), None) == TreeOf(Arr(Without(ws, n)))
  {
    var us', ws' := Without(us, n), Without(ws, n);
    forall i: nat | i < |us'| ensures ApplyTree(rho, TreeOf(us'[i]), None) == TreeOf(ws'[i]) {
      WithoutAt(us, n, i);
      WithoutAt(ws, n, i);
      PartCarried(rho, us, ws, if i < n then i else i + 1);
    }
    PartsCarried(rho, us', ws');
  }

  /** The first meetings of every namespace correspond under `rho`. */
  ghost predicate MeetsInOrder(rho: Renamer, u: Value, w: Value) {
    forall ns :: FirstSeen(Ids(w, None), ns) == Renamed(rho, ns, FirstSeen(Ids(u, None), ns))
  }

  lemma {:induction false} CarriedIffInOrder(rho: Renamer, u: Value, w: Value)
    requires NoRepeats(u) && ApplyTree(rho, TreeOf(u), None) == TreeOf(w)
    ensures Carried(u, w) <==> MeetsInOrder(rho, u, w)
  {
    if MeetsInOrder(rho, u, w) {
      assert Carries(rho, u, w);
    }
    if sigma: Renamer :| Carries(sigma, u, w) {
      forall ns ensures FirstSeen(Ids(w, None), ns) == Renamed(rho, ns, FirstSeen(Ids(u, None), ns)) {
        SameNames(rho, sigma, u, ns);
      }
    }
  }

  lemma {:induction false} SameNames(rho: Renamer, sigma: Renamer, u: Value, ns: string)
    requires NoRepeats(u) && ApplyTree(rho, TreeOf(u), None) == ApplyTree(sigma, TreeOf(u), None)
    ensures Renamed(rho, ns, FirstSeen(Ids(u, None), ns)) == Renamed(sigma, ns, FirstSeen(Ids(u, None), ns))
  {
    var seen := FirstSeen(Ids(u, None), ns);
    FirstSeenIs(Ids(u, None), ns);
    forall i | 0 <= i < |seen| ensures rho(Id(ns, seen[i])) == sigma(Id(ns, seen[i])) {
      IdsOccur(u, None, Id(ns, seen[i]));
      SameOnOccurring(rho, sigma, TreeOf(u), None, Id(ns, seen[i]));
    }
  }

  /**
   Exactly when a level refines the next coarser one: if `rho` carries one record to the other at one
   level, their keys agree at the coarser level if and only if the first meetings of every namespace,
   in what is left there, correspond under `rho`.
   */
  lemma {:induction false} CoarserKeysAgreeIff(
    lex: Lexicon, codec: Codec, r: Record, q: Record, level: Level, rho: Renamer)
    requires Standard(lex, codec) && Good(lex, codec, r) && Good(lex, codec, q)
    requires Carries(rho, Kept(codec, r, level), Kept(codec, q, level))
    ensures
      RecordKey(codec, r, Coarser(level)) == RecordKey(codec, q, Coarser(level)) <==>
      MeetsInOrder(rho, Kept(codec, r, Coarser(level)), Kept(codec, q, Coarser(level)))
  {
    var u, w := Kept(codec, r, Coarser(level)), Kept(codec, q, Coarser(level));
    CoarserCarriedTree(codec, r, q, level, rho);
    WholeGood(lex, codec, r, Coarser(level));
    EraseKeeps(Whole(codec, r, Coarser(level)));
    CarriedIffInOrder(rho, u, w);
    EqualKeysIff(lex, codec, r, q, Coarser(level));
  }

  lemma {:induction false} CoarserCarriedTree(codec: Codec, r: Record, q: Record, level: Level, rho: Renamer)
    requires ApplyTree(rho, TreeOf(Kept(codec, r, level)), None) == TreeOf(Kept(codec, q, level))
    ensures
      ApplyTree(rho, TreeOf(Kept(codec, r, Coarser(level))), None) == TreeOf(Kept(codec, q, Coarser(level)))
  {
    if level != O0 {
      var ps, qs := Parts(codec, r, level), Parts(codec, q, level);
      var n := |ps| - 2;
      CoarserParts(codec, r, level);
      CoarserParts(codec, q, level);
      EraseWithout(ps, n);
      EraseWithout(qs, n);
      WithoutCarried(rho, EraseItems(ps), EraseItems(qs), n);
    }
  }

  lemma {:induction false} CoarserCarried(codec: Codec, rho: Renamer, ps: seq<Value>, qs: seq<Value>, n: nat)
    requires |ps| == |qs| && n < |ps|
    requires InjectiveOn(rho, Ids(Erase(Arr(ps)), None)) && Apply(rho, Erase(Arr(ps)), None) == Erase(Arr(qs))
    ensures
      var u, w := Erase(Arr(Without(ps, n))), Erase(Arr(Without(qs, n)));
      InjectiveOn(rho, Ids(u, None)) && Apply(rho, u, None) == w
  {
    EraseWithout(ps, n);
    EraseWithout(qs, n);
    ApplyWithout(rho, EraseItems(ps), n);
    IdsWithout(EraseItems(ps), n);
  }

  lemma {:induction false} SameAfterRenaming(rho: Renamer, v: Value, w: Value)
    requires NoRepeats(v) && NoRepeats(w)
    requires InjectiveOn(rho, Ids(Erase(v), None)) && Apply(rho, Erase(v), None) == Erase(w)
    ensures NormalForm(v) == NormalForm(w)
  {
    EraseKeeps(v);
    EraseKeeps(w);
    RenamingKeepsForm(rho, Erase(v));
    NormalFormIs(v);
    NormalFormIs(w);
    NormalFormIs(Erase(v));
    NormalFormIs(Erase(w));
  }

  /** With members listed in the same order, equal keys are exactly one-to-one renamings. */
  lemma {:induction false} EqualKeysInOrderIff(lex: Lexicon, codec: Codec, r: Record, q: Record, level: Level)
    requires Standard(lex, codec) && Good(lex, codec, r) && Good(lex, codec, q)
    requires SameOrder(Kept(codec, r, level), Kept(codec, q, level))
    ensures
      RecordKey(codec, r, level) == RecordKey(codec, q, level) <==>
      exists rho: Renamer ::
        && InjectiveOn(rho, Ids(Kept(codec, r, level), None))
        && Apply(rho, Kept(codec, r, level), None) == Kept(codec, q, level)
  {
    var v, w := Whole(codec, r, level), Whole(codec, q, level);
    KeyShowsForm(lex, codec, r, q, level);
    WholeGood(lex, codec, r, level);
    WholeGood(lex, codec, q, level);
    if RecordKey(codec, r, level) == RecordKey(codec, q, level) {
      var rho := SameFormInOrder(v, w);
    }
    if rho: Renamer :| InjectiveOn(rho, Ids(Erase(v), None)) && Apply(rho, Erase(v), None) == Erase(w) {
      SameAfterRenaming(rho, v, w);
    }
  }
}
