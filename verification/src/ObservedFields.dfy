/** What each level observes, field by field: which parts of two records an equal key compares, and which not. */
module ObservedFields {
  import opened Options
  import opened Decimals
  import opened Json
  import opened CanonicalJson
  import opened Observations
  import opened Renaming
  import opened NormalForms
  import opened ObservationTheorems

  /** `rho` turns what is left of `v` after erasure into what is left of `w`, up to the order of members. */
  ghost predicate CarriesField(rho: Renamer, v: Value, w: Value) {
    TreeOf(Apply(rho, Erase(v), None)) == TreeOf(Erase(w))
  }

  /** The identifiers in what is left of a value, in the order of meeting. */
  function Met(v: Value): seq<Id> {
    Ids(Erase(v), None)
  }

  /** The identifiers that the normaliser meets in a record at one level, in the order of meeting. */
  function MetAt(codec: Codec, r: Record, level: Level): seq<Id> {
    var workspace, action := Met(r.workspace), Met(Selected(codec, r.action));
    match level
    case O0 => workspace + action
    case O1 => workspace + Met(Arr(r.providerEvents)) + action
    case O2 => workspace + Met(Arr(r.providerEvents)) + Met(Arr(r.trustedEvents)) + action
  }

  /**
   One renaming carries the workspace and the selected action of one record to those of the other, and so
   from O1 on the provider events and at O2 the trusted events; first meetings correspond under it.
   */
  ghost predicate CarriesRecord(codec: Codec, rho: Renamer, r: Record, q: Record, level: Level) {
    && CarriesField(rho, r.workspace, q.workspace)
    && (level == O1 || level == O2 ==> CarriesField(rho, Arr(r.providerEvents), Arr(q.providerEvents)))
    && (level == O2 ==> CarriesField(rho, Arr(r.trustedEvents), Arr(q.trustedEvents)))
    && CarriesField(rho, Selected(codec, r.action), Selected(codec, q.action))
    && forall ns :: FirstSeen(MetAt(codec, q, level), ns) == Renamed(rho, ns, FirstSeen(MetAt(codec, r, level), ns))
  }

  // ----- Equal keys, field by field -----

  lemma {:induction false} ItemIdsCons(v: Value, rest: seq<Value>)
    ensures ItemIds([v] + rest, None) == Ids(v, None) + ItemIds(rest, None)
  {
    assert ([v] + rest)[1..] == rest;
  }

  lemma {:induction false} ItemIdsTwo(a: Value, d: Value)
    ensures ItemIds([a, d], None) == Ids(a, None) + Ids(d, None)
  {
    ItemIdsCons(d, []);
    ItemIdsCons(a, [d]);
    assert [d] + [] == [d] && [a] + [d] == [a, d] && ItemIds([], None) == [];
    assert Ids(d, None) + [] == Ids(d, None);
  }

  lemma {:induction false} ItemIdsThree(a: Value, b: Value, d: Value)
    ensures ItemIds([a, b, d], None) == Ids(a, None) + Ids(b, None) + Ids(d, None)
  {
    ItemIdsTwo(b, d);
    ItemIdsCons(a, [b, d]);
    assert [a] + [b, d] == [a, b, d];
    assert Ids(a, None) + (Ids(b, None) + Ids(d, None)) == Ids(a, None) + Ids(b, None) + Ids(d, None);
  }

  lemma {:induction false} ItemIdsFour(a: Value, b: Value, c: Value, d: Value)
    ensures ItemIds([a, b, c, d], None) == Ids(a, None) + Ids(b, None) + Ids(c, None) + Ids(d, None)
  {
    ItemIdsThree(b, c, d);
    ItemIdsCons(a, [b, c, d]);
    assert [a] + [b, c, d] == [a, b, c, d];
    var x, y, z, w := Ids(a, None), Ids(b, None), Ids(c, None), Ids(d, None);
    assert x + (y + z + w) == x + y + z + w;
  }

  lemma {:induction false} KeptIds(codec: Codec, r: Record, level: Level)
    ensures Ids(Kept(codec, r, level), None) == MetAt(codec, r, level)
  {
    var parts := Parts(codec, r, level);
    var n := |parts| - 1;
    forall i: nat | i < |parts| ensures EraseItems(parts)[i] == Erase(parts[i]) {
      ErasedAt(parts, i);
    }
    var u, w := Erase(r.workspace), Erase(Selected(codec, r.action));
    var p, t := Erase(Arr(r.providerEvents)), Erase(Arr(r.trustedEvents));
    match level
    case O0 =>
      assert EraseItems(parts) == [u, w];
      ItemIdsTwo(u, w);
    case O1 =>
      assert EraseItems(parts) == [u, p, w];
      ItemIdsThree(u, p, w);
    case O2 =>
      assert EraseItems(parts) == [u, p, t, w];
      ItemIdsFour(u, p, t, w);
  }

  lemma {:induction false} RowCarriedIff(rho: Renamer, ps: seq<Value>, qs: seq<Value>)
    requires |ps| == |qs|
    ensures
      ApplyTree(rho, TreeOf(Erase(Arr(ps))), None) == TreeOf(Erase(Arr(qs))) <==>
      forall i :: 0 <= i < |ps| ==> CarriesField(rho, ps[i], qs[i])
  {
    var us, ws := EraseItems(ps), EraseItems(qs);
    forall i: nat | i < |ps|
      ensures CarriesField(rho, ps[i], qs[i]) <==> ApplyTree(rho, TreeOf(us[i]), None) == TreeOf(ws[i])
    {
      ErasedAt(ps, i);
      ErasedAt(qs, i);
      TreeApplies(rho, us[i], None);
    }
    if ApplyTree(rho, TreeOf(Arr(us)), None) == TreeOf(Arr(ws)) {
      forall i: nat | i < |ps| ensures CarriesField(rho, ps[i], qs[i]) {
        PartCarried(rho, us, ws, i);
      }
    }
    if forall i :: 0 <= i < |ps| ==> CarriesField(rho, ps[i], qs[i]) {
      PartsCarried(rho, us, ws);
    }
  }

  lemma {:induction false} CarriesIff(codec: Codec, rho: Renamer, r: Record, q: Record, level: Level)
    ensures Carries(rho, Kept(codec, r, level), Kept(codec, q, level)) <==> CarriesRecord(codec, rho, r, q, level)
  {
    var ps, qs := Parts(codec, r, level), Parts(codec, q, level);
    KeptIds(codec, r, level);
    KeptIds(codec, q, level);
    RowCarriedIff(rho, ps, qs);
    assert ps[0] == r.workspace && qs[0] == q.workspace;
    assert ps[|ps| - 1] == Selected(codec, r.action) && qs[|ps| - 1] == Selected(codec, q.action);
    if level != O0 {
      assert ps[1] == Arr(r.providerEvents) && qs[1] == Arr(q.providerEvents);
    }
    if level == O2 {
      assert ps[2] == Arr(r.trustedEvents) && qs[2] == Arr(q.trustedEvents);
    }
  }

  /**
   Which fields a level observes: keys are equal if and only if one renaming carries the observed fields of
   one record to those of the other and meets the identifiers of every namespace in the same order.
   */
  lemma {:induction false} EqualKeysByField(lex: Lexicon, codec: Codec, r: Record, q: Record, level: Level)
    requires Standard(lex, codec) && Good(lex, codec, r) && Good(lex, codec, q)
    ensures
      RecordKey(codec, r, level) == RecordKey(codec, q, level) <==>
      exists rho: Renamer :: CarriesRecord(codec, rho, r, q, level)
  {
    EqualKeysIff(lex, codec, r, q, level);
    if Carried(Kept(codec, r, level), Kept(codec, q, level)) {
      var rho: Renamer :| Carries(rho, Kept(codec, r, level), Kept(codec, q, level));
      CarriesIff(codec, rho, r, q, level);
    }
    if rho: Renamer :| CarriesRecord(codec, rho, r, q, level) {
      CarriesIff(codec, rho, r, q, level);
    }
  }

  /**
   Which fields a level ignores, whatever the records hold: the case and the decision always, the trusted
   events below O2, and the provider events at O0.
   */
  lemma {:induction false} KeysIgnore(codec: Codec, r: Record, q: Record)
    requires r.workspace == q.workspace && r.action == q.action
    ensures RecordKey(codec, r, O0) == RecordKey(codec, q, O0)
    ensures r.providerEvents == q.providerEvents ==> RecordKey(codec, r, O1) == RecordKey(codec, q, O1)
    ensures r.providerEvents == q.providerEvents && r.trustedEvents == q.trustedEvents ==>
      RecordKey(codec, r, O2) == RecordKey(codec, q, O2)
  {
    assert Parts(codec, r, O0) == Parts(codec, q, O0);
    if r.providerEvents == q.providerEvents {
      assert Parts(codec, r, O1) == Parts(codec, q, O1);
      if r.trustedEvents == q.trustedEvents {
        assert Parts(codec, r, O2) == Parts(codec, q, O2);
      }
    }
  }

  // ----- The selected action -----

  lemma {:induction false} LookupJoin(a: seq<Member>, b: seq<Member>, key: Bytes)
    ensures Lookup(a + b, key) == if Lookup(a, key).Some? then Lookup(a, key) else Lookup(b, key)
    decreases |a|
  {
    if a == [] {
      assert a + b == b;
    } else {
      assert (a + b)[1..] == a[1..] + b;
      LookupJoin(a[1..], b, key);
    }
  }

  lemma {:induction false} AllowedLookup(ms: seq<Member>, key: Bytes)
    ensures Lookup(Allowed(ms), key) == if key in ALLOWED then Lookup(ms, key) else None
    decreases ms
  {
    if ms != [] {
      AllowedLookup(ms[1..], key);
      var first := if ms[0].key in ALLOWED then [ms[0]] else [];
      LookupJoin(first, Allowed(ms[1..]), key);
    }
  }

  /** The names that an action may keep as they are. */
  predicate IsKept(key: Bytes) {
    || key == "kind" || key == "operation" || key == "request" || key == "demand" || key == "binding"
    || key == "effect_id" || key == "claim_id" || key == "grant_id" || key == "branch_id"
    || key == "source" || key == "target" || key == "source_role" || key == "same_operation"
  }

  /**
   The selected action has the members that are allowed, as they are, and in place of arguments that are
   not null the digest of their canonical text; it has no other member.
   */
  lemma {:induction false} SelectedMembers(codec: Codec, action: seq<Member>, key: Bytes)
    ensures
      var found, arguments := Lookup(Selected(codec, action).members, key), Lookup(action, "arguments");
      && (IsKept(key) ==> found == Lookup(action, key))
      && (key == "arguments" && arguments.None? ==> found.None?)
      && (key == "arguments" && arguments == Some(NULL) ==> found == Some(NULL))
      && (key == "arguments" && arguments.Some? && arguments.value != NULL ==>
            var digest := codec.sha(CanonicalText(codec.quote, arguments.value));
            found == Some(Obj([Member("canonical_sha256", Str(digest))])))
      && (!IsKept(key) && key != "arguments" ==> found.None?)
  {
    AllowedLookup(action, key);
    LookupJoin(Allowed(action), Arguments(codec, action), key);
    assert key in ALLOWED <==> IsKept(key);
    assert "arguments" !in ALLOWED;
  }

  /** Members of the action with any other name are not observed at any level. */
  lemma {:induction false} OthersIgnored(codec: Codec, a: seq<Member>, m: Member, b: seq<Member>)
    requires !IsKept(m.key) && m.key != "arguments"
    ensures Selected(codec, a + [m] + b) == Selected(codec, a + b)
  {
    assert m.key !in ALLOWED;
    AllowedJoin(a + [m], b);
    AllowedJoin(a, [m]);
    AllowedJoin(a, b);
    assert [m][1..] == [] && Allowed([m]) == [] && Allowed(a) + [] == Allowed(a);
    LookupJoin(a + [m], b, "arguments");
    LookupJoin(a, [m], "arguments");
    LookupJoin(a, b, "arguments");
  }

  lemma {:induction false} AllowedJoin(a: seq<Member>, b: seq<Member>)
    ensures Allowed(a + b) == Allowed(a) + Allowed(b)
    decreases |a|
  {
    if a == [] {
      assert a + b == b;
    } else {
      assert (a + b)[1..] == a[1..] + b;
      AllowedJoin(a[1..], b);
      var first := if a[0].key in ALLOWED then [a[0]] else [];
      assert first + (Allowed(a[1..]) + Allowed(b)) == first + Allowed(a[1..]) + Allowed(b);
    }
  }

  // ----- What erasure leaves -----

  /** The names of timestamps. */
  predicate IsTime(key: Bytes) {
    || key == "timestamp" || key == "time" || key == "created_at" || key == "updated_at"
    || key == "started_at" || key == "completed_at" || key == "collected_at"
  }

  /** Below any object, timestamps and nulls are gone, and every other member is there, erased in turn. */
  lemma {:induction false} ErasedMembers(ms: seq<Member>, key: Bytes)
    requires NoRepeats(Obj(ms))
    ensures
      var found, left := Lookup(ms, key), Lookup(EraseMembers(ms), key);
      left == if IsTime(key) || found.None? || found == Some(NULL) then None else Some(Erase(found.value))
    decreases ms
  {
    assert key in TIMESTAMP_KEYS <==> IsTime(key);
    if ms != [] {
      DistinctSplit(ms);
      ErasedMembers(ms[1..], key);
      if ms[0].key == key {
        MissingLookup(ms[1..], key);
      }
    }
  }

  lemma {:induction false} MissingLookup(ms: seq<Member>, key: Bytes)
    requires !HasKey(ms, key)
    ensures Lookup(ms, key).None?
    decreases ms
  {
    if ms != [] {
      KeysSplit(ms);
      MissingLookup(ms[1..], key);
    }
  }

  // ----- Which texts are identifiers, and of what -----

  /** The namespace of the identifiers that stand under this name. */
  function NamespaceUnder(key: Bytes): Option<string> {
    if key == "threadId" || key == "thread_id" || key == "history_id" || key == "parent_history_id" then Some("thread")
    else if key == "turnId" || key == "turn_id" then Some("turn")
    else if key == "callId" || key == "call_id" then Some("call")
    else if key == "effect_id" then Some("effect")
    else if key == "attempt_id" then Some("attempt")
    else if key == "claim_id" || key == "source_claim_id" then Some("claim")
    else if key == "grant_id" then Some("grant")
    else if key == "branch_id" || key == "source" || key == "target" || key == "owner_branch" then Some("branch")
    else None
  }

  lemma NamespaceIs(key: Bytes)
    ensures NamespaceOf(Some(key)) == NamespaceUnder(key)
  {
  }

  lemma TimeIs(key: Bytes)
    ensures key in TIMESTAMP_KEYS <==> IsTime(key)
  {
  }

  /** The first text becomes the first alias of its namespace, or stays if it is no identifier. */
  function FirstAlias(ns: Option<string>, text: string): string {
    if ns.Some? then ns.value + "-1" else text
  }

  /** A later text becomes the second alias if it is another identifier of the same namespace. */
  function SecondAlias(ns: Option<string>, text: string, ns': Option<string>, text': string): string {
    if ns'.Some? && ns == ns' && text != text' then ns'.value + "-2" else FirstAlias(ns', text')
  }

  lemma AliasesNumbered(ns: string)
    ensures Named(ns, 1) == ns + "-1" && Named(ns, 2) == ns + "-2"
  {
    assert Decimal(1) == "1" && Decimal(2) == "2";
  }

  /** What becomes of a text, and what is known after it. */
  function TextRenamed(known: Aliases, ns: Option<string>, text: string): Normal<Value> {
    if ns.None? then Normal(Str(text), known)
    else
      var id := Id(ns.value, text);
      Normal(Str(AliasOf(Learned(known, id), id)), Learned(known, id))
  }

  lemma TextNormalised(known: Aliases, key: Bytes, text: string, ns: Option<string>)
    requires !IsTimestamp(Some(key)) && NamespaceOf(Some(key)) == ns
    ensures Norm(known, Str(text), Some(key)) == TextRenamed(known, ns, text)
  {
  }

  lemma {:induction false} TwoMembers(known: Aliases, a: Member, b: Member, first: Normal<Value>, second: Normal<Value>)
    requires a.key !in TIMESTAMP_KEYS && b.key !in TIMESTAMP_KEYS
    requires Norm(known, a.value, Some(a.key)) == first && Norm(first.aliases, b.value, Some(b.key)) == second
    requires first.value != NULL && second.value != NULL
    ensures
      Norm(known, Obj([a, b]), None).value == Obj([Member(a.key, first.value), Member(b.key, second.value)])
  {
    var ms := [a, b];
    assert ms[1..] == [b] && [b][1..] == [];
    assert NormMembers(second.aliases, []) == Normal([], second.aliases);
    assert [Member(b.key, second.value)] + [] == [Member(b.key, second.value)];
    assert NormMembers(first.aliases, [b]).value == [Member(b.key, second.value)];
    assert [Member(a.key, first.value)] + [Member(b.key, second.value)]
        == [Member(a.key, first.value), Member(b.key, second.value)];
  }

  lemma TwoRenamed(ns: Option<string>, text: string, ns': Option<string>, text': string)
    ensures TextRenamed(map[], ns, text).value == Str(FirstAlias(ns, text))
    ensures
      TextRenamed(TextRenamed(map[], ns, text).aliases, ns', text').value == Str(SecondAlias(ns, text, ns', text'))
  {
    if ns.Some? {
      AliasesNumbered(ns.value);
    }
    if ns'.Some? {
      AliasesNumbered(ns'.value);
    }
  }

  /**
   How identifiers are named: in an object of two texts, each is replaced by its namespace and a number, one
   for the first identifier of a namespace and two for another one; a text under any other name stays.
   */
  lemma {:induction false} TwoIdentifiers(key: Bytes, text: string, key': Bytes, text': string)
    requires !IsTime(key) && !IsTime(key')
    ensures
      var ns, ns' := NamespaceUnder(key), NamespaceUnder(key');
      Norm(map[], Obj([Member(key, Str(text)), Member(key', Str(text'))]), None).value
      == Obj([Member(key, Str(FirstAlias(ns, text))), Member(key', Str(SecondAlias(ns, text, ns', text')))])
  {
    var ns, ns' := NamespaceUnder(key), NamespaceUnder(key');
    TimeIs(key);
    TimeIs(key');
    NamespaceIs(key);
    NamespaceIs(key');
    var first := TextRenamed(map[], ns, text);
    var second := TextRenamed(first.aliases, ns', text');
    TextNormalised(map[], key, text, ns);
    TextNormalised(first.aliases, key', text', ns');
    TwoRenamed(ns, text, ns', text');
    TwoMembers(map[], Member(key, Str(text)), Member(key', Str(text')), first, second);
  }
}
