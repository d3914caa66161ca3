/**
 Observation keys: identifiers are renamed by namespace in the order they are first met, so that runs
 which differ only in their identifiers get the same key.
 */
module Observations {
  import opened Options
  import opened Decimals
  import opened Json
  import opened Canonical
  import opened CanonicalJson

  const TIMESTAMP_KEYS: set<string> :=
    {"timestamp", "time", "created_at", "updated_at", "started_at", "completed_at", "collected_at"}

  const ID_NAMESPACES: map<string, string> := map[
    "threadId" := "thread", "thread_id" := "thread", "history_id" := "thread", "parent_history_id" := "thread",
    "turnId" := "turn", "turn_id" := "turn",
    "callId" := "call", "call_id" := "call",
    "effect_id" := "effect", "attempt_id" := "attempt",
    "claim_id" := "claim", "source_claim_id" := "claim",
    "grant_id" := "grant",
    "branch_id" := "branch", "source" := "branch", "target" := "branch", "owner_branch" := "branch"
  ]

  const ALLOWED: set<string> :=
    { "kind", "operation", "effect_id", "claim_id", "grant_id", "branch_id", "source", "target", "source_role",
      "demand", "binding", "same_operation", "request" }

  /** Python's None. */
  const NULL: Value := Atom("null")

  // ----- Aliases -----

  datatype Id = Id(namespace: string, text: string)

  type Aliases = map<string, map<string, string>>

  function AliasesIn(known: Aliases, namespace: string): map<string, string> {
    if namespace in known then known[namespace] else map[]
  }

  function Named(namespace: string, number: nat): string {
    namespace + "-" + Decimal(number)
  }

  function Learned(known: Aliases, id: Id): Aliases {
    var aliases := AliasesIn(known, id.namespace);
    known[id.namespace :=
      if id.text in aliases then aliases else aliases[id.text := Named(id.namespace, |aliases| + 1)]]
  }

  function AliasOf(known: Aliases, id: Id): string {
    var aliases := AliasesIn(known, id.namespace);
    if id.text in aliases then aliases[id.text] else id.text
  }

  // ----- Normalising one value -----

  /** A normalised value, and the aliases known after it. */
  datatype Normal<T> = Normal(value: T, aliases: Aliases)

  predicate IsTimestamp(key: Option<string>) {
    key.Some? && key.value in TIMESTAMP_KEYS
  }

  function NamespaceOf(key: Option<string>): Option<string> {
    if key.Some? && key.value in ID_NAMESPACES then Some(ID_NAMESPACES[key.value]) else None
  }

  function Norm(known: Aliases, v: Value, key: Option<string>): Normal<Value>
    decreases v, 1
  {
    if IsTimestamp(key) then Normal(NULL, known)
    else
      match v
      case Obj(members) =>
        var r := NormMembers(known, members);
        Normal(Obj(r.value), r.aliases)
      case Arr(items) =>
        var r := NormItems(known, items, key);
        Normal(Arr(r.value), r.aliases)
      case Str(text) =>
        if NamespaceOf(key).None? then Normal(v, known)
        else
          var id := Id(NamespaceOf(key).value, text);
          Normal(Str(AliasOf(Learned(known, id), id)), Learned(known, id))
      case Atom(_) => Normal(v, known)
  }

  function NormItems(known: Aliases, items: seq<Value>, key: Option<string>): Normal<seq<Value>>
    decreases items, 0
  {
    if items == [] then Normal([], known)
    else
      var first := Norm(known, items[0], key);
      var rest := NormItems(first.aliases, items[1..], key);
      Normal([first.value] + rest.value, rest.aliases)
  }

  function NormMembers(known: Aliases, ms: seq<Member>): Normal<seq<Member>>
    decreases ms, 0
  {
    if ms == [] then Normal([], known)
    else if ms[0].key in TIMESTAMP_KEYS then NormMembers(known, ms[1..])
    else
      var first := Norm(known, ms[0].value, Some(ms[0].key));
      var rest := NormMembers(first.aliases, ms[1..]);
      if first.value == NULL then rest else Normal([Member(ms[0].key, first.value)] + rest.value, rest.aliases)
  }

  function Prefixed<T>(done: seq<T>, rest: Normal<seq<T>>): Normal<seq<T>> {
    Normal(done + rest.value, rest.aliases)
  }

  lemma PrefixedEmpty<T>(rest: Normal<seq<T>>)
    ensures Prefixed([], rest) == rest
  {
    assert [] + rest.value == rest.value;
  }

  lemma PrefixedStep<T>(done: seq<T>, t: T, rest: Normal<seq<T>>)
    ensures Prefixed(done, Normal([t] + rest.value, rest.aliases)) == Prefixed(done + [t], rest)
  {
    assert done + ([t] + rest.value) == done + [t] + rest.value;
  }

  class AlphaNormalizer {
    var aliases: Aliases

    constructor ()
      ensures aliases == map[]
    {
      aliases := map[];
    }

    method Rename(namespace: string, value: string) returns (alias: string)
      modifies this
      ensures aliases == Learned(old(aliases), Id(namespace, value))
      ensures alias == AliasOf(aliases, Id(namespace, value))
    {
      var mine := if namespace in aliases then aliases[namespace] else map[];
      if value !in mine {
        mine := mine[value := Named(namespace, |mine| + 1)];
      }
      aliases := aliases[namespace := mine];
      alias := mine[value];
    }

    method Normalize(value: Value, key: Option<string>) returns (result: Value)
      modifies this
      ensures Normal(result, aliases) == Norm(old(aliases), value, key)
      decreases value, 1
    {
      if IsTimestamp(key) {
        return NULL;
      }
      match value
      case Obj(members) =>
        var kept := NormalizeMembers(members);
        result := Obj(kept);
      case Arr(items) =>
        var done := NormalizeItems(items, key);
        result := Arr(done);
      case Str(text) =>
        if NamespaceOf(key).Some? {
          var alias := Rename(NamespaceOf(key).value, text);
          result := Str(alias);
        } else {
          result := value;
        }
      case Atom(_) =>
        result := value;
    }

    /** The loop over a dictionary. */
    method NormalizeMembers(members: seq<Member>) returns (kept: seq<Member>)
      modifies this
      ensures Normal(kept, aliases) == NormMembers(old(aliases), members)
      decreases members, 0
    {
      kept := [];
      PrefixedEmpty(NormMembers(aliases, members));
      assert members[0..] == members;
      for i := 0 to |members|
        invariant Prefixed(kept, NormMembers(aliases, members[i..])) == NormMembers(old(aliases), members)
      {
        var name, child := members[i].key, members[i].value;
        assert members[i..][1..] == members[i + 1..];
        if name !in TIMESTAMP_KEYS {
          var normalized := Normalize(child, Some(name));
          if normalized != NULL {
            PrefixedStep(kept, Member(name, normalized), NormMembers(aliases, members[i + 1..]));
            kept := kept + [Member(name, normalized)];
          }
        }
      }
      assert members[|members|..] == [];
      assert kept + [] == kept;
    }

    /** The comprehension over a list. */
    method NormalizeItems(items: seq<Value>, key: Option<string>) returns (done: seq<Value>)
      modifies this
      ensures Normal(done, aliases) == NormItems(old(aliases), items, key)
      decreases items, 0
    {
      done := [];
      PrefixedEmpty(NormItems(aliases, items, key));
      assert items[0..] == items;
      for i := 0 to |items|
        invariant Prefixed(done, NormItems(aliases, items[i..], key)) == NormItems(old(aliases), items, key)
      {
        assert items[i..][1..] == items[i + 1..];
        var normalized := Normalize(items[i], key);
        PrefixedStep(done, normalized, NormItems(aliases, items[i + 1..], key));
        done := done + [normalized];
      }
      assert items[|items|..] == [];
      assert done + [] == done;
    }
  }

  // ----- Records -----

  datatype Record = Record(
    caseId: string, workspace: Value, providerEvents: seq<Value>, trustedEvents: seq<Value>,
    action: seq<Member>, decision: string)

  datatype Level = O0 | O1 | O2

  function LevelNamed(level: string): Option<Level> {
    if level == "O0" then Some(O0) else if level == "O1" then Some(O1) else if level == "O2" then Some(O2) else None
  }

  /** The encoder's escapes and the hexadecimal SHA-256 digest. */
  datatype Codec = Codec(quote: Quote, sha: Bytes -> Bytes)

  /** `_redact_arguments`. */
  function Redacted(codec: Codec, v: Value): Value {
    if v == NULL then NULL else Obj([Member("canonical_sha256", Str(codec.sha(CanonicalText(codec.quote, v))))])
  }

  function Allowed(ms: seq<Member>): seq<Member> {
    if ms == [] then [] else (if ms[0].key in ALLOWED then [ms[0]] else []) + Allowed(ms[1..])
  }

  function Arguments(codec: Codec, action: seq<Member>): seq<Member> {
    var arguments := Lookup(action, "arguments");
    if arguments.Some? then [Member("arguments", Redacted(codec, arguments.value))] else []
  }

  /** What `normalize_action` hands to the normaliser. */
  function Selected(codec: Codec, action: seq<Member>): Value {
    Obj(Allowed(action) + Arguments(codec, action))
  }

  /** The values that are normalised one after the other, given the selected action. */
  function PartsOf(r: Record, selected: Value, level: Level): (parts: seq<Value>)
    ensures |parts| == match level case O0 => 2 case O1 => 3 case O2 => 4
  {
    match level
    case O0 => [r.workspace, selected]
    case O1 => [r.workspace, Arr(r.providerEvents), selected]
    case O2 => [r.workspace, Arr(r.providerEvents), Arr(r.trustedEvents), selected]
  }

  function Parts(codec: Codec, r: Record, level: Level): (parts: seq<Value>)
    ensures |parts| == match level case O0 => 2 case O1 => 3 case O2 => 4
  {
    PartsOf(r, Selected(codec, r.action), level)
  }

  function Prefix(parts: seq<Value>): Value
    requires 1 <= |parts| <= 3
  {
    Obj([Member("workspace", parts[0])]
      + (if |parts| > 1 then [Member("provider_events", parts[1])] else [])
      + (if |parts| > 2 then [Member("trusted_events", parts[2])] else []))
  }

  /** The document whose canonical text is the key. */
  function Document(parts: seq<Value>): Value
    requires 2 <= |parts| <= 4
  {
    Obj([Member("prefix", Prefix(parts[..|parts| - 1])), Member("action", parts[|parts| - 1])])
  }

  lemma {:induction false} NormLength(known: Aliases, items: seq<Value>, key: Option<string>)
    ensures |NormItems(known, items, key).value| == |items|
    decreases |items|
  {
    if items != [] {
      NormLength(Norm(known, items[0], key).aliases, items[1..], key);
    }
  }

  function RecordKey(codec: Codec, r: Record, level: Level): Bytes {
    var parts := Parts(codec, r, level);
    NormLength(map[], parts, None);
    CanonicalText(codec.quote, Document(NormItems(map[], parts, None).value))
  }

  lemma NormNothing(known: Aliases, key: Option<string>)
    ensures NormItems(known, [], key) == Normal([], known)
  {
  }

  /** Normalising one value more. */
  lemma {:induction false} NormSnoc(known: Aliases, items: seq<Value>, v: Value, key: Option<string>)
    ensures
      var some := NormItems(known, items, key);
      var last := Norm(some.aliases, v, key);
      NormItems(known, items + [v], key) == Normal(some.value + [last.value], last.aliases)
    decreases |items|
  {
    if items == [] {
      assert items + [v] == [v] && [v][1..] == [];
      var last := Norm(known, v, key);
      NormNothing(known, key);
      NormNothing(last.aliases, key);
      assert [last.value] + [] == [last.value] && [] + [last.value] == [last.value];
    } else {
      var first := Norm(known, items[0], key);
      var rest := NormItems(first.aliases, items[1..], key);
      NormSnoc(first.aliases, items[1..], v, key);
      assert (items + [v])[1..] == items[1..] + [v];
      var last := Norm(rest.aliases, v, key);
      assert [first.value] + rest.value + [last.value] == [first.value] + (rest.value + [last.value]);
    }
  }

  lemma OneMore(
    known: Aliases, items: seq<Value>, v: Value, all: seq<Value>, some: Normal<seq<Value>>, last: Normal<Value>)
    requires some == NormItems(known, items, None) && last == Norm(some.aliases, v, None) && all == items + [v]
    ensures NormItems(known, all, None) == Normal(some.value + [last.value], last.aliases)
  {
    NormSnoc(known, items, v, None);
  }

  /** `observation_key`; `None` stands for ValueError. */
  method ObservationKey(codec: Codec, r: Record, level: string) returns (key: Option<Bytes>)
    ensures key == if LevelNamed(level).Some? then Some(RecordKey(codec, r, LevelNamed(level).value)) else None
  {
    if level !in {"O0", "O1", "O2"} {
      return None;
    }
    ghost var all := Parts(codec, r, LevelNamed(level).value);
    var normalizer := new AlphaNormalizer();
    var workspace := normalizer.Normalize(r.workspace, None);
    var done := [workspace];
    ghost var n := 1;
    OneMore(map[], [], r.workspace, all[..1], Normal([], map[]), Normal(workspace, normalizer.aliases));
    assert [] + [workspace] == done;
    if level in {"O1", "O2"} {
      ghost var before := normalizer.aliases;
      var provider := normalizer.Normalize(Arr(r.providerEvents), None);
      OneMore(map[], all[..1], all[1], all[..2], Normal(done, before), Normal(provider, normalizer.aliases));
      done, n := done + [provider], 2;
    }
    if level == "O2" {
      ghost var before := normalizer.aliases;
      var trusted := normalizer.Normalize(Arr(r.trustedEvents), None);
      OneMore(map[], all[..2], all[2], all[..3], Normal(done, before), Normal(trusted, normalizer.aliases));
      done, n := done + [trusted], 3;
    }
    ghost var before := normalizer.aliases;
    var action := normalizer.Normalize(Selected(codec, r.action), None);
    OneMore(map[], all[..n], all[n], all, Normal(done, before), Normal(action, normalizer.aliases));
    key := Some(CanonicalText(codec.quote, Document(done + [action])));
  }
}
