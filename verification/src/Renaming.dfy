/**
 The normaliser as a normal form: erase what never enters a key, collect the identifiers in the order
 they are met, and rename.  Two values have the same normal form exactly when a renaming carries one
 to the other and meets the identifiers of every namespace in the same order.
 */
module Renaming {
  import opened Options
  import opened Decimals
  import opened Counting
  import opened Json
  import opened CanonicalJson
  import opened Observations

  type Renamer = Id -> string

  // ----- Erasing, renaming and collecting -----

  /** Without timestamps and null members. */
  function Erase(v: Value): Value
    decreases v, 1
  {
    match v
    case Atom(_) => v
    case Str(_) => v
    case Arr(items) => Arr(EraseItems(items))
    case Obj(members) => Obj(EraseMembers(members))
  }

  function EraseItems(items: seq<Value>): (r: seq<Value>)
    ensures |r| == |items|
    decreases items, 0
  {
    if items == [] then [] else [Erase(items[0])] + EraseItems(items[1..])
  }

  predicate Dropped(m: Member) {
    m.key in TIMESTAMP_KEYS || m.value == NULL
  }

  function EraseMembers(ms: seq<Member>): seq<Member>
    decreases ms, 0
  {
    if ms == [] then []
    else if Dropped(ms[0]) then EraseMembers(ms[1..])
    else [Member(ms[0].key, Erase(ms[0].value))] + EraseMembers(ms[1..])
  }

  function Apply(f: Renamer, v: Value, key: Option<string>): Value
    decreases v, 1
  {
    match v
    case Atom(_) => v
    case Str(text) => if NamespaceOf(key).Some? then Str(f(Id(NamespaceOf(key).value, text))) else v
    case Arr(items) => Arr(ApplyItems(f, items, key))
    case Obj(members) => Obj(ApplyMembers(f, members))
  }

  function ApplyItems(f: Renamer, items: seq<Value>, key: Option<string>): (r: seq<Value>)
    ensures |r| == |items|
    decreases items, 0
  {
    if items == [] then [] else [Apply(f, items[0], key)] + ApplyItems(f, items[1..], key)
  }

  function ApplyMembers(f: Renamer, ms: seq<Member>): (r: seq<Member>)
    ensures |r| == |ms|
    decreases ms, 0
  {
    if ms == [] then [] else [Member(ms[0].key, Apply(f, ms[0].value, Some(ms[0].key)))] + ApplyMembers(f, ms[1..])
  }

  /** The identifiers of a value, in the order the normaliser meets them. */
  function Ids(v: Value, key: Option<string>): seq<Id>
    decreases v, 1
  {
    match v
    case Atom(_) => []
    case Str(text) => if NamespaceOf(key).Some? then [Id(NamespaceOf(key).value, text)] else []
    case Arr(items) => ItemIds(items, key)
    case Obj(members) => MemberIds(members)
  }

  function ItemIds(items: seq<Value>, key: Option<string>): seq<Id>
    decreases items, 0
  {
    if items == [] then [] else Ids(items[0], key) + ItemIds(items[1..], key)
  }

  function MemberIds(ms: seq<Member>): seq<Id>
    decreases ms, 0
  {
    if ms == [] then [] else Ids(ms[0].value, Some(ms[0].key)) + MemberIds(ms[1..])
  }

  // ----- Learning identifiers one after the other -----

  function Learn(known: Aliases, ids: seq<Id>): Aliases {
    if ids == [] then known else Learned(Learn(known, ids[..|ids| - 1]), ids[|ids| - 1])
  }

  predicate Knows(known: Aliases, id: Id) {
    id.text in AliasesIn(known, id.namespace)
  }

  ghost predicate Extends(later: Aliases, earlier: Aliases) {
    forall id :: Knows(earlier, id) ==> Knows(later, id) && AliasOf(later, id) == AliasOf(earlier, id)
  }

  lemma {:induction false} LearnMore(known: Aliases, a: seq<Id>, b: seq<Id>)
    ensures Learn(known, a + b) == Learn(Learn(known, a), b)
    decreases |b|
  {
    if b == [] {
      assert a + b == a;
    } else {
      assert (a + b)[..|a + b| - 1] == a + b[..|b| - 1];
      LearnMore(known, a, b[..|b| - 1]);
    }
  }

  lemma {:induction false} LearnExtends(known: Aliases, ids: seq<Id>)
    ensures Extends(Learn(known, ids), known)
    decreases |ids|
  {
    if ids != [] {
      LearnExtends(known, ids[..|ids| - 1]);
      assert Extends(Learn(known, ids), Learn(known, ids[..|ids| - 1]));
    }
  }

  function AliasIn(known: Aliases): Renamer {
    (id: Id) => AliasOf(known, id)
  }

  /** The normaliser renames what it did not erase, by what it knows then or at any time later. */
  lemma {:induction false} NormSplits(known: Aliases, v: Value, key: Option<string>, later: Aliases)
    requires !IsTimestamp(key) && Extends(later, Learn(known, Ids(Erase(v), key)))
    ensures
      Norm(known, v, key) == Normal(Apply(AliasIn(later), Erase(v), key), Learn(known, Ids(Erase(v), key)))
    decreases v, 1
  {
    match v
    case Atom(_) =>
    case Str(text) =>
      if NamespaceOf(key).Some? {
        var id := Id(NamespaceOf(key).value, text);
        assert [id][..0] == [];
        assert Learn(known, [id]) == Learned(known, id);
        assert Knows(Learned(known, id), id);
      }
    case Arr(items) => NormItemsSplit(known, items, key, later);
    case Obj(members) => NormMembersSplit(known, members, later);
  }

  lemma {:induction false} NormItemsSplit(known: Aliases, items: seq<Value>, key: Option<string>, later: Aliases)
    requires !IsTimestamp(key) && Extends(later, Learn(known, ItemIds(EraseItems(items), key)))
    ensures
      NormItems(known, items, key)
      == Normal(ApplyItems(AliasIn(later), EraseItems(items), key), Learn(known, ItemIds(EraseItems(items), key)))
    decreases items, 0
  {
    if items != [] {
      var first, more := Ids(Erase(items[0]), key), ItemIds(EraseItems(items[1..]), key);
      var mid := Learn(known, first);
      assert EraseItems(items)[1..] == EraseItems(items[1..]);
      LearnMore(known, first, more);
      LearnExtends(mid, more);
      NormSplits(known, items[0], key, later);
      NormItemsSplit(mid, items[1..], key, later);
    }
  }

  lemma {:induction false} NormMembersSplit(known: Aliases, ms: seq<Member>, later: Aliases)
    requires Extends(later, Learn(known, MemberIds(EraseMembers(ms))))
    ensures
      NormMembers(known, ms)
      == Normal(ApplyMembers(AliasIn(later), EraseMembers(ms)), Learn(known, MemberIds(EraseMembers(ms))))
    decreases ms, 0
  {
    if ms != [] {
      if ms[0].key in TIMESTAMP_KEYS {
        NormMembersSplit(known, ms[1..], later);
      } else if ms[0].value == NULL {
        NormMembersSplit(known, ms[1..], later);
      } else {
        var key := Some(ms[0].key);
        var first, more := Ids(Erase(ms[0].value), key), MemberIds(EraseMembers(ms[1..]));
        var mid := Learn(known, first);
        assert EraseMembers(ms)[1..] == EraseMembers(ms[1..]);
        LearnMore(known, first, more);
        LearnExtends(mid, more);
        NormSplits(known, ms[0].value, key, later);
        NormMembersSplit(mid, ms[1..], later);
      }
    }
  }

  // ----- Aliases number the identifiers of a namespace in the order they are first met -----

  function FirstSeen(ids: seq<Id>, namespace: string): seq<string> {
    if ids == [] then []
    else
      var before, id := FirstSeen(ids[..|ids| - 1], namespace), ids[|ids| - 1];
      if id.namespace == namespace && id.text !in before then before + [id.text] else before
  }

  lemma {:induction false} FirstSeenIs(ids: seq<Id>, namespace: string)
    ensures Distinct(FirstSeen(ids, namespace))
    ensures forall text :: text in FirstSeen(ids, namespace) <==> Id(namespace, text) in ids
    decreases |ids|
  {
    if ids != [] {
      FirstSeenIs(ids[..|ids| - 1], namespace);
      assert ids == ids[..|ids| - 1] + [ids[|ids| - 1]];
    }
  }

  /** `aliases` numbers the names in `seen`, from one. */
  ghost predicate Numbers(aliases: map<string, string>, namespace: string, seen: seq<string>) {
    && |aliases| == |seen|
    && (forall text :: text in aliases <==> text in seen)
    && (forall i :: 0 <= i < |seen| ==> aliases[seen[i]] == Named(namespace, i + 1))
  }

  lemma {:induction false} LearnNumbers(ids: seq<Id>, namespace: string)
    ensures Numbers(AliasesIn(Learn(map[], ids), namespace), namespace, FirstSeen(ids, namespace))
    decreases |ids|
  {
    if ids != [] {
      var before, id := ids[..|ids| - 1], ids[|ids| - 1];
      LearnNumbers(before, namespace);
      var known, seen := Learn(map[], before), FirstSeen(before, namespace);
      var aliases := AliasesIn(known, namespace);
      if id.namespace == namespace && id.text !in seen {
        var aliases' := aliases[id.text := Named(namespace, |aliases| + 1)];
        assert |aliases'| == |aliases| + 1;
        assert AliasesIn(Learn(map[], ids), namespace) == aliases';
        assert Numbers(aliases', namespace, seen + [id.text]);
      } else {
        assert AliasesIn(Learn(map[], ids), namespace) == aliases;
      }
    }
  }

  lemma NamedInjective(namespace: string, m: nat, n: nat)
    requires Named(namespace, m) == Named(namespace, n)
    ensures m == n
  {
    var k := |namespace| + 1;
    assert Decimal(m) == Named(namespace, m)[k..] && Decimal(n) == Named(namespace, n)[k..];
    DecimalInjective(m, n);
  }

  /** The alias of an identifier when exactly these identifiers were met, in this order. */
  function AliasAfter(ids: seq<Id>): Renamer {
    AliasIn(Learn(map[], ids))
  }

  lemma AliasIsNumber(ids: seq<Id>, namespace: string, i: nat)
    requires i < |FirstSeen(ids, namespace)|
    ensures AliasAfter(ids)(Id(namespace, FirstSeen(ids, namespace)[i])) == Named(namespace, i + 1)
  {
    LearnNumbers(ids, namespace);
  }

  /** The place of an identifier among those first met in its namespace. */
  lemma PlaceOf(ids: seq<Id>, id: Id) returns (i: nat)
    requires id in ids
    ensures i < |FirstSeen(ids, id.namespace)| && FirstSeen(ids, id.namespace)[i] == id.text
    ensures AliasAfter(ids)(id) == Named(id.namespace, i + 1)
  {
    var seen := FirstSeen(ids, id.namespace);
    FirstSeenIs(ids, id.namespace);
    assert id == Id(id.namespace, id.text);
    i :| 0 <= i < |seen| && seen[i] == id.text;
    AliasIsNumber(ids, id.namespace, i);
  }

  // ----- Trees -----

  function ApplyTree(f: Renamer, t: Tree, key: Option<string>): Tree {
    match t
    case Leaf(_) => t
    case Word(text) => if NamespaceOf(key).Some? then Word(f(Id(NamespaceOf(key).value, text))) else t
    case Row(items) => Row(seq(|items|, i requires 0 <= i < |items| => ApplyTree(f, items[i], key)))
    case Branch(members) => Branch(map k | k in members :: ApplyTree(f, members[k], Some(k)))
  }

  ghost predicate Occurs(id: Id, t: Tree, key: Option<string>) {
    match t
    case Leaf(_) => false
    case Word(text) => NamespaceOf(key) == Some(id.namespace) && text == id.text
    case Row(items) => exists i :: 0 <= i < |items| && Occurs(id, items[i], key)
    case Branch(members) => exists k :: k in members && Occurs(id, members[k], Some(k))
  }

  /** Two trees with the same renamed form are carried to each other by any map that agrees with that. */
  lemma {:induction false} CarriesTree(f: Renamer, g: Renamer, rho: Renamer, t: Tree, u: Tree, key: Option<string>)
    requires ApplyTree(f, t, key) == ApplyTree(g, u, key)
    requires forall a: Id, b: Id ::
      Occurs(a, t, key) && Occurs(b, u, key) && a.namespace == b.namespace && f(a) == g(b) ==> rho(a) == b.text
    ensures ApplyTree(rho, t, key) == u
    decreases t
  {
    match t
    case Leaf(_) =>
    case Word(text) =>
      if NamespaceOf(key).Some? {
        var a, b := Id(NamespaceOf(key).value, text), Id(NamespaceOf(key).value, u.text);
        assert Occurs(a, t, key) && Occurs(b, u, key);
      }
    case Row(items) =>
      assert |ApplyTree(f, t, key).items| == |ApplyTree(g, u, key).items|;
      forall i | 0 <= i < |items| ensures ApplyTree(rho, items[i], key) == u.items[i] {
        assert ApplyTree(f, t, key).items[i] == ApplyTree(g, u, key).items[i];
        CarriesTree(f, g, rho, items[i], u.items[i], key);
      }
    case Branch(members) =>
      assert ApplyTree(f, t, key).members.Keys == members.Keys;
      assert ApplyTree(g, u, key).members.Keys == u.members.Keys;
      forall k | k in members ensures ApplyTree(rho, members[k], Some(k)) == u.members[k] {
        assert ApplyTree(f, t, key).members[k] == ApplyTree(g, u, key).members[k];
        CarriesTree(f, g, rho, members[k], u.members[k], Some(k));
      }
  }

  /** Renaming after renaming. */
  lemma {:induction false} ComposeTree(f: Renamer, rho: Renamer, h: Renamer, t: Tree, key: Option<string>)
    requires forall id: Id :: Occurs(id, t, key) ==> h(id) == f(Id(id.namespace, rho(id)))
    ensures ApplyTree(f, ApplyTree(rho, t, key), key) == ApplyTree(h, t, key)
    decreases t
  {
    match t
    case Leaf(_) =>
    case Word(text) =>
      if NamespaceOf(key).Some? {
        assert Occurs(Id(NamespaceOf(key).value, text), t, key);
      }
    case Row(items) =>
      forall i | 0 <= i < |items|
        ensures ApplyTree(f, ApplyTree(rho, items[i], key), key) == ApplyTree(h, items[i], key)
      {
        ComposeTree(f, rho, h, items[i], key);
      }
    case Branch(members) =>
      forall k | k in members
        ensures ApplyTree(f, ApplyTree(rho, members[k], Some(k)), Some(k)) == ApplyTree(h, members[k], Some(k))
      {
        ComposeTree(f, rho, h, members[k], Some(k));
      }
  }

  /** The identifiers of a renamed tree are the renamed identifiers. */
  lemma {:induction false} OccursRenamed(f: Renamer, t: Tree, key: Option<string>, id: Id)
    requires Occurs(id, t, key)
    ensures Occurs(Id(id.namespace, f(id)), ApplyTree(f, t, key), key)
    decreases t
  {
    match t
    case Word(text) => assert id == Id(NamespaceOf(key).value, text);
    case Row(items) =>
      var i :| 0 <= i < |items| && Occurs(id, items[i], key);
      OccursRenamed(f, items[i], key, id);
      assert ApplyTree(f, t, key).items[i] == ApplyTree(f, items[i], key);
    case Branch(members) =>
      var k :| k in members && Occurs(id, members[k], Some(k));
      OccursRenamed(f, members[k], Some(k), id);
      assert ApplyTree(f, t, key).members[k] == ApplyTree(f, members[k], Some(k));
  }

  lemma {:induction false} RenamedOccurs(f: Renamer, t: Tree, key: Option<string>, id: Id) returns (origin: Id)
    requires Occurs(id, ApplyTree(f, t, key), key)
    ensures Occurs(origin, t, key) && origin.namespace == id.namespace && f(origin) == id.text
    decreases t
  {
    match t
    case Word(text) => origin := Id(NamespaceOf(key).value, text);
    case Row(items) =>
      var i :| 0 <= i < |items| && Occurs(id, ApplyTree(f, t, key).items[i], key);
      origin := RenamedOccurs(f, items[i], key, id);
    case Branch(members) =>
      var k :| k in members && Occurs(id, ApplyTree(f, t, key).members[k], Some(k));
      origin := RenamedOccurs(f, members[k], Some(k), id);
  }

  // ----- The tree of a value -----

  lemma {:induction false} TreeApplies(f: Renamer, v: Value, key: Option<string>)
    ensures TreeOf(Apply(f, v, key)) == ApplyTree(f, TreeOf(v), key)
    decreases v, 1
  {
    match v
    case Atom(_) =>
    case Str(_) =>
    case Arr(items) =>
      TreesApply(f, items, key);
      assert TreeOf(Apply(f, v, key)).items == ApplyTree(f, TreeOf(v), key).items;
    case Obj(members) =>
      BranchApplies(f, members);
      assert TreeOf(Apply(f, v, key)).members == ApplyTree(f, TreeOf(v), key).members;
  }

  lemma {:induction false} TreesApply(f: Renamer, items: seq<Value>, key: Option<string>)
    ensures
      forall i :: 0 <= i < |items| ==> TreesOf(ApplyItems(f, items, key))[i] == ApplyTree(f, TreesOf(items)[i], key)
    decreases items, 0
  {
    if items != [] {
      TreeApplies(f, items[0], key);
      TreesApply(f, items[1..], key);
      assert ApplyItems(f, items, key)[1..] == ApplyItems(f, items[1..], key);
    }
  }

  function ApplyBranch(f: Renamer, branch: map<Bytes, Tree>): map<Bytes, Tree> {
    map k | k in branch :: ApplyTree(f, branch[k], Some(k))
  }

  lemma ApplyAdded(f: Renamer, branch: map<Bytes, Tree>, k: Bytes, t: Tree)
    ensures ApplyBranch(f, branch[k := t]) == ApplyBranch(f, branch)[k := ApplyTree(f, t, Some(k))]
  {
  }

  lemma {:induction false} BranchApplies(f: Renamer, ms: seq<Member>)
    ensures BranchOf(ApplyMembers(f, ms)) == ApplyBranch(f, BranchOf(ms))
    decreases ms, 0
  {
    if ms != [] {
      TreeApplies(f, ms[0].value, Some(ms[0].key));
      BranchApplies(f, ms[1..]);
      assert ApplyMembers(f, ms)[1..] == ApplyMembers(f, ms[1..]);
      ApplyAdded(f, BranchOf(ms[1..]), ms[0].key, TreeOf(ms[0].value));
    }
  }

  /** A value and its tree have the same identifiers. */
  lemma {:induction false} IdsOccur(v: Value, key: Option<string>, id: Id)
    requires NoRepeats(v)
    ensures Occurs(id, TreeOf(v), key) <==> id in Ids(v, key)
    decreases v, 1
  {
    match v
    case Atom(_) =>
    case Str(_) =>
    case Arr(items) => ItemIdsOccur(items, key, id);
    case Obj(members) => MemberIdsOccur(members, id);
  }

  ghost predicate OccursInSome(id: Id, ts: seq<Tree>, key: Option<string>) {
    exists i :: 0 <= i < |ts| && Occurs(id, ts[i], key)
  }

  lemma OccursInFirstOrRest(id: Id, t: Tree, ts: seq<Tree>, key: Option<string>)
    ensures OccursInSome(id, [t] + ts, key) <==> Occurs(id, t, key) || OccursInSome(id, ts, key)
  {
    var all := [t] + ts;
    if Occurs(id, t, key) {
      assert Occurs(id, all[0], key);
    }
    if OccursInSome(id, ts, key) {
      var i :| 0 <= i < |ts| && Occurs(id, ts[i], key);
      assert Occurs(id, all[i + 1], key);
    }
  }

  lemma {:induction false} ItemIdsOccur(items: seq<Value>, key: Option<string>, id: Id)
    requires forall i :: 0 <= i < |items| ==> NoRepeats(items[i])
    ensures OccursInSome(id, TreesOf(items), key) <==> id in ItemIds(items, key)
    decreases items, 0
  {
    if items != [] {
      IdsOccur(items[0], key, id);
      ItemIdsOccur(items[1..], key, id);
      OccursInFirstOrRest(id, TreeOf(items[0]), TreesOf(items[1..]), key);
    }
  }

  lemma {:induction false} MemberIdsOccur(ms: seq<Member>, id: Id)
    requires NoRepeats(Obj(ms))
    ensures (exists k :: k in BranchOf(ms) && Occurs(id, BranchOf(ms)[k], Some(k))) <==> id in MemberIds(ms)
    decreases ms, 0
  {
    if ms != [] {
      DistinctSplit(ms);
      IdsOccur(ms[0].value, Some(ms[0].key), id);
      MemberIdsOccur(ms[1..], id);
      assert ms[0].key !in BranchOf(ms[1..]);
      assert forall k :: k in BranchOf(ms[1..]) ==> BranchOf(ms)[k] == BranchOf(ms[1..])[k];
    }
  }
}
