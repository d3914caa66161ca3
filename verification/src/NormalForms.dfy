/** When two values have the same normal form. */
module NormalForms {
  import opened Options
  import opened Counting
  import opened Json
  import opened CanonicalJson
  import opened Observations
  import opened Renaming

  // ----- Carrying one value to another -----

  /** The tree of the normal form of an erased value. */
  function Shown(u: Value): Tree {
    ApplyTree(AliasAfter(Ids(u, None)), TreeOf(u), None)
  }

  function Renamed(rho: Renamer, namespace: string, names: seq<string>): seq<string> {
    seq(|names|, i requires 0 <= i < |names| => rho(Id(namespace, names[i])))
  }

  /** `rho` turns `u` into `w` up to the order of members, and keeps the order of first meetings. */
  ghost predicate Carries(rho: Renamer, u: Value, w: Value) {
    && ApplyTree(rho, TreeOf(u), None) == TreeOf(w)
    && (forall ns :: FirstSeen(Ids(w, None), ns) == Renamed(rho, ns, FirstSeen(Ids(u, None), ns)))
  }

  /** Some renaming carries `u` to `w`. */
  ghost predicate Carried(u: Value, w: Value) {
    exists rho: Renamer :: Carries(rho, u, w)
  }

  lemma {:induction false} CarriedShowsTheSame(rho: Renamer, u: Value, w: Value)
    requires NoRepeats(u) && Carries(rho, u, w)
    ensures Shown(u) == Shown(w)
  {
    var a, b := Ids(u, None), Ids(w, None);
    forall id: Id | Occurs(id, TreeOf(u), None) ensures AliasAfter(a)(id) == AliasAfter(b)(Id(id.namespace, rho(id))) {
      IdsOccur(u, None, id);
      var i := PlaceOf(a, id);
      assert id == Id(id.namespace, id.text);
      AliasIsNumber(b, id.namespace, i);
    }
    ComposeTree(AliasAfter(b), rho, AliasAfter(a), TreeOf(u), None);
  }

  function Matched(a: seq<string>, b: seq<string>, s: string): string {
    if a == [] || b == [] then s else if a[0] == s then b[0] else Matched(a[1..], b[1..], s)
  }

  lemma {:induction false} MatchedAt(a: seq<string>, b: seq<string>, i: nat)
    requires Distinct(a) && i < |a| && i < |b|
    ensures Matched(a, b, a[i]) == b[i]
    decreases i
  {
    if i > 0 {
      assert a[0] != a[i];
      assert Distinct(a[1..]) by {
        forall j, k | 0 <= j < k < |a[1..]| ensures a[1..][j] != a[1..][k] { assert a[j + 1] != a[k + 1]; }
      }
      MatchedAt(a[1..], b[1..], i - 1);
    }
  }

  /** The last identifier first met in a namespace occurs in the tree, and has the last number. */
  lemma {:induction false} LastName(u: Value, ns: string)
    requires NoRepeats(u) && FirstSeen(Ids(u, None), ns) != []
    ensures Occurs(Id(ns, Named(ns, |FirstSeen(Ids(u, None), ns)|)), Shown(u), None)
  {
    var a := Ids(u, None);
    var n := |FirstSeen(a, ns)| - 1;
    var id := Id(ns, FirstSeen(a, ns)[n]);
    FirstSeenIs(a, ns);
    AliasIsNumber(a, ns, n);
    IdsOccur(u, None, id);
    OccursRenamed(AliasAfter(a), TreeOf(u), None, id);
  }

  lemma {:induction false} ShownNumber(w: Value, ns: string, n: nat)
    requires NoRepeats(w) && Occurs(Id(ns, Named(ns, n)), Shown(w), None)
    ensures n <= |FirstSeen(Ids(w, None), ns)|
  {
    var b := Ids(w, None);
    var other := RenamedOccurs(AliasAfter(b), TreeOf(w), None, Id(ns, Named(ns, n)));
    IdsOccur(w, None, other);
    var m := PlaceOf(b, other);
    NamedInjective(ns, m + 1, n);
  }

  /** Values with the same normal form have equally many identifiers in every namespace. */
  lemma {:induction false} NoMoreNames(u: Value, w: Value, ns: string)
    requires NoRepeats(u) && NoRepeats(w) && Shown(u) == Shown(w)
    ensures |FirstSeen(Ids(u, None), ns)| <= |FirstSeen(Ids(w, None), ns)|
  {
    if FirstSeen(Ids(u, None), ns) != [] {
      LastName(u, ns);
      ShownNumber(w, ns, |FirstSeen(Ids(u, None), ns)|);
    }
  }

  function Matching(a: seq<Id>, b: seq<Id>): Renamer {
    (id: Id) => Matched(FirstSeen(a, id.namespace), FirstSeen(b, id.namespace), id.text)
  }

  lemma {:induction false} MatchingNames(u: Value, w: Value, ns: string)
    requires NoRepeats(u) && NoRepeats(w) && Shown(u) == Shown(w)
    ensures
      var a, b := Ids(u, None), Ids(w, None);
      FirstSeen(b, ns) == Renamed(Matching(a, b), ns, FirstSeen(a, ns))
  {
    var a, b := Ids(u, None), Ids(w, None);
    NoMoreNames(u, w, ns);
    NoMoreNames(w, u, ns);
    FirstSeenIs(a, ns);
    forall i: nat | i < |FirstSeen(a, ns)|
      ensures FirstSeen(b, ns)[i] == Renamed(Matching(a, b), ns, FirstSeen(a, ns))[i]
    {
      MatchedAt(FirstSeen(a, ns), FirstSeen(b, ns), i);
    }
  }

  lemma {:induction false} MatchingAliases(a: seq<Id>, b: seq<Id>, x: Id, y: Id)
    requires x in a && y in b && x.namespace == y.namespace && AliasAfter(a)(x) == AliasAfter(b)(y)
    ensures Matching(a, b)(x) == y.text
  {
    var i := PlaceOf(a, x);
    var j := PlaceOf(b, y);
    NamedInjective(x.namespace, i + 1, j + 1);
    FirstSeenIs(a, x.namespace);
    MatchedAt(FirstSeen(a, x.namespace), FirstSeen(b, x.namespace), i);
  }

  lemma {:induction false} MatchingCarries(u: Value, w: Value)
    requires NoRepeats(u) && NoRepeats(w) && Shown(u) == Shown(w)
    ensures Carries(Matching(Ids(u, None), Ids(w, None)), u, w)
  {
    var a, b := Ids(u, None), Ids(w, None);
    var rho, f, g := Matching(a, b), AliasAfter(a), AliasAfter(b);
    forall ns ensures FirstSeen(b, ns) == Renamed(rho, ns, FirstSeen(a, ns)) {
      MatchingNames(u, w, ns);
    }
    forall x: Id, y: Id |
      Occurs(x, TreeOf(u), None) && Occurs(y, TreeOf(w), None) && x.namespace == y.namespace && f(x) == g(y)
      ensures rho(x) == y.text
    {
      IdsOccur(u, None, x);
      IdsOccur(w, None, y);
      MatchingAliases(a, b, x, y);
    }
    CarriesTree(f, g, rho, TreeOf(u), TreeOf(w), None);
  }

  // ----- Normal forms -----

  function NormalForm(v: Value): Value {
    Norm(map[], v, None).value
  }

  lemma NormalFormIs(v: Value)
    ensures NormalForm(v) == Apply(AliasAfter(Ids(Erase(v), None)), Erase(v), None)
    ensures TreeOf(NormalForm(v)) == Shown(Erase(v))
  {
    var ids := Ids(Erase(v), None);
    NormSplits(map[], v, None, Learn(map[], ids));
    TreeApplies(AliasAfter(ids), Erase(v), None);
  }

  /**
   The exact meaning of a normal form: two values have the same one, up to the order of members, if
   and only if some renaming carries what is left of the one after erasure to what is left of the
   other, and meets the identifiers of every namespace in the same order.
   */
  lemma {:induction false} SameFormIff(v: Value, w: Value)
    requires NoRepeats(v) && NoRepeats(w)
    ensures TreeOf(NormalForm(v)) == TreeOf(NormalForm(w)) <==> Carried(Erase(v), Erase(w))
  {
    NormalFormIs(v);
    NormalFormIs(w);
    EraseKeeps(v);
    EraseKeeps(w);
    if rho: Renamer :| Carries(rho, Erase(v), Erase(w)) {
      CarriedShowsTheSame(rho, Erase(v), Erase(w));
    }
    if TreeOf(NormalForm(v)) == TreeOf(NormalForm(w)) {
      MatchingCarries(Erase(v), Erase(w));
    }
  }

  ghost predicate InjectiveOn(rho: Renamer, ids: seq<Id>) {
    forall a, b :: a in ids && b in ids && a.namespace == b.namespace && rho(a) == rho(b) ==> a == b
  }

  /** `rho` maps the identifiers in `from` to those in `to`, one to one within each namespace. */
  ghost predicate Bijective(rho: Renamer, from: seq<Id>, to: seq<Id>) {
    && InjectiveOn(rho, from)
    && (forall id :: id in from ==> Id(id.namespace, rho(id)) in to)
    && (forall id :: id in to ==> exists a :: a in from && a.namespace == id.namespace && rho(a) == id.text)
  }

  /** A renaming that carries one value to another is one to one on its identifiers. */
  lemma {:induction false} CarriesOneToOne(rho: Renamer, u: Value, w: Value)
    requires Carries(rho, u, w)
    ensures Bijective(rho, Ids(u, None), Ids(w, None))
  {
    var from, to := Ids(u, None), Ids(w, None);
    forall a, b | a in from && b in from && a.namespace == b.namespace && rho(a) == rho(b) ensures a == b {
      var i := PlaceOf(from, a);
      var j := PlaceOf(from, b);
      assert a == Id(a.namespace, a.text) && b == Id(a.namespace, b.text);
      FirstSeenIs(to, a.namespace);
      assert FirstSeen(to, a.namespace)[i] == FirstSeen(to, a.namespace)[j];
    }
    forall id | id in from ensures Id(id.namespace, rho(id)) in to {
      var i := PlaceOf(from, id);
      assert id == Id(id.namespace, id.text);
      FirstSeenIs(to, id.namespace);
      assert FirstSeen(to, id.namespace)[i] == rho(id);
    }
    forall id | id in to ensures exists a :: a in from && a.namespace == id.namespace && rho(a) == id.text {
      var i := PlaceOf(to, id);
      FirstSeenIs(from, id.namespace);
      var a := Id(id.namespace, FirstSeen(from, id.namespace)[i]);
      assert a in from && rho(a) == id.text;
    }
  }

  // ----- Erasure and renaming, structurally -----

  lemma {:induction false} EraseKeeps(v: Value)
    requires NoRepeats(v)
    ensures NoRepeats(Erase(v)) && Erase(Erase(v)) == Erase(v)
    decreases v, 1
  {
    match v
    case Atom(_) =>
    case Str(_) =>
    case Arr(items) => EraseItemsKeep(items);
    case Obj(members) => EraseMembersKeep(members);
  }

  lemma {:induction false} EraseItemsKeep(items: seq<Value>)
    requires forall i :: 0 <= i < |items| ==> NoRepeats(items[i])
    ensures forall i :: 0 <= i < |items| ==> NoRepeats(EraseItems(items)[i])
    ensures EraseItems(EraseItems(items)) == EraseItems(items)
    decreases items, 0
  {
    if items != [] {
      EraseKeeps(items[0]);
      EraseItemsKeep(items[1..]);
      assert EraseItems(items)[1..] == EraseItems(items[1..]);
    }
  }

  lemma DistinctJoin(m: Member, ms: seq<Member>)
    requires NoRepeats(m.value) && NoRepeats(Obj(ms)) && !HasKey(ms, m.key)
    ensures NoRepeats(Obj([m] + ms))
  {
    var all := [m] + ms;
    forall i, j | 0 <= i < j < |all| ensures all[i].key != all[j].key {
      assert ms[j - 1].key == all[j].key;
    }
  }

  lemma {:induction false} EraseMembersKeep(ms: seq<Member>)
    requires NoRepeats(Obj(ms))
    ensures NoRepeats(Obj(EraseMembers(ms)))
    ensures forall key :: HasKey(EraseMembers(ms), key) ==> HasKey(ms, key)
    ensures EraseMembers(EraseMembers(ms)) == EraseMembers(ms)
    decreases ms, 0
  {
    if ms != [] {
      DistinctSplit(ms);
      EraseKeeps(ms[0].value);
      var rest := EraseMembers(ms[1..]);
      EraseMembersKeep(ms[1..]);
      KeysSplit(ms);
      if !Dropped(ms[0]) {
        var first := Member(ms[0].key, Erase(ms[0].value));
        DistinctJoin(first, rest);
        KeysSplit([first] + rest);
        assert ([first] + rest)[1..] == rest;
      }
    }
  }

  lemma {:induction false} EraseAfterRenaming(rho: Renamer, v: Value, key: Option<string>)
    ensures Erase(Apply(rho, v, key)) == Apply(rho, Erase(v), key)
    decreases v, 1
  {
    match v
    case Atom(_) =>
    case Str(_) =>
    case Arr(items) => EraseItemsAfter(rho, items, key);
    case Obj(members) => EraseMembersAfter(rho, members);
  }

  lemma {:induction false} EraseItemsAfter(rho: Renamer, items: seq<Value>, key: Option<string>)
    ensures EraseItems(ApplyItems(rho, items, key)) == ApplyItems(rho, EraseItems(items), key)
    decreases items, 0
  {
    if items != [] {
      EraseAfterRenaming(rho, items[0], key);
      EraseItemsAfter(rho, items[1..], key);
      assert ApplyItems(rho, items, key)[1..] == ApplyItems(rho, items[1..], key);
      assert EraseItems(items)[1..] == EraseItems(items[1..]);
    }
  }

  lemma {:induction false} EraseMembersAfter(rho: Renamer, ms: seq<Member>)
    ensures EraseMembers(ApplyMembers(rho, ms)) == ApplyMembers(rho, EraseMembers(ms))
    decreases ms, 0
  {
    if ms != [] {
      EraseAfterRenaming(rho, ms[0].value, Some(ms[0].key));
      EraseMembersAfter(rho, ms[1..]);
      assert ApplyMembers(rho, ms)[1..] == ApplyMembers(rho, ms[1..]);
      assert !Dropped(ms[0]) ==> EraseMembers(ms)[1..] == EraseMembers(ms[1..]);
    }
  }

  function RenamedIds(rho: Renamer, ids: seq<Id>): seq<Id> {
    seq(|ids|, i requires 0 <= i < |ids| => Id(ids[i].namespace, rho(ids[i])))
  }

  lemma RenamedJoin(rho: Renamer, a: seq<Id>, b: seq<Id>)
    ensures RenamedIds(rho, a + b) == RenamedIds(rho, a) + RenamedIds(rho, b)
  {
  }

  lemma {:induction false} IdsRenamed(rho: Renamer, v: Value, key: Option<string>)
    ensures Ids(Apply(rho, v, key), key) == RenamedIds(rho, Ids(v, key))
    decreases v, 1
  {
    match v
    case Atom(_) =>
    case Str(_) =>
    case Arr(items) => ItemIdsRenamed(rho, items, key);
    case Obj(members) => MemberIdsRenamed(rho, members);
  }

  lemma {:induction false} ItemIdsRenamed(rho: Renamer, items: seq<Value>, key: Option<string>)
    ensures ItemIds(ApplyItems(rho, items, key), key) == RenamedIds(rho, ItemIds(items, key))
    decreases items, 0
  {
    if items != [] {
      IdsRenamed(rho, items[0], key);
      ItemIdsRenamed(rho, items[1..], key);
      assert ApplyItems(rho, items, key)[1..] == ApplyItems(rho, items[1..], key);
      RenamedJoin(rho, Ids(items[0], key), ItemIds(items[1..], key));
    }
  }

  lemma {:induction false} MemberIdsRenamed(rho: Renamer, ms: seq<Member>)
    ensures MemberIds(ApplyMembers(rho, ms)) == RenamedIds(rho, MemberIds(ms))
    decreases ms, 0
  {
    if ms != [] {
      IdsRenamed(rho, ms[0].value, Some(ms[0].key));
      MemberIdsRenamed(rho, ms[1..]);
      assert ApplyMembers(rho, ms)[1..] == ApplyMembers(rho, ms[1..]);
      RenamedJoin(rho, Ids(ms[0].value, Some(ms[0].key)), MemberIds(ms[1..]));
    }
  }

  /** A new identifier stays new when all are renamed. */
  lemma {:induction false} StillSeen(rho: Renamer, ids: seq<Id>, before: seq<Id>, id: Id)
    requires InjectiveOn(rho, ids) && id in ids && forall a :: a in before ==> a in ids
    ensures
      var seen := FirstSeen(before, id.namespace);
      rho(id) in Renamed(rho, id.namespace, seen) <==> id.text in seen
  {
    var ns, seen := id.namespace, FirstSeen(before, id.namespace);
    FirstSeenIs(before, ns);
    assert id == Id(ns, id.text);
    if id.text in seen {
      var i :| 0 <= i < |seen| && seen[i] == id.text;
      assert Renamed(rho, ns, seen)[i] == rho(id);
    } else {
      assert forall i :: 0 <= i < |seen| ==> Id(ns, seen[i]) in before;
    }
  }

  lemma RenamedSnoc(rho: Renamer, ns: string, names: seq<string>, name: string)
    ensures Renamed(rho, ns, names + [name]) == Renamed(rho, ns, names) + [rho(Id(ns, name))]
  {
  }

  lemma {:induction false} FirstSeenRenamed(rho: Renamer, ids: seq<Id>, ns: string)
    requires InjectiveOn(rho, ids)
    ensures FirstSeen(RenamedIds(rho, ids), ns) == Renamed(rho, ns, FirstSeen(ids, ns))
    decreases |ids|
  {
    if ids != [] {
      var before, id := ids[..|ids| - 1], ids[|ids| - 1];
      assert forall a :: a in before ==> a in ids;
      FirstSeenRenamed(rho, before, ns);
      assert RenamedIds(rho, ids)[..|ids| - 1] == RenamedIds(rho, before);
      if id.namespace == ns {
        StillSeen(rho, ids, before, id);
        RenamedSnoc(rho, ns, FirstSeen(before, ns), id.text);
        assert id == Id(ns, id.text);
      }
    }
  }

  // ----- The order of members -----

  function Keys(ms: seq<Member>): set<Bytes> {
    set i | 0 <= i < |ms| :: ms[i].key
  }

  /** Wherever the two values have the same member names, they list them in the same order. */
  predicate SameOrder(a: Value, b: Value)
    decreases a
  {
    match a
    case Obj(ms) =>
      b.Obj? && Keys(ms) == Keys(b.members) ==>
        && |ms| == |b.members|
        && forall i :: 0 <= i < |ms| ==> ms[i].key == b.members[i].key && SameOrder(ms[i].value, b.members[i].value)
    case Arr(items) =>
      b.Arr? && |items| == |b.items| ==> forall i :: 0 <= i < |items| ==> SameOrder(items[i], b.items[i])
    case Atom(_) => true
    case Str(_) => true
  }

  lemma {:induction false} ItemApplied(f: Renamer, items: seq<Value>, key: Option<string>, i: nat)
    requires i < |items|
    ensures ApplyItems(f, items, key)[i] == Apply(f, items[i], key)
    decreases i
  {
    if i > 0 {
      ItemApplied(f, items[1..], key, i - 1);
    }
  }

  lemma {:induction false} MemberApplied(f: Renamer, ms: seq<Member>, i: nat)
    requires i < |ms|
    ensures ApplyMembers(f, ms)[i] == Member(ms[i].key, Apply(f, ms[i].value, Some(ms[i].key)))
    decreases i
  {
    if i > 0 {
      MemberApplied(f, ms[1..], i - 1);
    }
  }

  lemma KeysApplied(f: Renamer, ms: seq<Member>)
    ensures forall i :: 0 <= i < |ms| ==> ApplyMembers(f, ms)[i].key == ms[i].key
    ensures Keys(ApplyMembers(f, ms)) == Keys(ms)
  {
    forall i | 0 <= i < |ms| ensures ApplyMembers(f, ms)[i].key == ms[i].key {
      MemberApplied(f, ms, i);
    }
  }

  lemma {:induction false} RenamingKeepsDistinct(f: Renamer, v: Value, key: Option<string>)
    requires NoRepeats(v)
    ensures NoRepeats(Apply(f, v, key))
    decreases v
  {
    match v
    case Atom(_) =>
    case Str(_) =>
    case Arr(items) =>
      forall i | 0 <= i < |items| ensures NoRepeats(ApplyItems(f, items, key)[i]) {
        ItemApplied(f, items, key, i);
        RenamingKeepsDistinct(f, items[i], key);
      }
    case Obj(ms) =>
      KeysApplied(f, ms);
      forall i | 0 <= i < |ms| ensures NoRepeats(ApplyMembers(f, ms)[i].value) {
        MemberApplied(f, ms, i);
        RenamingKeepsDistinct(f, ms[i].value, Some(ms[i].key));
      }
  }

  lemma {:induction false} RenamingKeepsOrder(f: Renamer, g: Renamer, a: Value, b: Value, key: Option<string>)
    requires SameOrder(a, b)
    ensures SameOrder(Apply(f, a, key), Apply(g, b, key))
    decreases a
  {
    match a
    case Atom(_) =>
    case Str(_) =>
    case Arr(items) =>
      if b.Arr? && |items| == |b.items| {
        forall i | 0 <= i < |items| ensures SameOrder(ApplyItems(f, items, key)[i], ApplyItems(g, b.items, key)[i]) {
          ItemApplied(f, items, key, i);
          ItemApplied(g, b.items, key, i);
          RenamingKeepsOrder(f, g, items[i], b.items[i], key);
        }
      }
    case Obj(ms) =>
      KeysApplied(f, ms);
      if b.Obj? {
        KeysApplied(g, b.members);
      }
      if b.Obj? && Keys(ms) == Keys(b.members) {
        forall i | 0 <= i < |ms|
          ensures SameOrder(ApplyMembers(f, ms)[i].value, ApplyMembers(g, b.members)[i].value)
        {
          MemberApplied(f, ms, i);
          MemberApplied(g, b.members, i);
          RenamingKeepsOrder(f, g, ms[i].value, b.members[i].value, Some(ms[i].key));
        }
      }
  }

  lemma {:induction false} BranchAt(ms: seq<Member>, i: nat)
    requires NoRepeats(Obj(ms)) && i < |ms|
    ensures ms[i].key in BranchOf(ms) && BranchOf(ms)[ms[i].key] == TreeOf(ms[i].value)
    decreases i
  {
    if i > 0 {
      DistinctSplit(ms);
      BranchAt(ms[1..], i - 1);
    }
  }

  lemma {:induction false} TreesAt(items: seq<Value>, i: nat)
    requires i < |items|
    ensures TreesOf(items)[i] == TreeOf(items[i])
    decreases i
  {
    if i > 0 {
      TreesAt(items[1..], i - 1);
    }
  }

  lemma SameKeys(ms: seq<Member>, ns: seq<Member>)
    requires BranchOf(ms) == BranchOf(ns)
    ensures Keys(ms) == Keys(ns)
  {
    forall key ensures key in Keys(ms) <==> key in Keys(ns) {
      assert HasKey(ms, key) <==> key in BranchOf(ms);
      assert HasKey(ns, key) <==> key in BranchOf(ns);
    }
  }

  /** With members listed in the same order, nothing is lost by going to the tree. */
  lemma {:induction false} SameOrderSameTree(a: Value, b: Value)
    requires NoRepeats(a) && NoRepeats(b) && SameOrder(a, b) && TreeOf(a) == TreeOf(b)
    ensures a == b
    decreases a
  {
    match a
    case Atom(_) =>
    case Str(_) =>
    case Arr(items) =>
      assert |TreesOf(items)| == |TreesOf(b.items)|;
      forall i | 0 <= i < |items| ensures items[i] == b.items[i] {
        TreesAt(items, i);
        TreesAt(b.items, i);
        SameOrderSameTree(items[i], b.items[i]);
      }
    case Obj(ms) =>
      SameKeys(ms, b.members);
      forall i | 0 <= i < |ms| ensures ms[i] == b.members[i] {
        BranchAt(ms, i);
        BranchAt(b.members, i);
        SameOrderSameTree(ms[i].value, b.members[i].value);
      }
  }

  lemma {:induction false} SameOrderAsItself(a: Value)
    ensures SameOrder(a, a)
    decreases a
  {
    match a
    case Atom(_) =>
    case Str(_) =>
    case Arr(items) =>
      forall i | 0 <= i < |items| ensures SameOrder(items[i], items[i]) { SameOrderAsItself(items[i]); }
    case Obj(ms) =>
      forall i | 0 <= i < |ms| ensures SameOrder(ms[i].value, ms[i].value) { SameOrderAsItself(ms[i].value); }
  }

  // ----- Consequences -----

  /** Any one-to-one renaming of the identifiers that are kept leaves the normal form unchanged. */
  lemma {:induction false} RenamingKeepsForm(rho: Renamer, v: Value)
    requires NoRepeats(v) && InjectiveOn(rho, Ids(Erase(v), None))
    ensures NormalForm(Apply(rho, v, None)) == NormalForm(v)
  {
    var u, v' := Erase(v), Apply(rho, v, None);
    var w := Apply(rho, u, None);
    EraseKeeps(v);
    EraseAfterRenaming(rho, v, None);
    TreeApplies(rho, u, None);
    IdsRenamed(rho, u, None);
    forall ns ensures FirstSeen(Ids(w, None), ns) == Renamed(rho, ns, FirstSeen(Ids(u, None), ns)) {
      FirstSeenRenamed(rho, Ids(u, None), ns);
    }
    CarriedShowsTheSame(rho, u, w);
    NormalFormIs(v);
    NormalFormIs(v');
    var f, g := AliasAfter(Ids(w, None)), AliasAfter(Ids(u, None));
    RenamingKeepsDistinct(rho, u, None);
    RenamingKeepsDistinct(f, w, None);
    RenamingKeepsDistinct(g, u, None);
    SameOrderAsItself(u);
    RenamingKeepsOrder(rho, g, u, u, None);
    RenamedOrder(rho, f, g, u);
    SameOrderSameTree(NormalForm(v'), NormalForm(v));
  }

  lemma RenamedOrder(rho: Renamer, f: Renamer, g: Renamer, u: Value)
    ensures SameOrder(Apply(f, Apply(rho, u, None), None), Apply(g, u, None))
  {
    var same := (id: Id) => id.text;
    SameOrderAsItself(u);
    RenamingKeepsOrder(rho, same, u, u, None);
    ApplyNothing(u, None);
    RenamingKeepsOrder(f, g, Apply(rho, u, None), u, None);
  }

  lemma {:induction false} ApplyNothing(v: Value, key: Option<string>)
    ensures Apply((id: Id) => id.text, v, key) == v
    decreases v
  {
    var same := (id: Id) => id.text;
    match v
    case Atom(_) =>
    case Str(_) =>
    case Arr(items) =>
      forall i | 0 <= i < |items| ensures ApplyItems(same, items, key)[i] == items[i] {
        ItemApplied(same, items, key, i);
        ApplyNothing(items[i], key);
      }
    case Obj(ms) =>
      forall i | 0 <= i < |ms| ensures ApplyMembers(same, ms)[i] == ms[i] {
        MemberApplied(same, ms, i);
        ApplyNothing(ms[i].value, Some(ms[i].key));
      }
  }

  lemma AliasesInjective(ids: seq<Id>)
    ensures InjectiveOn(AliasAfter(ids), ids)
  {
    forall a, b |
      a in ids && b in ids && a.namespace == b.namespace && AliasAfter(ids)(a) == AliasAfter(ids)(b)
      ensures a == b
    {
      var i := PlaceOf(ids, a);
      var j := PlaceOf(ids, b);
      NamedInjective(a.namespace, i + 1, j + 1);
    }
  }

  /** Normalising a normalised value with a fresh normaliser returns it unchanged. */
  lemma {:induction false} NormalisingTwice(v: Value)
    requires NoRepeats(v)
    ensures NormalForm(NormalForm(v)) == NormalForm(v)
  {
    var u := Erase(v);
    EraseKeeps(v);
    NormalFormIs(v);
    NormalFormIs(u);
    AliasesInjective(Ids(u, None));
    RenamingKeepsForm(AliasAfter(Ids(u, None)), u);
  }

  /** With members listed in the same order, equal normal forms mean a renaming, member for member. */
  lemma {:induction false} SameFormInOrder(v: Value, w: Value) returns (rho: Renamer)
    requires NoRepeats(v) && NoRepeats(w) && SameOrder(Erase(v), Erase(w))
    requires TreeOf(NormalForm(v)) == TreeOf(NormalForm(w))
    ensures InjectiveOn(rho, Ids(Erase(v), None)) && Apply(rho, Erase(v), None) == Erase(w)
  {
    SameFormIff(v, w);
    rho :| Carries(rho, Erase(v), Erase(w));
    CarriesOneToOne(rho, Erase(v), Erase(w));
    TreeApplies(rho, Erase(v), None);
    EraseKeeps(v);
    EraseKeeps(w);
    RenamingKeepsDistinct(rho, Erase(v), None);
    RenamingKeepsOrder(rho, (id: Id) => id.text, Erase(v), Erase(w), None);
    ApplyNothing(Erase(w), None);
    SameOrderSameTree(Apply(rho, Erase(v), None), Erase(w));
  }
}
