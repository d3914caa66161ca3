/**
 Aliases follow the order in which members are listed, but the text of a key does not: records that
 hold equal dictionaries can have different keys, and keys that agree at one level can differ at a
 coarser one.
 */
module MemberOrder {
  import opened Options
  import opened Json
  import opened Canonical
  import opened CanonicalJson
  import opened Observations
  import opened Renaming
  import opened NormalForms
  import opened ObservationTheorems

  function Listed(p: string, q: string): seq<Member> {
    [Member("source", Str(p)), Member("target", Str(q))]
  }

  function Swapped(p: string, q: string): seq<Member> {
    [Member("target", Str(q)), Member("source", Str(p))]
  }

  function Mention(p: string): Value {
    Obj([Member("branch_id", Str(p))])
  }

  /** A record with an empty workspace in which the provider mentions both branches before the action. */
  function Example(p: string, q: string, action: seq<Member>): Record {
    Record("case", Obj([]), [Mention(p), Mention(q)], [], action, "allow")
  }

  lemma Facts()
    ensures "source" in ALLOWED && "target" in ALLOWED && "arguments" !in ALLOWED
    ensures "source" !in TIMESTAMP_KEYS && "target" !in TIMESTAMP_KEYS && "branch_id" !in TIMESTAMP_KEYS
    ensures NamespaceOf(Some("source")) == Some("branch") && NamespaceOf(Some("target")) == Some("branch")
    ensures NamespaceOf(Some("branch_id")) == Some("branch")
    ensures "source" != "target" && "source" != "arguments" && "target" != "arguments"
    ensures IsPlain("source") && IsPlain("target") && IsPlain("branch_id")
  {
    assert "source"[0] != "target"[0] && "source"[0] != "arguments"[0] && "target"[0] != "arguments"[0];
  }

  /** Two members with text, in either order. */
  lemma TwoMembers(a: string, x: string, b: string, y: string)
    requires a !in TIMESTAMP_KEYS && b !in TIMESTAMP_KEYS
    requires NamespaceOf(Some(a)) == Some("branch") && NamespaceOf(Some(b)) == Some("branch")
    ensures
      var ms := [Member(a, Str(x)), Member(b, Str(y))];
      EraseMembers(ms) == ms && MemberIds(ms) == [Id("branch", x), Id("branch", y)]
  {
    var ms := [Member(a, Str(x)), Member(b, Str(y))];
    assert ms[1..] == [ms[1]] && [ms[1]][1..] == [];
    assert EraseMembers([ms[1]]) == [ms[1]] + [];
    assert MemberIds([ms[1]]) == [Id("branch", y)] + [];
  }

  lemma SelectedTwo(codec: Codec, a: string, x: string, b: string, y: string)
    requires a in ALLOWED && b in ALLOWED && a != "arguments" && b != "arguments"
    ensures
      var ms := [Member(a, Str(x)), Member(b, Str(y))];
      Selected(codec, ms) == Obj(ms)
  {
    var ms := [Member(a, Str(x)), Member(b, Str(y))];
    assert ms[1..] == [ms[1]] && [ms[1]][1..] == [];
    assert Allowed([ms[1]]) == [ms[1]] + [];
    assert Allowed(ms) == [ms[0]] + [ms[1]] == ms;
    assert Lookup([ms[1]], "arguments") == None;
    assert ms + [] == ms;
  }

  lemma OneMember(p: string)
    ensures Erase(Mention(p)) == Mention(p) && Ids(Mention(p), None) == [Id("branch", p)]
  {
    Facts();
    var ms := Mention(p).members;
    assert ms[1..] == [];
    assert EraseMembers(ms) == [ms[0]] + [];
    assert MemberIds(ms) == [Id("branch", p)] + [];
  }

  lemma TwoItems(a: Value, b: Value)
    ensures EraseItems([a, b]) == [Erase(a), Erase(b)] && ItemIds([a, b], None) == Ids(a, None) + Ids(b, None)
  {
    assert [a, b][1..] == [b] && [b][1..] == [];
    assert EraseItems([b]) == [Erase(b)] + [];
    assert ItemIds([b], None) == Ids(b, None) + [];
  }

  lemma FirstOfTwo(p: string, q: string, more: seq<Id>)
    requires p != q && more in {[], [Id("branch", p), Id("branch", q)], [Id("branch", q), Id("branch", p)]}
    ensures FirstSeen([Id("branch", p), Id("branch", q)] + more, "branch") == [p, q]
    ensures forall ns :: ns != "branch" ==> FirstSeen([Id("branch", p), Id("branch", q)] + more, ns) == []
  {
    forall ns
      ensures FirstSeen([Id("branch", p), Id("branch", q)] + more, ns) == if ns == "branch" then [p, q] else []
    {
      var two := [Id("branch", p), Id("branch", q)];
      assert two[..1] == [Id("branch", p)] && [Id("branch", p)][..0] == [];
      assert FirstSeen([Id("branch", p)], ns) == if ns == "branch" then [] + [p] else [];
      assert FirstSeen(two, ns) == if ns == "branch" then [p, q] else [];
      if more == [] {
        assert two + more == two;
      } else {
        assert (two + more)[..3] == two + [more[0]] && (two + more)[..3][..2] == two;
        assert FirstSeen(two + [more[0]], ns) == FirstSeen(two, ns);
      }
    }
  }

  /** What is kept of the example at the two coarser levels, and which identifiers are met. */
  lemma ExampleKept(codec: Codec, p: string, q: string, swapped: bool)
    ensures
      var action := if swapped then Swapped(p, q) else Listed(p, q);
      var met := if swapped then [Id("branch", q), Id("branch", p)] else [Id("branch", p), Id("branch", q)];
      var r := Example(p, q, action);
      && Kept(codec, r, O0) == Arr([Obj([]), Obj(action)])
      && Ids(Kept(codec, r, O0), None) == met
      && Kept(codec, r, O1) == Arr([Obj([]), Arr([Mention(p), Mention(q)]), Obj(action)])
      && Ids(Kept(codec, r, O1), None) == [Id("branch", p), Id("branch", q)] + met
  {
    Facts();
    var action := if swapped then Swapped(p, q) else Listed(p, q);
    if swapped {
      TwoMembers("target", q, "source", p);
      SelectedTwo(codec, "target", q, "source", p);
    } else {
      TwoMembers("source", p, "target", q);
      SelectedTwo(codec, "source", p, "target", q);
    }
    KeptTwice(codec, p, q, action);
  }

  lemma ThreeItems(a: Value, b: Value, c: Value)
    ensures EraseItems([a, b, c]) == [Erase(a), Erase(b), Erase(c)]
    ensures ItemIds([a, b, c], None) == Ids(a, None) + (Ids(b, None) + Ids(c, None))
  {
    assert [a, b, c][1..] == [b, c];
    TwoItems(b, c);
  }

  lemma EventsKept(p: string, q: string)
    ensures
      var events := Arr([Mention(p), Mention(q)]);
      Erase(events) == events && Ids(events, None) == [Id("branch", p), Id("branch", q)]
  {
    OneMember(p);
    OneMember(q);
    TwoItems(Mention(p), Mention(q));
  }

  lemma NothingKept()
    ensures Erase(Obj([])) == Obj([]) && Ids(Obj([]), None) == []
  {
  }

  lemma KeptCoarse(codec: Codec, r: Record, action: seq<Member>)
    requires r.workspace == Obj([]) && Selected(codec, r.action) == Obj(action) && EraseMembers(action) == action
    ensures Kept(codec, r, O0) == Arr([Obj([]), Obj(action)]) && Ids(Kept(codec, r, O0), None) == MemberIds(action)
  {
    NothingKept();
    TwoItems(Obj([]), Obj(action));
    assert [] + MemberIds(action) == MemberIds(action);
  }

  lemma KeptFine(codec: Codec, r: Record, events: Value, ids: seq<Id>, action: seq<Member>)
    requires r.workspace == Obj([]) && Selected(codec, r.action) == Obj(action) && EraseMembers(action) == action
    requires events == Arr(r.providerEvents) && Erase(events) == events && Ids(events, None) == ids
    ensures Kept(codec, r, O1) == Arr([Obj([]), events, Obj(action)])
    ensures Ids(Kept(codec, r, O1), None) == ids + MemberIds(action)
  {
    NothingKept();
    ThreeItems(Obj([]), events, Obj(action));
    assert [] + (ids + MemberIds(action)) == ids + MemberIds(action);
  }

  lemma KeptTwice(codec: Codec, p: string, q: string, action: seq<Member>)
    requires Selected(codec, action) == Obj(action) && EraseMembers(action) == action
    ensures
      var r := Example(p, q, action);
      && Kept(codec, r, O0) == Arr([Obj([]), Obj(action)])
      && Ids(Kept(codec, r, O0), None) == MemberIds(action)
      && Kept(codec, r, O1) == Arr([Obj([]), Arr([Mention(p), Mention(q)]), Obj(action)])
      && Ids(Kept(codec, r, O1), None) == [Id("branch", p), Id("branch", q)] + MemberIds(action)
  {
    var r := Example(p, q, action);
    EventsKept(p, q);
    KeptCoarse(codec, r, action);
    KeptFine(codec, r, Arr([Mention(p), Mention(q)]), [Id("branch", p), Id("branch", q)], action);
  }

  lemma PairsGood(lex: Lexicon, codec: Codec, ms: seq<Member>)
    requires |ms| == 2 && ms[0].key != ms[1].key
    requires SafeText(lex, codec.quote, ms[0].key) && SafeText(lex, codec.quote, ms[1].key)
    requires GoodValue(lex, codec, ms[0].value) && GoodValue(lex, codec, ms[1].value)
    ensures GoodValue(lex, codec, Obj(ms))
  {
    GoodJoin(lex, codec, ms[1], []);
    assert [ms[1]] + [] == [ms[1]];
    GoodJoin(lex, codec, ms[0], [ms[1]]);
    assert [ms[0]] + [ms[1]] == ms;
  }

  lemma ExampleGood(lex: Lexicon, codec: Codec, p: string, q: string, action: seq<Member>)
    requires Standard(lex, codec) && SafeText(lex, codec.quote, p) && SafeText(lex, codec.quote, q)
    requires action == Listed(p, q) || action == Swapped(p, q)
    ensures Good(lex, codec, Example(p, q, action))
  {
    Facts();
    PairsGood(lex, codec, action);
    assert GoodValue(lex, codec, Obj([])) && GoodValue(lex, codec, Arr([]));
    GoodJoin(lex, codec, Member("branch_id", Str(p)), []);
    GoodJoin(lex, codec, Member("branch_id", Str(q)), []);
    assert [Member("branch_id", Str(p))] + [] == Mention(p).members;
    assert [Member("branch_id", Str(q))] + [] == Mention(q).members;
    ItemsGood(lex, codec, [Mention(p), Mention(q)]);
  }

  lemma SwappedTree(p: string, q: string)
    ensures TreeOf(Obj(Listed(p, q))) == TreeOf(Obj(Swapped(p, q)))
    ensures BranchOf(Listed(p, q)) == map["source" := Word(p), "target" := Word(q)]
  {
    Facts();
    var a, b := Listed(p, q), Swapped(p, q);
    assert a[1..] == [a[1]] && [a[1]][1..] == [] && b[1..] == [b[1]] && [b[1]][1..] == [];
    assert BranchOf([a[1]]) == map["target" := Word(q)];
    assert BranchOf([b[1]]) == map["source" := Word(p)];
  }

  /** A renaming that carries the two members to themselves does not exchange them. */
  lemma {:induction false} SourceStays(rho: Renamer, p: string, q: string)
    requires
      var t := TreeOf(Obj(Listed(p, q)));
      ApplyTree(rho, t, None) == t
    ensures rho(Id("branch", p)) == p
  {
    var t := TreeOf(Obj(Listed(p, q)));
    SwappedTree(p, q);
    Facts();
    MembersCarried(rho, t, t, "source");
  }

  lemma {:induction false} SecondCarried(rho: Renamer, a: Value, b: Value, c: Value, d: Value)
    requires ApplyTree(rho, TreeOf(Arr([a, b])), None) == TreeOf(Arr([c, d]))
    ensures ApplyTree(rho, TreeOf(b), None) == TreeOf(d)
  {
    TreesAt([a, b], 1);
    TreesAt([c, d], 1);
    assert ApplyTree(rho, TreeOf(Arr([a, b])), None).items[1] == TreeOf(Arr([c, d])).items[1];
  }

  lemma {:induction false} NotCarried(rho: Renamer, p: string, q: string, u: Value, w: Value)
    requires p != q
    requires u == Arr([Obj([]), Obj(Listed(p, q))]) && Ids(u, None) == [Id("branch", p), Id("branch", q)]
    requires w == Arr([Obj([]), Obj(Swapped(p, q))]) && Ids(w, None) == [Id("branch", q), Id("branch", p)]
    ensures !Carries(rho, u, w)
  {
    SwappedTree(p, q);
    FirstOfTwo(p, q, []);
    FirstOfTwo(q, p, []);
    assert Ids(u, None) + [] == Ids(u, None) && Ids(w, None) + [] == Ids(w, None);
    if ApplyTree(rho, TreeOf(u), None) == TreeOf(w) {
      SecondCarried(rho, Obj([]), Obj(Listed(p, q)), Obj([]), Obj(Swapped(p, q)));
      SourceStays(rho, p, q);
      assert Renamed(rho, "branch", [p, q])[0] == p;
    }
  }

  lemma {:induction false} CoarseKeysDiffer(codec: Codec, p: string, q: string)
    requires p != q
    ensures !Carried(Kept(codec, Example(p, q, Listed(p, q)), O0), Kept(codec, Example(p, q, Swapped(p, q)), O0))
  {
    var u, w := Kept(codec, Example(p, q, Listed(p, q)), O0), Kept(codec, Example(p, q, Swapped(p, q)), O0);
    ExampleKept(codec, p, q, false);
    ExampleKept(codec, p, q, true);
    forall rho: Renamer ensures !Carries(rho, u, w) {
      NotCarried(rho, p, q, u, w);
    }
  }

  lemma {:induction false} FineKeysAgree(codec: Codec, p: string, q: string)
    requires p != q
    ensures Carried(Kept(codec, Example(p, q, Listed(p, q)), O1), Kept(codec, Example(p, q, Swapped(p, q)), O1))
  {
    var u, w := Kept(codec, Example(p, q, Listed(p, q)), O1), Kept(codec, Example(p, q, Swapped(p, q)), O1);
    ExampleKept(codec, p, q, false);
    ExampleKept(codec, p, q, true);
    SwappedTree(p, q);
    FirstOfTwo(p, q, [Id("branch", p), Id("branch", q)]);
    FirstOfTwo(p, q, [Id("branch", q), Id("branch", p)]);
    RowTree(u.items, w.items);
    var same: Renamer := (id: Id) => id.text;
    ApplyNothing(u, None);
    TreeApplies(same, u, None);
    forall ns ensures FirstSeen(Ids(w, None), ns) == Renamed(same, ns, FirstSeen(Ids(u, None), ns)) {
      assert FirstSeen(Ids(w, None), ns) == FirstSeen(Ids(u, None), ns);
    }
    assert Carries(same, u, w);
  }

  /**
   For any two branches: two records whose dictionaries are equal, and whose keys are equal at O1,
   have different keys at O0, because the action lists its members in a different order.
   */
  lemma {:induction false} OrderMatters(lex: Lexicon, codec: Codec, p: string, q: string)
    requires Standard(lex, codec) && SafeText(lex, codec.quote, p) && SafeText(lex, codec.quote, q) && p != q
    ensures
      var r, r' := Example(p, q, Listed(p, q)), Example(p, q, Swapped(p, q));
      && TreeOf(Obj(r.action)) == TreeOf(Obj(r'.action)) && r' == r.(action := r'.action)
      && RecordKey(codec, r, O1) == RecordKey(codec, r', O1)
      && RecordKey(codec, r, O0) != RecordKey(codec, r', O0)
  {
    var r, r' := Example(p, q, Listed(p, q)), Example(p, q, Swapped(p, q));
    SwappedTree(p, q);
    ExampleGood(lex, codec, p, q, Listed(p, q));
    ExampleGood(lex, codec, p, q, Swapped(p, q));
    EqualKeysIff(lex, codec, r, r', O0);
    EqualKeysIff(lex, codec, r, r', O1);
    CoarseKeysDiffer(codec, p, q);
    FineKeysAgree(codec, p, q);
  }
}
