/**
 `canonical_json`: compact JSON with the members of every object sorted by name.  Its text identifies
 a value up to the order of members, and nothing more.
 */
module CanonicalJson {
  import opened Json
  import opened Unambiguous
  import opened Canonical

  // ----- The order of names -----

  /** Strings are compared by code point, as Python does. */
  predicate Less(a: string, b: string) {
    b != [] && (a == [] || a[0] < b[0] || (a[0] == b[0] && Less(a[1..], b[1..])))
  }

  lemma {:induction false} LessTotal(a: string, b: string)
    ensures a == b || Less(a, b) || Less(b, a)
  {
    if a != [] && b != [] && a[0] == b[0] {
      LessTotal(a[1..], b[1..]);
      assert a == [a[0]] + a[1..] && b == [b[0]] + b[1..];
    }
  }

  lemma {:induction false} LessAsymmetric(a: string, b: string)
    requires Less(a, b)
    ensures !Less(b, a)
  {
    if a != [] && a[0] == b[0] {
      LessAsymmetric(a[1..], b[1..]);
    }
  }

  lemma {:induction false} LessTransitive(a: string, b: string, c: string)
    requires Less(a, b) && Less(b, c)
    ensures Less(a, c)
  {
    if a != [] && a[0] == b[0] == c[0] {
      LessTransitive(a[1..], b[1..], c[1..]);
    }
  }

  // ----- Sorting -----

  function Insert(m: Member, ms: seq<Member>): seq<Member> {
    if ms == [] || Less(m.key, ms[0].key) then [m] + ms else [ms[0]] + Insert(m, ms[1..])
  }

  /** What `sort_keys` does to a value before it is written. */
  function Sorted(v: Value): Value
    decreases v, 1
  {
    match v
    case Atom(_) => v
    case Str(_) => v
    case Arr(items) => Arr(SortedItems(items))
    case Obj(members) => Obj(SortedMembers(members))
  }

  function SortedItems(items: seq<Value>): seq<Value>
    decreases items, 0
  {
    if items == [] then [] else [Sorted(items[0])] + SortedItems(items[1..])
  }

  function SortedMembers(ms: seq<Member>): seq<Member>
    decreases ms, 0
  {
    if ms == [] then [] else Insert(Member(ms[0].key, Sorted(ms[0].value)), SortedMembers(ms[1..]))
  }

  function CanonicalText(quote: Quote, v: Value): Bytes {
    Compact(quote, Sorted(v))
  }

  // ----- Values up to the order of members -----

  datatype Tree = Leaf(token: Bytes) | Word(text: Bytes) | Row(items: seq<Tree>) | Branch(members: map<Bytes, Tree>)

  function TreeOf(v: Value): Tree
    decreases v, 1
  {
    match v
    case Atom(token) => Leaf(token)
    case Str(text) => Word(text)
    case Arr(items) => Row(TreesOf(items))
    case Obj(members) => Branch(BranchOf(members))
  }

  function TreesOf(items: seq<Value>): (ts: seq<Tree>)
    ensures |ts| == |items|
    decreases items, 0
  {
    if items == [] then [] else [TreeOf(items[0])] + TreesOf(items[1..])
  }

  function BranchOf(ms: seq<Member>): (branch: map<Bytes, Tree>)
    ensures forall key :: key in branch <==> HasKey(ms, key)
    decreases ms, 0
  {
    if ms == [] then map[]
    else
      assert forall key :: HasKey(ms, key) <==> ms[0].key == key || HasKey(ms[1..], key) by {
        KeysSplit(ms);
      }
      BranchOf(ms[1..])[ms[0].key := TreeOf(ms[0].value)]
  }

  lemma KeysSplit(ms: seq<Member>)
    requires ms != []
    ensures forall key :: HasKey(ms, key) <==> ms[0].key == key || HasKey(ms[1..], key)
  {
    forall key | HasKey(ms, key) ensures ms[0].key == key || HasKey(ms[1..], key) {
      var i :| 0 <= i < |ms| && ms[i].key == key;
      if i > 0 {
        assert ms[1..][i - 1].key == key;
      }
    }
    forall key | HasKey(ms[1..], key) ensures HasKey(ms, key) {
      var i :| 0 <= i < |ms[1..]| && ms[1..][i].key == key;
      assert ms[i + 1].key == key;
    }
  }

  /** The members of every object are strictly sorted by name. */
  predicate Ordered(v: Value)
    decreases v, 1
  {
    match v
    case Atom(_) => true
    case Str(_) => true
    case Arr(items) => OrderedItems(items)
    case Obj(members) => OrderedMembers(members)
  }

  predicate OrderedItems(items: seq<Value>)
    decreases items, 0
  {
    items == [] || (Ordered(items[0]) && OrderedItems(items[1..]))
  }

  predicate Before(key: Bytes, ms: seq<Member>) {
    forall i :: 0 <= i < |ms| ==> Less(key, ms[i].key)
  }

  predicate OrderedMembers(ms: seq<Member>)
    decreases ms, 0
  {
    ms == [] || (Ordered(ms[0].value) && Before(ms[0].key, ms[1..]) && OrderedMembers(ms[1..]))
  }

  // ----- Sorting orders, and keeps the tree -----

  lemma DistinctSplit(ms: seq<Member>)
    requires NoRepeats(Obj(ms)) && ms != []
    ensures NoRepeats(ms[0].value) && NoRepeats(Obj(ms[1..])) && !HasKey(ms[1..], ms[0].key)
  {
    forall i, j | 0 <= i < j < |ms[1..]| ensures ms[1..][i].key != ms[1..][j].key {
      assert ms[i + 1].key != ms[j + 1].key;
    }
    forall i | 0 <= i < |ms[1..]| ensures NoRepeats(ms[1..][i].value) && ms[1..][i].key != ms[0].key {
      assert NoRepeats(ms[i + 1].value) && ms[0].key != ms[i + 1].key;
    }
  }

  lemma BeforeAll(a: Bytes, b: Bytes, ms: seq<Member>)
    requires Less(a, b) && Before(b, ms)
    ensures Before(a, ms)
  {
    forall i | 0 <= i < |ms| ensures Less(a, ms[i].key) {
      LessTransitive(a, b, ms[i].key);
    }
  }

  lemma {:induction false} InsertBefore(key: Bytes, m: Member, ms: seq<Member>)
    requires Less(key, m.key) && Before(key, ms)
    ensures Before(key, Insert(m, ms))
  {
    if ms != [] && !Less(m.key, ms[0].key) {
      InsertBefore(key, m, ms[1..]);
    }
  }

  /** The first member and the others. */
  lemma Cons(m: Member, ms: seq<Member>)
    ensures ([m] + ms)[0] == m && ([m] + ms)[1..] == ms
    ensures BranchOf([m] + ms) == BranchOf(ms)[m.key := TreeOf(m.value)]
    ensures OrderedMembers([m] + ms) <==> Ordered(m.value) && Before(m.key, ms) && OrderedMembers(ms)
  {
    assert ([m] + ms)[1..] == ms;
  }

  lemma {:induction false} InsertOrders(m: Member, ms: seq<Member>)
    requires OrderedMembers(ms) && Ordered(m.value) && !HasKey(ms, m.key)
    ensures OrderedMembers(Insert(m, ms))
  {
    if ms == [] || Less(m.key, ms[0].key) {
      Cons(m, ms);
      if ms != [] {
        BeforeAll(m.key, ms[0].key, ms[1..]);
      }
    } else {
      KeysSplit(ms);
      LessTotal(ms[0].key, m.key);
      InsertOrders(m, ms[1..]);
      InsertBefore(ms[0].key, m, ms[1..]);
      Cons(ms[0], Insert(m, ms[1..]));
    }
  }

  lemma MapUpdatesCommute(b: map<Bytes, Tree>, j: Bytes, t: Tree, k: Bytes, u: Tree)
    requires j != k
    ensures b[j := t][k := u] == b[k := u][j := t]
  {
  }

  lemma {:induction false} InsertAdds(m: Member, ms: seq<Member>)
    requires !HasKey(ms, m.key)
    ensures BranchOf(Insert(m, ms)) == BranchOf(ms)[m.key := TreeOf(m.value)]
  {
    if ms == [] || Less(m.key, ms[0].key) {
      Cons(m, ms);
    } else {
      KeysSplit(ms);
      InsertAdds(m, ms[1..]);
      Cons(ms[0], Insert(m, ms[1..]));
      MapUpdatesCommute(BranchOf(ms[1..]), m.key, TreeOf(m.value), ms[0].key, TreeOf(ms[0].value));
    }
  }

  lemma {:induction false} SortedKeeps(v: Value)
    requires NoRepeats(v)
    ensures Ordered(Sorted(v)) && TreeOf(Sorted(v)) == TreeOf(v)
    decreases v, 1
  {
    match v
    case Atom(_) =>
    case Str(_) =>
    case Arr(items) => SortedItemsKeep(items);
    case Obj(members) => SortedMembersKeep(members);
  }

  lemma {:induction false} SortedItemsKeep(items: seq<Value>)
    requires forall i :: 0 <= i < |items| ==> NoRepeats(items[i])
    ensures OrderedItems(SortedItems(items)) && TreesOf(SortedItems(items)) == TreesOf(items)
    decreases items, 0
  {
    if items != [] {
      SortedKeeps(items[0]);
      SortedItemsKeep(items[1..]);
      assert SortedItems(items)[1..] == SortedItems(items[1..]);
    }
  }

  lemma {:induction false} SortedMembersKeep(ms: seq<Member>)
    requires NoRepeats(Obj(ms))
    ensures OrderedMembers(SortedMembers(ms)) && BranchOf(SortedMembers(ms)) == BranchOf(ms)
    decreases ms, 0
  {
    if ms != [] {
      DistinctSplit(ms);
      SortedKeeps(ms[0].value);
      SortedMembersKeep(ms[1..]);
      var rest := SortedMembers(ms[1..]);
      assert HasKey(rest, ms[0].key) <==> ms[0].key in BranchOf(rest);
      InsertOrders(Member(ms[0].key, Sorted(ms[0].value)), rest);
      InsertAdds(Member(ms[0].key, Sorted(ms[0].value)), rest);
    }
  }

  // ----- An ordered value is determined by its tree -----

  lemma {:induction false} OrderedByTree(v: Value, w: Value)
    requires Ordered(v) && Ordered(w) && TreeOf(v) == TreeOf(w)
    ensures v == w
    decreases v, 1
  {
    match v
    case Atom(_) =>
    case Str(_) =>
    case Arr(items) => OrderedItemsByTree(items, w.items);
    case Obj(members) => OrderedMembersByTree(members, w.members);
  }

  lemma {:induction false} OrderedItemsByTree(a: seq<Value>, b: seq<Value>)
    requires OrderedItems(a) && OrderedItems(b) && TreesOf(a) == TreesOf(b)
    ensures a == b
    decreases a, 0
  {
    if a != [] {
      assert |TreesOf(a)| == |TreesOf(b)|;
      assert TreesOf(a)[0] == TreesOf(b)[0];
      assert TreesOf(a)[1..] == TreesOf(a[1..]) && TreesOf(b)[1..] == TreesOf(b[1..]);
      OrderedByTree(a[0], b[0]);
      OrderedItemsByTree(a[1..], b[1..]);
      assert a == [a[0]] + a[1..] && b == [b[0]] + b[1..];
    }
  }

  lemma FirstIsLeast(ms: seq<Member>, key: Bytes)
    requires OrderedMembers(ms) && HasKey(ms, key)
    ensures ms[0].key == key || Less(ms[0].key, key)
  {
    KeysSplit(ms);
  }

  lemma BranchEmpty(ms: seq<Member>)
    ensures BranchOf(ms) == map[] <==> ms == []
  {
    assert ms != [] ==> ms[0].key in BranchOf(ms);
  }

  lemma NotAgain(ms: seq<Member>)
    requires ms != [] && OrderedMembers(ms)
    ensures !HasKey(ms[1..], ms[0].key)
  {
    if Less(ms[0].key, ms[0].key) {
      LessAsymmetric(ms[0].key, ms[0].key);
    }
  }

  lemma AddThenRemove(b: map<Bytes, Tree>, key: Bytes, t: Tree)
    requires key !in b
    ensures b[key := t] - {key} == b
  {
  }

  lemma BranchRest(ms: seq<Member>)
    requires ms != [] && OrderedMembers(ms)
    ensures BranchOf(ms[1..]) == BranchOf(ms) - {ms[0].key}
  {
    NotAgain(ms);
    AddThenRemove(BranchOf(ms[1..]), ms[0].key, TreeOf(ms[0].value));
  }

  lemma {:induction false} SameFirstKey(a: seq<Member>, b: seq<Member>)
    requires OrderedMembers(a) && OrderedMembers(b) && BranchOf(a) == BranchOf(b) && a != []
    ensures b != [] && a[0].key == b[0].key
  {
    assert a[0].key in BranchOf(b);
    assert b[0].key in BranchOf(a);
    FirstIsLeast(a, b[0].key);
    FirstIsLeast(b, a[0].key);
    if a[0].key != b[0].key {
      LessAsymmetric(a[0].key, b[0].key);
    }
  }

  lemma {:induction false} OrderedMembersByTree(a: seq<Member>, b: seq<Member>)
    requires OrderedMembers(a) && OrderedMembers(b) && BranchOf(a) == BranchOf(b)
    ensures a == b
    decreases a, 0
  {
    BranchEmpty(a);
    BranchEmpty(b);
    if a != [] {
      SameFirstKey(a, b);
      assert BranchOf(a)[a[0].key] == BranchOf(b)[a[0].key];
      OrderedByTree(a[0].value, b[0].value);
      BranchRest(a);
      BranchRest(b);
      OrderedMembersByTree(a[1..], b[1..]);
      assert a == [a[0]] + a[1..] && b == [b[0]] + b[1..];
    }
  }

  // ----- The text -----

  lemma {:induction false} OrderedHasNoRepeats(v: Value)
    requires Ordered(v)
    ensures NoRepeats(v)
    decreases v, 1
  {
    match v
    case Atom(_) =>
    case Str(_) =>
    case Arr(items) => OrderedItemsHaveNoRepeats(items);
    case Obj(members) => OrderedMembersHaveNoRepeats(members);
  }

  lemma {:induction false} OrderedItemsHaveNoRepeats(items: seq<Value>)
    requires OrderedItems(items)
    ensures forall i :: 0 <= i < |items| ==> NoRepeats(items[i])
    decreases items, 0
  {
    if items != [] {
      OrderedHasNoRepeats(items[0]);
      OrderedItemsHaveNoRepeats(items[1..]);
      assert items == [items[0]] + items[1..];
    }
  }

  lemma {:induction false} OrderedMembersHaveNoRepeats(ms: seq<Member>)
    requires OrderedMembers(ms)
    ensures NoRepeats(Obj(ms))
    decreases ms, 0
  {
    if ms != [] {
      OrderedHasNoRepeats(ms[0].value);
      OrderedMembersHaveNoRepeats(ms[1..]);
      assert ms == [ms[0]] + ms[1..];
      forall i, j | 0 <= i < j < |ms| ensures ms[i].key != ms[j].key {
        if i == 0 {
          assert Less(ms[0].key, ms[1..][j - 1].key);
          LessAsymmetric(ms[0].key, ms[j].key);
        } else {
          assert ms[1..][i - 1].key != ms[1..][j - 1].key;
        }
      }
    }
  }

  lemma {:induction false} InsertWritable(lex: Lexicon, quote: Quote, m: Member, ms: seq<Member>)
    requires SafeText(lex, quote, m.key) && Writable(lex, quote, m.value) && WritableMembers(lex, quote, ms)
    ensures WritableMembers(lex, quote, Insert(m, ms))
  {
    if ms == [] || Less(m.key, ms[0].key) {
      assert ([m] + ms)[1..] == ms;
    } else {
      InsertWritable(lex, quote, m, ms[1..]);
      assert ([ms[0]] + Insert(m, ms[1..]))[1..] == Insert(m, ms[1..]);
    }
  }

  lemma {:induction false} SortedWritable(lex: Lexicon, quote: Quote, v: Value)
    requires Writable(lex, quote, v)
    ensures Writable(lex, quote, Sorted(v))
    decreases v, 1
  {
    match v
    case Atom(_) =>
    case Str(_) =>
    case Arr(items) => SortedItemsWritable(lex, quote, items);
    case Obj(members) => SortedMembersWritable(lex, quote, members);
  }

  lemma {:induction false} SortedItemsWritable(lex: Lexicon, quote: Quote, items: seq<Value>)
    requires WritableItems(lex, quote, items)
    ensures WritableItems(lex, quote, SortedItems(items))
    decreases items, 0
  {
    if items != [] {
      SortedWritable(lex, quote, items[0]);
      SortedItemsWritable(lex, quote, items[1..]);
      assert SortedItems(items)[1..] == SortedItems(items[1..]);
    }
  }

  lemma {:induction false} SortedMembersWritable(lex: Lexicon, quote: Quote, ms: seq<Member>)
    requires WritableMembers(lex, quote, ms)
    ensures WritableMembers(lex, quote, SortedMembers(ms))
    decreases ms, 0
  {
    if ms != [] {
      SortedWritable(lex, quote, ms[0].value);
      SortedMembersWritable(lex, quote, ms[1..]);
      InsertWritable(lex, quote, Member(ms[0].key, Sorted(ms[0].value)), SortedMembers(ms[1..]));
    }
  }

  /** A compact text can be written for one value only. */
  lemma {:induction false} CompactInjective(lex: Lexicon, quote: Quote, v: Value, w: Value)
    requires ValidLexicon(lex) && Writable(lex, quote, v) && Writable(lex, quote, w) && NoRepeats(v) && NoRepeats(w)
    requires Compact(quote, v) == Compact(quote, w)
    ensures v == w
  {
    var text := Compact(quote, v);
    CompactMeans(lex, quote, v);
    CompactMeans(lex, quote, w);
    assert [] + text + [] == text;
    OneReading(lex, text, CompactNode(quote, v), [], [], CompactNode(quote, w), [], []);
  }

  /** Two values have the same canonical text exactly when they differ at most in the order of members. */
  lemma {:induction false} SameTextIffSameTree(lex: Lexicon, quote: Quote, v: Value, w: Value)
    requires ValidLexicon(lex) && Writable(lex, quote, v) && Writable(lex, quote, w) && NoRepeats(v) && NoRepeats(w)
    ensures CanonicalText(quote, v) == CanonicalText(quote, w) <==> TreeOf(v) == TreeOf(w)
  {
    SortedKeeps(v);
    SortedKeeps(w);
    if TreeOf(v) == TreeOf(w) {
      OrderedByTree(Sorted(v), Sorted(w));
    }
    if CanonicalText(quote, v) == CanonicalText(quote, w) {
      SortedWritable(lex, quote, v);
      SortedWritable(lex, quote, w);
      OrderedHasNoRepeats(Sorted(v));
      OrderedHasNoRepeats(Sorted(w));
      CompactInjective(lex, quote, Sorted(v), Sorted(w));
    }
  }
}
