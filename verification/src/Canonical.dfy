/**
 The sibling checkers hash a re-encoding of the decoded `data` value instead of the bytes in the file,
 and insist that the whole frame equals its own re-encoding.  Those bytes are what the scanner cuts.
 */
module Canonical {
  import opened Options
  import opened Json
  import opened Scanner
  import opened ScannerTheorems
  import opened History
  import opened HistoryTheorems

  /** How the encoder escapes a string; both settings of `ensure_ascii` are instances. */
  type Quote = Bytes -> Bytes

  // ----- Compact encoding -----

  /** `json.dumps` with separators `,` and `:`, members in the order they are held. */
  function CompactNode(quote: Quote, v: Value): Node
    decreases v, 1
  {
    match v
    case Atom(token) => Scalar(token)
    case Str(s) => Text(quote(s))
    case Arr(items) => Composite(false, ItemEntries(quote, items), [])
    case Obj(members) => Composite(true, MemberEntries(quote, members), [])
  }

  function ItemEntries(quote: Quote, items: seq<Value>): (es: seq<Entry>)
    ensures |es| == |items|
    decreases items, 0
  {
    if items == [] then [] else [Entry([], None, CompactNode(quote, items[0]), [])] + ItemEntries(quote, items[1..])
  }

  function MemberEntries(quote: Quote, ms: seq<Member>): (es: seq<Entry>)
    ensures |es| == |ms|
    decreases ms, 0
  {
    if ms == [] then []
    else
      [Entry([], Some(Name(quote(ms[0].key), [], [])), CompactNode(quote, ms[0].value), [])]
      + MemberEntries(quote, ms[1..])
  }

  function Compact(quote: Quote, v: Value): Bytes {
    Print(CompactNode(quote, v))
  }

  /** The encodings of the items with commas between them. */
  function JoinedItems(quote: Quote, items: seq<Value>): Bytes {
    if items == [] then []
    else if |items| == 1 then Compact(quote, items[0])
    else Compact(quote, items[0]) + "," + JoinedItems(quote, items[1..])
  }

  /** The quoted names and the encodings of the members, with colons and commas between them. */
  function JoinedMembers(quote: Quote, ms: seq<Member>): Bytes {
    if ms == [] then []
    else
      var first := "\"" + quote(ms[0].key) + "\"" + ":" + Compact(quote, ms[0].value);
      if |ms| == 1 then first else first + "," + JoinedMembers(quote, ms[1..])
  }

  lemma {:induction false} ItemsJoined(quote: Quote, items: seq<Value>)
    requires items != []
    ensures PrintEntries(ItemEntries(quote, items)) == JoinedItems(quote, items)
    decreases |items|
  {
    var es := ItemEntries(quote, items);
    assert PrintEntry(es[0]) == Compact(quote, items[0]);
    assert es[1..] == ItemEntries(quote, items[1..]);
    if |items| > 1 {
      ItemsJoined(quote, items[1..]);
    }
  }

  lemma {:induction false} MembersJoined(quote: Quote, ms: seq<Member>)
    requires ms != []
    ensures PrintEntries(MemberEntries(quote, ms)) == JoinedMembers(quote, ms)
    decreases |ms|
  {
    var es := MemberEntries(quote, ms);
    assert PrintEntry(es[0]) == "\"" + quote(ms[0].key) + "\"" + ":" + Compact(quote, ms[0].value);
    assert es[1..] == MemberEntries(quote, ms[1..]);
    if |ms| > 1 {
      MembersJoined(quote, ms[1..]);
    }
  }

  /** Compact text, spelled: no blanks anywhere, and items and members in the order in which they are held. */
  lemma {:induction false} CompactSpelled(quote: Quote, v: Value)
    ensures
      Compact(quote, v) ==
        match v
        case Atom(token) => token
        case Str(s) => "\"" + quote(s) + "\""
        case Arr(items) => "[" + JoinedItems(quote, items) + "]"
        case Obj(members) => "{" + JoinedMembers(quote, members) + "}"
  {
    if v.Arr? && v.items != [] {
      ItemsJoined(quote, v.items);
    } else if v.Obj? && v.members != [] {
      MembersJoined(quote, v.members);
    }
  }

  predicate SafeText(lex: Lexicon, quote: Quote, s: Bytes) {
    lex.text(quote(s)) == Some(s)
  }

  predicate IsPlain(s: Bytes) {
    forall i :: 0 <= i < |s| ==> s[i] == '_' || s[i] == '-' || 'a' <= s[i] <= 'z' || '0' <= s[i] <= '9'
  }

  /** The encoder leaves plain text as it is, and the decoder reads it so. */
  ghost predicate KeepsPlain(lex: Lexicon, quote: Quote) {
    forall s :: IsPlain(s) ==> SafeText(lex, quote, s)
  }

  /** Every token of the value is legal and every string survives being escaped and read again. */
  predicate Writable(lex: Lexicon, quote: Quote, v: Value)
    decreases v, 1
  {
    match v
    case Atom(token) => lex.scalar(token) == Some(token)
    case Str(s) => SafeText(lex, quote, s)
    case Arr(items) => WritableItems(lex, quote, items)
    case Obj(members) => WritableMembers(lex, quote, members)
  }

  predicate WritableItems(lex: Lexicon, quote: Quote, items: seq<Value>)
    decreases items, 0
  {
    items == [] || (Writable(lex, quote, items[0]) && WritableItems(lex, quote, items[1..]))
  }

  predicate WritableMembers(lex: Lexicon, quote: Quote, ms: seq<Member>)
    decreases ms, 0
  {
    ms == [] ||
    (SafeText(lex, quote, ms[0].key) && Writable(lex, quote, ms[0].value) && WritableMembers(lex, quote, ms[1..]))
  }

  lemma {:induction false} CompactMeans(lex: Lexicon, quote: Quote, v: Value)
    requires Writable(lex, quote, v)
    ensures Legal(lex, CompactNode(quote, v)) && Meaning(lex, CompactNode(quote, v)) == v
    decreases v, 1
  {
    match v
    case Atom(token) =>
    case Str(s) =>
    case Arr(items) => ItemsMean(lex, quote, items);
    case Obj(members) => MembersMean(lex, quote, members);
  }

  lemma {:induction false} ItemsMean(lex: Lexicon, quote: Quote, items: seq<Value>)
    requires WritableItems(lex, quote, items)
    ensures
      var es := ItemEntries(quote, items);
      LegalEntries(lex, es, false) && ItemsOf(lex, es) == items
    decreases items, 0
  {
    if items != [] {
      CompactMeans(lex, quote, items[0]);
      ItemsMean(lex, quote, items[1..]);
      assert ItemEntries(quote, items)[1..] == ItemEntries(quote, items[1..]);
    }
  }

  lemma EntriesMean(lex: Lexicon, e: Entry, es: seq<Entry>, m: Member, ms: seq<Member>)
    requires LegalEntry(lex, e, true) && Member(KeyOf(lex, e), Meaning(lex, e.value)) == m
    requires LegalEntries(lex, es, true) && MembersOf(lex, es) == ms
    ensures LegalEntries(lex, [e] + es, true) && MembersOf(lex, [e] + es) == [m] + ms
  {
    assert ([e] + es)[1..] == es;
  }

  lemma {:induction false} MembersMean(lex: Lexicon, quote: Quote, ms: seq<Member>)
    requires WritableMembers(lex, quote, ms)
    ensures
      var es := MemberEntries(quote, ms);
      LegalEntries(lex, es, true) && MembersOf(lex, es) == ms
    decreases ms, 0
  {
    if ms != [] {
      CompactMeans(lex, quote, ms[0].value);
      MembersMean(lex, quote, ms[1..]);
      var e := Entry([], Some(Name(quote(ms[0].key), [], [])), CompactNode(quote, ms[0].value), []);
      EntriesMean(lex, e, MemberEntries(quote, ms[1..]), ms[0], ms[1..]);
      assert ms == [ms[0]] + ms[1..];
    }
  }

  /** Decoding undoes compact encoding. */
  lemma {:induction false} CompactRoundTrip(lex: Lexicon, quote: Quote, decode: Bytes -> Option<Value>, v: Value)
    requires IsDecoder(lex, decode) && Writable(lex, quote, v) && NoRepeats(v)
    requires Depth(CompactNode(quote, v)) <= lex.nesting
    ensures decode(Compact(quote, v)) == Some(v)
  {
    CompactMeans(lex, quote, v);
    assert [] + Compact(quote, v) + [] == Compact(quote, v);
    assert Spells(lex, Compact(quote, v), CompactNode(quote, v), [], []);
  }

  lemma {:induction false} MemberEntryAt(quote: Quote, ms: seq<Member>, i: nat)
    requires i < |ms|
    ensures
      MemberEntries(quote, ms)[i]
      == Entry([], Some(Name(quote(ms[i].key), [], [])), CompactNode(quote, ms[i].value), [])
    decreases i
  {
    if i > 0 {
      MemberEntryAt(quote, ms[1..], i - 1);
    }
  }

  /** In a compact object text, the cut member is the compact text of the member's value. */
  lemma {:induction false} CutIsReencoding(
    lex: Lexicon, quote: Quote, decode: Bytes -> Option<Value>, ms: seq<Member>, i: nat)
    requires ValidLexicon(lex) && IsDecoder(lex, decode)
    requires Writable(lex, quote, Obj(ms)) && DistinctKeys(ms) && i < |ms|
    ensures RawObjectMember(Compact(quote, Obj(ms)), ms[i].key, decode) == Some(Compact(quote, ms[i].value))
  {
    var n := CompactNode(quote, Obj(ms));
    var es := n.entries;
    CompactMeans(lex, quote, Obj(ms));
    MembersAt(lex, es, true, i);
    forall j: nat | NamedAt(lex, es, ms[i].key, j) ensures j == i {
      MembersAt(lex, es, true, j);
    }
    assert Print(n) == [] + Print(n) + [];
    CutsExactBytes(lex, decode, Print(n), n, [], [], ms[i].key, i);
    MemberEntryAt(quote, ms, i);
  }

  // ----- What was decoded can be written again -----

  predicate TokenRewritten(lex: Lexicon, token: Bytes) {
    lex.scalar(token).Some? ==> lex.scalar(lex.scalar(token).value) == lex.scalar(token)
  }

  predicate TextRewritten(lex: Lexicon, quote: Quote, body: Bytes) {
    lex.text(body).Some? ==> SafeText(lex, quote, lex.text(body).value)
  }

  /** What the decoder read, the encoder writes so that it is read the same again. */
  ghost predicate Rewrites(lex: Lexicon, quote: Quote) {
    (forall token :: TokenRewritten(lex, token)) && (forall body :: TextRewritten(lex, quote, body))
  }

  lemma {:induction false} DecodedIsWritable(lex: Lexicon, quote: Quote, n: Node)
    requires Rewrites(lex, quote) && Legal(lex, n)
    ensures Writable(lex, quote, Meaning(lex, n))
    decreases n, 1
  {
    match n
    case Scalar(token) => assert TokenRewritten(lex, token);
    case Text(body) => assert TextRewritten(lex, quote, body);
    case Composite(isObject, entries, gap) => EntriesAreWritable(lex, quote, entries, isObject);
  }

  lemma {:induction false} EntriesAreWritable(lex: Lexicon, quote: Quote, es: seq<Entry>, isObject: bool)
    requires Rewrites(lex, quote) && LegalEntries(lex, es, isObject)
    ensures
      if isObject then WritableMembers(lex, quote, MembersOf(lex, es))
      else WritableItems(lex, quote, ItemsOf(lex, es))
    decreases es, 0
  {
    if es != [] {
      DecodedIsWritable(lex, quote, es[0].value);
      EntriesAreWritable(lex, quote, es[1..], isObject);
      if isObject {
        assert TextRewritten(lex, quote, es[0].name.value.key);
        assert MembersOf(lex, es)[1..] == MembersOf(lex, es[1..]);
      } else {
        assert ItemsOf(lex, es)[1..] == ItemsOf(lex, es[1..]);
      }
    }
  }

  // ----- Canonical texts -----

  /** The payload is the compact text of what it decodes to. */
  predicate IsCanonical(tools: Tools, quote: Quote, payload: Bytes) {
    tools.decode(payload).Some? && Compact(quote, tools.decode(payload).value) == payload
  }

  /**
   On every canonical payload with a `data` member, whatever its other members, the bytes in the file
   are the re-encoded value, so both styles of checker compute the same event hash.
   */
  lemma {:induction false} DigestsAgree(
    lex: Lexicon, tools: Tools, quote: Quote, payload: Bytes, ms: seq<Member>,
    sequence: nat, previous: Bytes, operation: Bytes)
    requires ValidLexicon(lex) && IsDecoder(lex, tools.decode) && Rewrites(lex, quote)
    requires IsCanonical(tools, quote, payload) && tools.decode(payload) == Some(Obj(ms)) && "data" in Names(ms)
    ensures
      var raw := RawObjectMember(payload, "data", tools.decode);
      && raw == Some(Compact(quote, Field(ms, "data")))
      && tools.sha(Preimage(sequence, previous, operation, raw.value))
         == tools.sha(Preimage(sequence, previous, operation, Compact(quote, Field(ms, "data"))))
  {
    var n, left, right :| Spells(lex, payload, n, left, right);
    DecodedIsWritable(lex, quote, n);
    var i :| 0 <= i < |ms| && ms[i].key == "data";
    CutIsReencoding(lex, quote, tools.decode, ms, i);
    LookupAt(ms, i);
  }
}
