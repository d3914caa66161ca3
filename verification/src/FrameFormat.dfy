/**
 The payload of a History frame: an object with six fields, as the runtime's encoder writes it.  What a
 reader makes of such a text, whatever stands in its data.
 */
module FrameFormat {
  import opened Options
  import opened Decimals
  import opened Json
  import opened Scanner
  import opened History
  import opened HistoryTheorems
  import opened Canonical
  import opened Dialects

  function FieldEntry(quote: Quote, key: Bytes, value: Node): Entry {
    Entry([], Some(Name(quote(key), [], [])), value, [])
  }

  /** The last three fields. */
  function LinkEntries(quote: Quote, data: Node, previous: Bytes, hash: Bytes): seq<Entry> {
    [FieldEntry(quote, "data", data)] + (
    [FieldEntry(quote, "previous_hash", Text(quote(previous)))] + (
    [FieldEntry(quote, "hash", Text(quote(hash)))] + []))
  }

  function LinkFields(data: Value, previous: Bytes, hash: Bytes): seq<Member> {
    [Member("data", data)] + ([Member("previous_hash", Str(previous))] + ([Member("hash", Str(hash))] + []))
  }

  function EventEntries(
    quote: Quote, number: Bytes, previous: Bytes, operation: Bytes, data: Node, hash: Bytes): seq<Entry>
  {
    [FieldEntry(quote, "version", Scalar("1"))] + (
    [FieldEntry(quote, "sequence", Scalar(number))] + (
    [FieldEntry(quote, "operation", Text(quote(operation)))] + LinkEntries(quote, data, previous, hash)))
  }

  /** The text of a stored event; `number` is how its sequence is written. */
  function EventNode(
    quote: Quote, number: Bytes, previous: Bytes, operation: Bytes, data: Node, hash: Bytes): Node
  {
    Composite(true, EventEntries(quote, number, previous, operation, data, hash), [])
  }

  /** A name and the text of its value. */
  function Pair(quote: Quote, key: Bytes, text: Bytes): Bytes {
    "\"" + quote(key) + "\":" + text
  }

  lemma PairPrinted(quote: Quote, key: Bytes, n: Node)
    ensures PrintEntry(FieldEntry(quote, key, n)) == Pair(quote, key, Print(n))
  {
  }

  lemma PrintedCons(e: Entry, es: seq<Entry>)
    requires es != []
    ensures PrintEntries([e] + es) == PrintEntry(e) + "," + PrintEntries(es)
  {
    assert ([e] + es)[1..] == es;
  }

  /** The text of a stored event: its six fields in this order, with no blanks between them. */
  lemma {:induction false} EventSpelled(
    quote: Quote, number: Bytes, previous: Bytes, operation: Bytes, data: Node, hash: Bytes)
    ensures
      Print(EventNode(quote, number, previous, operation, data, hash))
      == "{" + (Pair(quote, "version", "1") + "," + (Pair(quote, "sequence", number) + ","
         + (Pair(quote, "operation", Quoted(quote(operation))) + "," + (Pair(quote, "data", Print(data)) + ","
         + (Pair(quote, "previous_hash", Quoted(quote(previous))) + ","
         + Pair(quote, "hash", Quoted(quote(hash)))))))) + "}"
  {
    var v, n := FieldEntry(quote, "version", Scalar("1")), FieldEntry(quote, "sequence", Scalar(number));
    var o, d := FieldEntry(quote, "operation", Text(quote(operation))), FieldEntry(quote, "data", data);
    var p, h := FieldEntry(quote, "previous_hash", Text(quote(previous))), FieldEntry(quote, "hash", Text(quote(hash)));
    PairPrinted(quote, "version", Scalar("1"));
    PairPrinted(quote, "sequence", Scalar(number));
    PairPrinted(quote, "operation", Text(quote(operation)));
    PairPrinted(quote, "data", data);
    PairPrinted(quote, "previous_hash", Text(quote(previous)));
    PairPrinted(quote, "hash", Text(quote(hash)));
    assert [h] + [] == [h];
    PrintedCons(p, [h]);
    PrintedCons(d, [p] + [h]);
    PrintedCons(o, [d] + ([p] + [h]));
    PrintedCons(n, [o] + ([d] + ([p] + [h])));
    PrintedCons(v, [n] + ([o] + ([d] + ([p] + [h]))));
  }

  function Fields(number: Bytes, previous: Bytes, operation: Bytes, data: Value, hash: Bytes): seq<Member> {
    [Member("version", Atom("1"))] + (
    [Member("sequence", Atom(number))] + (
    [Member("operation", Str(operation))] + LinkFields(data, previous, hash)))
  }

  lemma FieldsDistinct(number: Bytes, previous: Bytes, operation: Bytes, data: Value, hash: Bytes)
    ensures DistinctKeys(Fields(number, previous, operation, data, hash))
  {
    assert |"version"| == 7 && |"sequence"| == 8 && |"operation"| == 9 && |"data"| == 4;
    assert |"previous_hash"| == 13 && |"hash"| == 4 && "data"[0] != "hash"[0];
  }

  lemma FieldsRead(number: Bytes, previous: Bytes, operation: Bytes, data: Value, hash: Bytes)
    ensures
      var ms := Fields(number, previous, operation, data, hash);
      && Names(ms) == FIELDS
      && Field(ms, "version") == Atom("1") && Field(ms, "sequence") == Atom(number)
      && Field(ms, "operation") == Str(operation) && Field(ms, "data") == data
      && Field(ms, "previous_hash") == Str(previous) && Field(ms, "hash") == Str(hash)
  {
    var ms := Fields(number, previous, operation, data, hash);
    FieldsDistinct(number, previous, operation, data, hash);
    forall i: nat | i < 6 ensures Lookup(ms, ms[i].key) == Some(ms[i].value) { LookupAt(ms, i); }
    assert ms[0].key == "version" && ms[1].key == "sequence" && ms[2].key == "operation";
    assert ms[3].key == "data" && ms[4].key == "previous_hash" && ms[5].key == "hash";
    assert Names(ms) == FIELDS;
  }

  lemma NoRepeatsInFields(number: Bytes, previous: Bytes, operation: Bytes, data: Value, hash: Bytes)
    ensures NoRepeats(Obj(Fields(number, previous, operation, data, hash))) <==> NoRepeats(data)
  {
    var ms := Fields(number, previous, operation, data, hash);
    FieldsDistinct(number, previous, operation, data, hash);
    assert ms[3].value == data;
    assert forall i :: 0 <= i < 6 && i != 3 ==> NoRepeats(ms[i].value);
  }

  lemma DataIsFourth(
    quote: Quote, number: Bytes, previous: Bytes, operation: Bytes, data: Node, hash: Bytes, name: Bytes, value: Value)
    ensures |EventEntries(quote, number, previous, operation, data, hash)| == 6
    ensures EventEntries(quote, number, previous, operation, data, hash)[3].value == data
    ensures Fields(number, previous, name, value, hash)[3] == Member("data", value)
  {
  }

  // ----- Reading the fields -----

  /** The reader makes these members of the entries, and can read them if `legal`. */
  ghost predicate Mean(lex: Lexicon, es: seq<Entry>, ms: seq<Member>, legal: bool) {
    (LegalEntries(lex, es, true) <==> legal) && MembersOf(lex, es) == ms
  }

  lemma FieldMeans(
    lex: Lexicon, quote: Quote, key: Bytes, n: Node, v: Value, es: seq<Entry>, ms: seq<Member>, legal: bool)
    requires SafeText(lex, quote, key) && Meaning(lex, n) == v && Mean(lex, es, ms, legal)
    ensures Mean(lex, [FieldEntry(quote, key, n)] + es, [Member(key, v)] + ms, Legal(lex, n) && legal)
  {
    var e := FieldEntry(quote, key, n);
    assert ([e] + es)[1..] == es;
    assert LegalEntry(lex, e, true) <==> Legal(lex, n);
  }

  lemma FieldNamesSafe(lex: Lexicon, quote: Quote)
    requires KeepsPlain(lex, quote)
    ensures forall key :: key in FIELDS ==> SafeText(lex, quote, key)
  {
    assert forall key :: key in FIELDS ==> IsPlain(key);
  }

  /** The fields beside the data can be read, with `name` as what the reader makes of the operation. */
  ghost predicate Writes(
    lex: Lexicon, quote: Quote, number: Bytes, previous: Bytes, operation: Bytes, name: Bytes, hash: Bytes)
  {
    && KeepsPlain(lex, quote)
    && lex.scalar("1") == Some("1") && lex.scalar(number) == Some(number)
    && IsPlain(previous) && IsPlain(hash) && lex.text(quote(operation)) == Some(name)
  }

  lemma {:induction false} LinkMeans(lex: Lexicon, quote: Quote, data: Node, previous: Bytes, hash: Bytes)
    requires KeepsPlain(lex, quote) && IsPlain(previous) && IsPlain(hash)
    ensures
      Mean(
        lex, LinkEntries(quote, data, previous, hash), LinkFields(Meaning(lex, data), previous, hash),
        Legal(lex, data))
  {
    FieldNamesSafe(lex, quote);
    var e5, m5 := [FieldEntry(quote, "hash", Text(quote(hash)))] + [], [Member("hash", Str(hash))] + [];
    FieldMeans(lex, quote, "hash", Text(quote(hash)), Str(hash), [], [], true);
    FieldMeans(lex, quote, "previous_hash", Text(quote(previous)), Str(previous), e5, m5, true);
    FieldMeans(
      lex, quote, "data", data, Meaning(lex, data),
      [FieldEntry(quote, "previous_hash", Text(quote(previous)))] + e5,
      [Member("previous_hash", Str(previous))] + m5, true);
  }

  /** The reader makes these fields of the text, and can read it if and only if it can read the data. */
  lemma {:induction false} EventMeans(
    lex: Lexicon, quote: Quote,
    number: Bytes, previous: Bytes, operation: Bytes, name: Bytes, data: Node, hash: Bytes)
    requires Writes(lex, quote, number, previous, operation, name, hash)
    ensures
      Mean(
        lex, EventEntries(quote, number, previous, operation, data, hash),
        Fields(number, previous, name, Meaning(lex, data), hash), Legal(lex, data))
  {
    FieldNamesSafe(lex, quote);
    LinkMeans(lex, quote, data, previous, hash);
    var legal := Legal(lex, data);
    var e3, m3 := LinkEntries(quote, data, previous, hash), LinkFields(Meaning(lex, data), previous, hash);
    var e2, m2 := [FieldEntry(quote, "operation", Text(quote(operation)))] + e3, [Member("operation", Str(name))] + m3;
    FieldMeans(lex, quote, "operation", Text(quote(operation)), Str(name), e3, m3, legal);
    FieldMeans(lex, quote, "sequence", Scalar(number), Atom(number), e2, m2, legal);
    FieldMeans(
      lex, quote, "version", Scalar("1"), Atom("1"),
      [FieldEntry(quote, "sequence", Scalar(number))] + e2, [Member("sequence", Atom(number))] + m2, legal);
  }

  lemma FieldLegal(wide: Lexicon, lex: Lexicon, quote: Quote, key: Bytes, n: Node, es: seq<Entry>)
    requires Wider(wide, lex) && SafeText(lex, quote, key) && Legal(wide, n) && LegalEntries(wide, es, true)
    ensures LegalEntries(wide, [FieldEntry(quote, key, n)] + es, true)
  {
    var e := FieldEntry(quote, key, n);
    assert BodyAdmitted(wide, lex, quote(key));
    assert ([e] + es)[1..] == es;
    assert LegalEntry(wide, e, true);
  }

  /** Leaves that the narrower reader can read, the wider one can. */
  lemma LeavesLegal(
    wide: Lexicon, lex: Lexicon, quote: Quote,
    number: Bytes, previous: Bytes, operation: Bytes, name: Bytes, hash: Bytes)
    requires Wider(wide, lex) && Writes(lex, quote, number, previous, operation, name, hash)
    ensures wide.scalar("1").Some? && wide.scalar(number).Some? && wide.text(quote(operation)).Some?
    ensures wide.text(quote(previous)).Some? && wide.text(quote(hash)).Some?
  {
    assert SafeText(lex, quote, previous) && SafeText(lex, quote, hash);
    assert TokenAdmitted(wide, lex, "1") && TokenAdmitted(wide, lex, number);
    assert BodyAdmitted(wide, lex, quote(operation));
    assert BodyAdmitted(wide, lex, quote(previous)) && BodyAdmitted(wide, lex, quote(hash));
  }

  lemma {:induction false} EventLegal(
    wide: Lexicon, lex: Lexicon, quote: Quote,
    number: Bytes, previous: Bytes, operation: Bytes, name: Bytes, data: Node, hash: Bytes)
    requires Wider(wide, lex) && Writes(lex, quote, number, previous, operation, name, hash) && Legal(wide, data)
    ensures Legal(wide, EventNode(quote, number, previous, operation, data, hash))
  {
    FieldNamesSafe(lex, quote);
    LeavesLegal(wide, lex, quote, number, previous, operation, name, hash);
    var e5 := [FieldEntry(quote, "hash", Text(quote(hash)))] + [];
    var e4 := [FieldEntry(quote, "previous_hash", Text(quote(previous)))] + e5;
    var e3 := LinkEntries(quote, data, previous, hash);
    var e2 := [FieldEntry(quote, "operation", Text(quote(operation)))] + e3;
    var e1 := [FieldEntry(quote, "sequence", Scalar(number))] + e2;
    FieldLegal(wide, lex, quote, "hash", Text(quote(hash)), []);
    FieldLegal(wide, lex, quote, "previous_hash", Text(quote(previous)), e5);
    FieldLegal(wide, lex, quote, "data", data, e4);
    FieldLegal(wide, lex, quote, "operation", Text(quote(operation)), e3);
    FieldLegal(wide, lex, quote, "sequence", Scalar(number), e2);
    FieldLegal(wide, lex, quote, "version", Scalar("1"), e1);
  }

  lemma DepthCons(e: Entry, es: seq<Entry>)
    ensures DepthWithin([e] + es) == if Depth(e.value) > DepthWithin(es) then Depth(e.value) else DepthWithin(es)
  {
    assert ([e] + es)[1..] == es;
  }

  lemma EventDepth(quote: Quote, number: Bytes, previous: Bytes, operation: Bytes, data: Node, hash: Bytes)
    ensures Depth(EventNode(quote, number, previous, operation, data, hash)) == 1 + Depth(data)
  {
    var e5 := [FieldEntry(quote, "hash", Text(quote(hash)))] + [];
    var e4 := [FieldEntry(quote, "previous_hash", Text(quote(previous)))] + e5;
    var e3 := LinkEntries(quote, data, previous, hash);
    var e2 := [FieldEntry(quote, "operation", Text(quote(operation)))] + e3;
    DepthCons(FieldEntry(quote, "hash", Text(quote(hash))), []);
    DepthCons(FieldEntry(quote, "previous_hash", Text(quote(previous))), e5);
    DepthCons(FieldEntry(quote, "data", data), e4);
    DepthCons(FieldEntry(quote, "operation", Text(quote(operation))), e3);
    DepthCons(FieldEntry(quote, "sequence", Scalar(number)), e2);
    DepthCons(FieldEntry(quote, "version", Scalar("1")), [FieldEntry(quote, "sequence", Scalar(number))] + e2);
  }

  /** The data is text for the reader, repeats no key, and may be nested as deeply within another object. */
  ghost predicate DataAdmitted(lex: Lexicon, data: Node) {
    Legal(lex, data) && NoRepeats(Meaning(lex, data)) && Depth(data) < lex.nesting
  }

  /**
   A decoder reads the text as its fields exactly when it admits the data, and the scanner then cuts the
   text of the data; a wider reader may have let more through.
   */
  lemma {:induction false} EventDecodes(
    wide: Lexicon, lex: Lexicon, decode: Bytes -> Option<Value>, quote: Quote,
    number: Bytes, previous: Bytes, operation: Bytes, name: Bytes, data: Node, hash: Bytes)
    requires ValidLexicon(wide) && ValidLexicon(lex) && Wider(wide, lex) && IsDecoder(lex, decode)
    requires Writes(lex, quote, number, previous, operation, name, hash) && Legal(wide, data)
    ensures
      var payload := Print(EventNode(quote, number, previous, operation, data, hash));
      var ms := Fields(number, previous, name, Meaning(lex, data), hash);
      && decode(payload) == (if DataAdmitted(lex, data) then Some(Obj(ms)) else None)
      && (DataAdmitted(lex, data) ==> RawObjectMember(payload, "data", decode) == Some(Print(data)))
  {
    var n := EventNode(quote, number, previous, operation, data, hash);
    EventMeans(lex, quote, number, previous, operation, name, data, hash);
    EventLegal(wide, lex, quote, number, previous, operation, name, data, hash);
    EventDepth(quote, number, previous, operation, data, hash);
    NoRepeatsInFields(number, previous, name, Meaning(lex, data), hash);
    ForeignDecodes(wide, lex, decode, n);
    if Legal(lex, data) {
      DataIsCut(lex, decode, quote, number, previous, operation, name, data, hash);
    }
  }

  lemma {:induction false} DataIsCut(
    lex: Lexicon, decode: Bytes -> Option<Value>, quote: Quote,
    number: Bytes, previous: Bytes, operation: Bytes, name: Bytes, data: Node, hash: Bytes)
    requires ValidLexicon(lex) && IsDecoder(lex, decode) && Legal(lex, data)
    requires Writes(lex, quote, number, previous, operation, name, hash)
    ensures
      RawObjectMember(Print(EventNode(quote, number, previous, operation, data, hash)), "data", decode)
      == Some(Print(data))
  {
    var n := EventNode(quote, number, previous, operation, data, hash);
    EventMeans(lex, quote, number, previous, operation, name, data, hash);
    FieldsDistinct(number, previous, name, Meaning(lex, data), hash);
    DataIsFourth(quote, number, previous, operation, data, hash, name, Meaning(lex, data));
    assert [] + Print(n) + [] == Print(n);
    CutAt(lex, decode, Print(n), n, [], [], 3);
    MembersAt(lex, n.entries, true, 3);
  }

  // ----- Checking a frame -----

  /** What the checker makes of a text with these fields. */
  lemma CheckedWhen(tools: Tools, payload: Bytes, ms: seq<Member>, raw: Bytes, sequence: nat, previous: Bytes)
    requires tools.decode(payload) == Some(Obj(ms)) && FieldsOk(ms, sequence, previous)
    requires RawObjectMember(payload, "data", tools.decode) == Some(raw)
    ensures
      CheckFrame(tools, payload, sequence, previous) ==
        if && Packable(sequence, previous, Field(ms, "operation").text, raw)
           && tools.sha(Preimage(sequence, previous, Field(ms, "operation").text, raw)) == Field(ms, "hash").text
        then Some(LinkOf(ms, sequence, previous, raw)) else None
  {
  }

  /**
   The checker accepts a well-placed frame exactly when it can read the data and the hash is that of the
   stored data and of the operation as it reads it.
   */
  lemma {:induction false} EventChecked(
    wide: Lexicon, lex: Lexicon, tools: Tools, quote: Quote,
    sequence: nat, previous: Bytes, operation: Bytes, name: Bytes, data: Node, hash: Bytes)
    requires ValidLexicon(wide) && ValidLexicon(lex) && Wider(wide, lex) && IsDecoder(lex, tools.decode)
    requires Writes(lex, quote, Decimal(sequence), previous, operation, name, hash) && Legal(wide, data)
    requires name != [] && IsDigest(hash)
    ensures
      var payload := Print(EventNode(quote, Decimal(sequence), previous, operation, data, hash));
      CheckFrame(tools, payload, sequence, previous) ==
        if && DataAdmitted(lex, data)
           && Packable(sequence, previous, name, Print(data))
           && tools.sha(Preimage(sequence, previous, name, Print(data))) == hash
        then Some(Link(Event(sequence, name, Meaning(lex, data), previous, hash), Print(data))) else None
  {
    var payload := Print(EventNode(quote, Decimal(sequence), previous, operation, data, hash));
    EventDecodes(wide, lex, tools.decode, quote, Decimal(sequence), previous, operation, name, data, hash);
    if DataAdmitted(lex, data) {
      var ms := Fields(Decimal(sequence), previous, name, Meaning(lex, data), hash);
      FieldsRead(Decimal(sequence), previous, name, Meaning(lex, data), hash);
      CheckedWhen(tools, payload, ms, Print(data), sequence, previous);
    }
  }

  lemma ZeroIsDigest()
    ensures IsDigest(ZERO_HASH)
  {
  }
}
