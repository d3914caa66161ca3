/**
 JSON texts as RFC 8259 spells them: a value is printed with any blanks between its tokens (section
 2) and any escapes in its strings (section 7).  Byte strings are written as strings; nothing here
 depends on how many values a byte can take.
 */
module Json {
  import opened Options

  type Bytes = string

  predicate IsSpace(c: char) {
    c == ' ' || c == '\t' || c == '\r' || c == '\n'
  }

  predicate Blank(s: Bytes) {
    forall i :: 0 <= i < |s| ==> IsSpace(s[i])
  }

  predicate IsAtomByte(c: char) {
    !IsSpace(c) && c != ',' && c != ':' && c != '{' && c != '}' && c != '[' && c != ']' && c != '"'
  }

  predicate IsAtom(s: Bytes) {
    s != [] && forall i :: 0 <= i < |s| ==> IsAtomByte(s[i])
  }

  /** The inside of a string literal: a backslash always takes the next byte with it. */
  predicate IsBody(s: Bytes) {
    if s == [] then true
    else if s[0] == '\\' then |s| >= 2 && IsBody(s[2..])
    else s[0] != '"' && IsBody(s[1..])
  }

  /**
   The lexical layer of a decoder, left abstract: which bare tokens are numbers or literals, and what
   string the inside of a literal denotes (as UTF-8), if it is legal at all.  The value of a bare token
   is written as the encoder writes it, so `1e0` and `1.0` both have the value `1.0`.  `nesting` is how
   many objects and arrays may lie within each other before the decoder gives up.
   */
  datatype Lexicon = Lexicon(scalar: Bytes -> Option<Bytes>, text: Bytes -> Option<Bytes>, nesting: nat)

  ghost predicate ValidLexicon(lex: Lexicon) {
    && (forall s :: lex.scalar(s).Some? ==> IsAtom(s))
    && (forall s :: lex.text(s).Some? ==> IsBody(s))
  }

  // ----- Concrete syntax -----

  /** A value with everything that was written around it; an object's entries are named. */
  datatype Node =
    | Scalar(token: Bytes)
    | Text(body: Bytes)
    | Composite(isObject: bool, entries: seq<Entry>, gap: Bytes)

  datatype Entry = Entry(before: Bytes, name: Option<Name>, value: Node, after: Bytes)
  datatype Name = Name(key: Bytes, beforeColon: Bytes, afterColon: Bytes)

  function Quoted(body: Bytes): Bytes {
    ['"'] + body + ['"']
  }

  function Opening(isObject: bool): char {
    if isObject then '{' else '['
  }

  function Closing(isObject: bool): char {
    if isObject then '}' else ']'
  }

  function PrintName(name: Option<Name>): Bytes {
    match name
    case None => []
    case Some(l) => Quoted(l.key) + l.beforeColon + [':'] + l.afterColon
  }

  function Print(n: Node): Bytes
    decreases n, 1
  {
    match n
    case Scalar(token) => token
    case Text(body) => Quoted(body)
    case Composite(isObject, entries, gap) =>
      [Opening(isObject)] + (if entries == [] then gap else PrintEntries(entries)) + [Closing(isObject)]
  }

  function PrintEntry(e: Entry): Bytes
    decreases e, 0
  {
    e.before + PrintName(e.name) + Print(e.value) + e.after
  }

  function PrintEntries(es: seq<Entry>): Bytes
    requires es != []
    decreases es, 0
  {
    if |es| == 1 then PrintEntry(es[0]) else PrintEntry(es[0]) + [','] + PrintEntries(es[1..])
  }

  predicate LegalName(lex: Lexicon, name: Option<Name>, isObject: bool) {
    && name.Some? == isObject
    && (name.Some? ==>
          lex.text(name.value.key).Some? && Blank(name.value.beforeColon) && Blank(name.value.afterColon))
  }

  predicate Legal(lex: Lexicon, n: Node)
    decreases n, 1
  {
    match n
    case Scalar(token) => lex.scalar(token).Some?
    case Text(body) => lex.text(body).Some?
    case Composite(isObject, entries, gap) =>
      Blank(gap) && (entries == [] || gap == []) && LegalEntries(lex, entries, isObject)
  }

  predicate LegalEntries(lex: Lexicon, es: seq<Entry>, isObject: bool)
    decreases es, 0
  {
    es == [] || (LegalEntry(lex, es[0], isObject) && LegalEntries(lex, es[1..], isObject))
  }

  predicate LegalEntry(lex: Lexicon, e: Entry, isObject: bool)
    decreases e, 0
  {
    Blank(e.before) && Blank(e.after) && LegalName(lex, e.name, isObject) && Legal(lex, e.value)
  }

  /** How many objects and arrays lie within each other. */
  function Depth(n: Node): nat
    decreases n, 1
  {
    match n
    case Scalar(_) => 0
    case Text(_) => 0
    case Composite(_, entries, _) => 1 + DepthWithin(entries)
  }

  function DepthWithin(es: seq<Entry>): nat
    decreases es, 0
  {
    if es == [] then 0
    else
      var first, rest := Depth(es[0].value), DepthWithin(es[1..]);
      if first > rest then first else rest
  }

  // ----- Values -----

  /** A decoded value; members keep the order in which they were read. */
  datatype Value =
    | Atom(token: Bytes)
    | Str(text: Bytes)
    | Arr(items: seq<Value>)
    | Obj(members: seq<Member>)

  datatype Member = Member(key: Bytes, value: Value)

  function KeyOf(lex: Lexicon, e: Entry): Bytes {
    if e.name.Some? && lex.text(e.name.value.key).Some? then lex.text(e.name.value.key).value else []
  }

  function Meaning(lex: Lexicon, n: Node): Value
    decreases n, 1
  {
    match n
    case Scalar(token) => Atom(if lex.scalar(token).Some? then lex.scalar(token).value else [])
    case Text(body) => Str(if lex.text(body).Some? then lex.text(body).value else [])
    case Composite(isObject, entries, gap) =>
      if isObject then Obj(MembersOf(lex, entries)) else Arr(ItemsOf(lex, entries))
  }

  function MembersOf(lex: Lexicon, es: seq<Entry>): (ms: seq<Member>)
    ensures |ms| == |es|
    decreases es, 0
  {
    if es == [] then [] else [Member(KeyOf(lex, es[0]), Meaning(lex, es[0].value))] + MembersOf(lex, es[1..])
  }

  function ItemsOf(lex: Lexicon, es: seq<Entry>): seq<Value>
    decreases es, 0
  {
    if es == [] then [] else [Meaning(lex, es[0].value)] + ItemsOf(lex, es[1..])
  }

  predicate HasKey(ms: seq<Member>, key: Bytes) {
    exists i :: 0 <= i < |ms| && ms[i].key == key
  }

  predicate DistinctKeys(ms: seq<Member>) {
    forall i, j :: 0 <= i < j < |ms| ==> ms[i].key != ms[j].key
  }

  /** No object inside the value repeats a key, as the pairs hook of the decoder demands. */
  predicate NoRepeats(v: Value) {
    match v
    case Atom(_) => true
    case Str(_) => true
    case Arr(items) => forall i :: 0 <= i < |items| ==> NoRepeats(items[i])
    case Obj(members) => DistinctKeys(members) && forall i :: 0 <= i < |members| ==> NoRepeats(members[i].value)
  }

  function Lookup(ms: seq<Member>, key: Bytes): Option<Value> {
    if ms == [] then None else if ms[0].key == key then Some(ms[0].value) else Lookup(ms[1..], key)
  }

  // ----- The standard decoder -----

  /** `data` is a text of the grammar, read as `n` with blanks on either side. */
  ghost predicate Parses(lex: Lexicon, data: Bytes, n: Node, left: Bytes, right: Bytes) {
    Blank(left) && Blank(right) && Legal(lex, n) && data == left + Print(n) + right
  }

  /** The value repeats no key, and is not nested too deeply. */
  ghost predicate Admits(lex: Lexicon, n: Node) {
    NoRepeats(Meaning(lex, n)) && Depth(n) <= lex.nesting
  }

  /** The text is one that the decoder reads as the value that `n` means. */
  ghost predicate Spells(lex: Lexicon, data: Bytes, n: Node, left: Bytes, right: Bytes) {
    Parses(lex, data, n, left, right) && Admits(lex, n)
  }

  /** The decoder accepts exactly the texts of the grammar without repeated keys or undue nesting. */
  ghost predicate IsDecoder(lex: Lexicon, decode: Bytes -> Option<Value>) {
    && (forall n, left, right, data :: Spells(lex, data, n, left, right) ==> decode(data) == Some(Meaning(lex, n)))
    && (forall data :: decode(data).Some? ==> exists n, left, right :: Spells(lex, data, n, left, right))
  }
}
