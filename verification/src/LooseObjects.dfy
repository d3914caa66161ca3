/**
 What the scanner makes of any bytes, legal JSON or not: where each of its loops ends, said of the bytes
 alone, and exactly which texts it cuts a member out of.
 */
module LooseObjects {
  import opened Options
  import opened Json
  import opened Scanner
  import opened ScannerTheorems
  import opened MemberLoops

  // ----- Blanks and strings -----

  /** From `p` to `q` there are only blanks, and none at `q`. */
  predicate SkipsTo(data: Bytes, p: nat, q: nat) {
    && p <= q <= |data|
    && (forall i :: p <= i < q ==> data[i] in " \t\r\n")
    && (q < |data| ==> data[q] !in " \t\r\n")
  }

  lemma {:induction false} SkipSpaceIff(data: Bytes, p: nat, q: nat)
    requires p <= |data|
    ensures SkipSpace(data, p) == q <==> SkipsTo(data, p, q)
    decreases |data| - p
  {
    if p < |data| && data[p] in " \t\r\n" {
      SkipSpaceIff(data, p + 1, q);
    }
  }

  /** A string literal stands from `p` to `q`. */
  predicate StringAt(data: Bytes, p: nat, q: nat) {
    p + 2 <= q <= |data| && data[p] == '"' && IsBody(data[p + 1..q - 1]) && data[q - 1] == '"'
  }

  /** Inside a literal, it ends at the quote after a whole body. */
  predicate BodyEnds(data: Bytes, p: nat, q: nat) {
    p < q <= |data| && IsBody(data[p..q - 1]) && data[q - 1] == '"'
  }

  lemma {:induction false} StringTailIff(data: Bytes, p: nat, q: nat)
    ensures StringTail(data, p) == Some(q) <==> BodyEnds(data, p, q)
    decreases |data| - p
  {
    if p < |data| && data[p] != '"' {
      var k := if data[p] == '\\' then 2 else 1;
      StringTailIff(data, p + k, q);
      if p + k < q <= |data| {
        assert data[p..q - 1][k..] == data[p + k..q - 1];
      }
    }
  }

  /** The scanner finds the end of a string exactly where a literal stands. */
  lemma StringEndIff(data: Bytes, p: nat, q: nat)
    ensures StringEnd(data, p) == Some(q) <==> StringAt(data, p, q)
  {
    StringTailIff(data, p + 1, q);
  }

  // ----- Objects and arrays -----

  /** What an object or array is for the scanner: literals, matched delimiters, and any other bytes. */
  datatype Piece = Plain(c: char) | Literal(body: Bytes) | Group(opening: char, pieces: seq<Piece>)

  function ClosingOf(opening: char): char {
    if opening == '{' then '}' else ']'
  }

  function Spelled(piece: Piece): Bytes {
    match piece
    case Plain(c) => [c]
    case Literal(body) => "\"" + body + "\""
    case Group(opening, pieces) => [opening] + SpelledAll(pieces) + [ClosingOf(opening)]
  }

  function SpelledAll(pieces: seq<Piece>): Bytes {
    if pieces == [] then [] else Spelled(pieces[0]) + SpelledAll(pieces[1..])
  }

  predicate IsPiece(piece: Piece) {
    match piece
    case Plain(c) => c !in "\"{}[]"
    case Literal(body) => IsBody(body)
    case Group(opening, pieces) => opening in "{[" && ArePieces(pieces)
  }

  predicate ArePieces(pieces: seq<Piece>) {
    pieces == [] || (IsPiece(pieces[0]) && ArePieces(pieces[1..]))
  }

  /** An object or array with matched delimiters stands from `p` to `q`. */
  ghost predicate CompositeAt(data: Bytes, p: nat, q: nat) {
    p <= q <= |data| && exists group: Piece :: group.Group? && IsPiece(group) && data[p..q] == Spelled(group)
  }

  lemma {:induction false} PieceSkips(data: Bytes, p: nat, piece: Piece)
    requires IsPiece(piece) && At(data, p, Spelled(piece))
    ensures Skips(data, p, p + |Spelled(piece)|)
    decreases piece, 1
  {
    match piece
    case Plain(c) =>
      AtHead(data, p, [c]);
    case Literal(body) =>
      assert Quoted(body) == "\"" + body + "\"";
      LiteralSkips(data, p, body);
    case Group(opening, pieces) =>
      GroupParts(data, p, opening, pieces);
      PiecesSkip(data, p + 1, pieces);
      GroupSkips(data, p, p + 1 + |SpelledAll(pieces)|);
  }

  lemma GroupSkips(data: Bytes, p: nat, q: nat)
    requires p < q < |data| && data[p] in "{[" && data[q] == ClosingOf(data[p]) && Skips(data, p + 1, q)
    ensures Skips(data, p, q + 1)
  {
    forall stack: Bytes | stack != [] ensures CompositeTail(data, p, stack) == CompositeTail(data, q + 1, stack) {
      var inner := stack + [data[p]];
      assert CompositeTail(data, p, stack) == CompositeTail(data, p + 1, inner) == CompositeTail(data, q, inner);
      assert inner[..|inner| - 1] == stack;
    }
  }

  lemma {:induction false} PiecesSkip(data: Bytes, p: nat, pieces: seq<Piece>)
    requires ArePieces(pieces) && At(data, p, SpelledAll(pieces))
    ensures Skips(data, p, p + |SpelledAll(pieces)|)
    decreases pieces, 0
  {
    if pieces != [] {
      var a, b := Spelled(pieces[0]), SpelledAll(pieces[1..]);
      AtSplit(data, p, a, b);
      PieceSkips(data, p, pieces[0]);
      PiecesSkip(data, p + |a|, pieces[1..]);
    }
  }

  /** What is still to come while delimiters are open: the rest of each level, and what closes it. */
  function ClosedText(stack: Bytes, levels: seq<seq<Piece>>): Bytes
    requires |levels| == |stack|
  {
    if stack == [] then []
    else
      var top := |stack| - 1;
      SpelledAll(levels[top]) + [ClosingOf(stack[top])] + ClosedText(stack[..top], levels[..top])
  }

  ghost predicate AreLevels(stack: Bytes, levels: seq<seq<Piece>>) {
    |levels| == |stack| && forall i :: 0 <= i < |levels| ==> ArePieces(levels[i])
  }

  /** The levels with one piece more, at the start of the topmost. */
  function Prepended(piece: Piece, levels: seq<seq<Piece>>): seq<seq<Piece>>
    requires levels != []
  {
    levels[..|levels| - 1] + [[piece] + levels[|levels| - 1]]
  }

  lemma PrependSpells(stack: Bytes, levels: seq<seq<Piece>>, piece: Piece)
    requires stack != [] && AreLevels(stack, levels) && IsPiece(piece)
    ensures AreLevels(stack, Prepended(piece, levels))
    ensures ClosedText(stack, Prepended(piece, levels)) == Spelled(piece) + ClosedText(stack, levels)
  {
    var top := |stack| - 1;
    var more := Prepended(piece, levels);
    assert more[..top] == levels[..top];
    assert more[top] == [piece] + levels[top] && more[top][1..] == levels[top];
    var a, b, c, d := Spelled(piece), SpelledAll(levels[top]), [ClosingOf(stack[top])],
      ClosedText(stack[..top], levels[..top]);
    assert a + b + c + d == a + (b + c + d);
  }

  lemma Regrouped(a: Bytes, b: Bytes, c: Bytes, d: Bytes)
    ensures a + b + c + d == a + (b + c + d)
  {
  }

  lemma InnerText(stack: Bytes, opening: char, levels: seq<seq<Piece>>)
    requires |levels| == |stack| + 1
    ensures
      ClosedText(stack + [opening], levels)
      == SpelledAll(levels[|stack|]) + [ClosingOf(opening)] + ClosedText(stack, levels[..|stack|])
  {
    assert (stack + [opening])[..|stack|] == stack;
  }

  lemma {:induction false} GroupSpells(stack: Bytes, opening: char, levels: seq<seq<Piece>>)
    requires stack != [] && opening in "{[" && AreLevels(stack + [opening], levels)
    ensures
      var n := |stack|;
      var more := Prepended(Group(opening, levels[n]), levels[..n]);
      && AreLevels(stack, more)
      && ClosedText(stack, more) == [opening] + ClosedText(stack + [opening], levels)
  {
    var n := |stack|;
    PrependSpells(stack, levels[..n], Group(opening, levels[n]));
    InnerText(stack, opening, levels);
    Regrouped([opening], SpelledAll(levels[n]), [ClosingOf(opening)], ClosedText(stack, levels[..n]));
  }

  lemma CloseSpells(stack: Bytes, levels: seq<seq<Piece>>)
    requires stack != [] && AreLevels(stack[..|stack| - 1], levels)
    ensures
      var all := levels + [[]];
      && AreLevels(stack, all)
      && ClosedText(stack, all) == [ClosingOf(stack[|stack| - 1])] + ClosedText(stack[..|stack| - 1], levels)
  {
    var top := |stack| - 1;
    var all := levels + [[]];
    assert all[..top] == levels && all[top] == [];
    assert SpelledAll([]) + [ClosingOf(stack[top])] == [ClosingOf(stack[top])];
  }

  lemma SliceSplit(data: Bytes, p: nat, k: nat, q: nat)
    requires p <= k <= q <= |data|
    ensures data[p..q] == data[p..k] + data[k..q]
  {
  }

  /** The bytes from `p` to `q` close every level that is open. */
  ghost predicate Closes(data: Bytes, p: nat, stack: Bytes, q: nat, levels: seq<seq<Piece>>) {
    p <= q <= |data| && AreLevels(stack, levels) && data[p..q] == ClosedText(stack, levels)
  }

  lemma PieceBefore(
    data: Bytes, p: nat, k: nat, stack: Bytes, q: nat, levels: seq<seq<Piece>>, piece: Piece)
    requires p <= k && stack != [] && Closes(data, k, stack, q, levels)
    requires IsPiece(piece) && data[p..k] == Spelled(piece)
    ensures Closes(data, p, stack, q, Prepended(piece, levels))
  {
    PrependSpells(stack, levels, piece);
    SliceSplit(data, p, k, q);
  }

  lemma OpenBefore(data: Bytes, p: nat, stack: Bytes, q: nat, levels: seq<seq<Piece>>)
    requires p < |data| && stack != [] && data[p] in "{[" && Closes(data, p + 1, stack + [data[p]], q, levels)
    ensures Closes(data, p, stack, q, Prepended(Group(data[p], levels[|stack|]), levels[..|stack|]))
  {
    GroupSpells(stack, data[p], levels);
    SliceSplit(data, p, p + 1, q);
  }

  lemma CloseBefore(data: Bytes, p: nat, stack: Bytes, q: nat, levels: seq<seq<Piece>>)
    requires p < |data| && stack != [] && data[p] == ClosingOf(stack[|stack| - 1])
    requires Closes(data, p + 1, stack[..|stack| - 1], q, levels)
    ensures Closes(data, p, stack, q, levels + [[]])
  {
    CloseSpells(stack, levels);
    SliceSplit(data, p, p + 1, q);
  }

  /** What the loop got over closes every level that was open. */
  lemma {:induction false} LevelsOf(data: Bytes, p: nat, stack: Bytes, q: nat) returns (levels: seq<seq<Piece>>)
    requires p <= |data| && CompositeTail(data, p, stack) == Some(q)
    ensures Closes(data, p, stack, q, levels)
    decreases |data| - p
  {
    levels := [];
    if stack != [] {
      var c := data[p];
      if c == '"' {
        var end := StringEnd(data, p).value;
        StringEndIff(data, p, end);
        levels := LevelsOf(data, end, stack, q);
        PieceBefore(data, p, end, stack, q, levels, Literal(data[p + 1..end - 1]));
        levels := Prepended(Literal(data[p + 1..end - 1]), levels);
      } else if c == '{' || c == '[' {
        levels := LevelsOf(data, p + 1, stack + [c], q);
        OpenBefore(data, p, stack, q, levels);
        levels := Prepended(Group(c, levels[|stack|]), levels[..|stack|]);
      } else if c == '}' || c == ']' {
        levels := LevelsOf(data, p + 1, stack[..|stack| - 1], q);
        CloseBefore(data, p, stack, q, levels);
        levels := levels + [[]];
      } else {
        levels := LevelsOf(data, p + 1, stack, q);
        PieceBefore(data, p, p + 1, stack, q, levels, Plain(c));
        levels := Prepended(Plain(c), levels);
      }
    }
  }

  lemma OneLevel(opening: char, pieces: seq<Piece>)
    ensures [opening] + ClosedText([opening], [pieces]) == Spelled(Group(opening, pieces))
  {
    assert [opening][..0] == [] && [pieces][..0] == [];
    var a, b, c := [opening], SpelledAll(pieces), [ClosingOf(opening)];
    assert ClosedText([], []) == [];
    assert b + c + [] == b + c;
    assert a + (b + c) == a + b + c;
  }

  /** The scanner finds the end of an object or array exactly where one with matched delimiters stands. */
  lemma {:induction false} CompositeIff(data: Bytes, p: nat, q: nat)
    requires p < |data| && data[p] in "{["
    ensures CompositeTail(data, p + 1, [data[p]]) == Some(q) <==> CompositeAt(data, p, q)
  {
    if CompositeTail(data, p + 1, [data[p]]) == Some(q) {
      var levels := LevelsOf(data, p + 1, [data[p]], q);
      assert levels == [levels[0]];
      OneLevel(data[p], levels[0]);
      SliceSplit(data, p, p + 1, q);
      assert data[p..q] == Spelled(Group(data[p], levels[0]));
    }
    if CompositeAt(data, p, q) {
      var group: Piece :| group.Group? && IsPiece(group) && data[p..q] == Spelled(group);
      GroupEnds(data, p, q, group);
    }
  }

  lemma GroupParts(data: Bytes, p: nat, opening: char, pieces: seq<Piece>)
    requires At(data, p, Spelled(Group(opening, pieces)))
    ensures
      var q := p + 1 + |SpelledAll(pieces)|;
      && q < |data| && q + 1 == p + |Spelled(Group(opening, pieces))|
      && data[p] == opening && At(data, p + 1, SpelledAll(pieces)) && data[q] == ClosingOf(opening)
  {
    var a, b, c := [opening], SpelledAll(pieces), [ClosingOf(opening)];
    AtSplit(data, p, a + b, c);
    AtSplit(data, p, a, b);
    AtHead(data, p, a);
    AtHead(data, p + |a + b|, c);
  }

  lemma CloseEnds(data: Bytes, q: nat, opening: char)
    requires q < |data| && opening in "{[" && data[q] == ClosingOf(opening)
    ensures CompositeTail(data, q, [opening]) == Some(q + 1)
  {
    assert [opening][..0] == [];
  }

  lemma {:induction false} GroupEnds(data: Bytes, p: nat, q: nat, group: Piece)
    requires p <= q <= |data| && group.Group? && IsPiece(group) && data[p..q] == Spelled(group)
    ensures p < |data| && CompositeTail(data, p + 1, [data[p]]) == Some(q)
  {
    AtSlice(data, p, Spelled(group));
    GroupParts(data, p, group.opening, group.pieces);
    PiecesSkip(data, p + 1, group.pieces);
    CloseEnds(data, q - 1, group.opening);
  }

  // ----- Values -----

  /** Bytes of a bare token stand from `p` to `q`, none at `q`; there may be none at all. */
  predicate TokenAt(data: Bytes, p: nat, q: nat) {
    && p <= q <= |data|
    && (forall i :: p <= i < q ==> data[i] !in ",}] \t\r\n")
    && (q < |data| ==> data[q] in ",}] \t\r\n")
  }

  lemma {:induction false} ScalarTailIff(data: Bytes, p: nat, q: nat)
    requires p <= |data|
    ensures ScalarTail(data, p) == q <==> TokenAt(data, p, q)
    decreases |data| - p
  {
    if p < |data| && !EndsScalar(data[p]) {
      ScalarTailIff(data, p + 1, q);
    }
  }

  /** What the scanner takes for a value stands from `p` to `q`. */
  ghost predicate ValueAt(data: Bytes, p: nat, q: nat) {
    p < |data| &&
    if data[p] == '"' then StringAt(data, p, q)
    else if data[p] in "{[" then CompositeAt(data, p, q)
    else TokenAt(data, p, q)
  }

  /** The scanner finds the end of a value exactly where one stands. */
  lemma ValueEndIff(data: Bytes, p: nat, q: nat)
    requires p <= |data| && (p < |data| ==> data[p] !in " \t\r\n")
    ensures ValueEnd(data, p) == Some(q) <==> ValueAt(data, p, q)
  {
    SkipSpaceIff(data, p, p);
    if p < |data| {
      StringEndIff(data, p, q);
      ScalarTailIff(data, p, q);
      if data[p] in "{[" {
        CompositeIff(data, p, q);
      }
    }
  }

  // ----- Members -----

  /** A name, a colon and a value, with blanks between them and after them. */
  ghost predicate IsPlace(data: Bytes, m: Place) {
    && StringAt(data, m.keyStart, m.keyEnd)
    && SkipsTo(data, m.keyEnd, m.colon) && m.colon < |data| && data[m.colon] == ':'
    && SkipsTo(data, m.colon + 1, m.start) && ValueAt(data, m.start, m.end)
    && SkipsTo(data, m.end, m.next) && m.next < |data|
  }

  function Slice(data: Bytes, p: nat, q: nat): Bytes {
    if p <= q <= |data| then data[p..q] else []
  }

  function CutAt(data: Bytes, m: Place): Bytes {
    Slice(data, m.start, m.end)
  }

  function NameAt(data: Bytes, m: Place, decode: Bytes -> Option<Value>): Option<Value> {
    decode(Slice(data, m.keyStart, m.keyEnd))
  }

  /** The member that was scanned stands at this place. */
  ghost predicate ScannedAt(data: Bytes, m: Place, decode: Bytes -> Option<Value>, span: Span) {
    IsPlace(data, m) && NameAt(data, m, decode) == Some(span.key) && span == Span(span.key, m.start, m.end, m.next)
  }

  lemma {:induction false} PlaceOf(data: Bytes, p: nat, decode: Bytes -> Option<Value>) returns (m: Place)
    requires MemberSpan(data, p, decode).Some?
    ensures m.keyStart == p && ScannedAt(data, m, decode, MemberSpan(data, p, decode).value)
  {
    var span := MemberSpan(data, p, decode).value;
    var keyEnd := StringEnd(data, p).value;
    var colon := SkipSpace(data, keyEnd);
    m := Place(p, keyEnd, colon, span.start, span.end, span.next);
    StringEndIff(data, p, keyEnd);
    SkipSpaceIff(data, keyEnd, colon);
    SkipSpaceIff(data, colon + 1, span.start);
    ValueEndIff(data, span.start, span.end);
    SkipSpaceIff(data, span.end, span.next);
  }

  lemma {:induction false} PlaceScanned(data: Bytes, m: Place, decode: Bytes -> Option<Value>)
    requires IsPlace(data, m)
    ensures
      MemberSpan(data, m.keyStart, decode) ==
        var key := NameAt(data, m, decode);
        if key.Some? then Some(Span(key.value, m.start, m.end, m.next)) else None
  {
    StringEndIff(data, m.keyStart, m.keyEnd);
    SkipSpaceIff(data, m.keyEnd, m.colon);
    SkipSpaceIff(data, m.colon + 1, m.start);
    ValueEndIff(data, m.start, m.end);
    SkipSpaceIff(data, m.end, m.next);
  }

  // ----- Objects -----

  predicate StandsAt(data: Bytes, p: nat, c: char) {
    p < |data| && data[p] == c
  }

  /** The text as the loop over the members sees it. */
  ghost function LayoutOf(data: Bytes, decode: Bytes -> Option<Value>): Layout {
    Layout(
      (m: Place) => IsPlace(data, m), (p: nat, q: nat) => SkipsTo(data, p, q),
      (m: Place) => NameAt(data, m, decode), (m: Place) => CutAt(data, m),
      (p: nat, c: char) => StandsAt(data, p, c))
  }

  lemma BraceIff(data: Bytes, decode: Bytes -> Option<Value>, p: nat)
    requires p <= |data|
    ensures
      BraceAfter(LayoutOf(data, decode), p) <==> SkipSpace(data, p) < |data| && data[SkipSpace(data, p)] == '}'
  {
    var lay := LayoutOf(data, decode);
    SkipSpaceIff(data, p, SkipSpace(data, p));
    if SkipSpace(data, p) < |data| && data[SkipSpace(data, p)] == '}' {
      assert lay.skips(p, SkipSpace(data, p)) && lay.stands(SkipSpace(data, p), '}');
    }
    if k :| lay.skips(p, k) && lay.stands(k, '}') {
      SkipSpaceIff(data, p, k);
    }
  }

  /** What is known of a member that was scanned. */
  predicate ScannedAs(
    data: Bytes, p: nat, decode: Bytes -> Option<Value>, m: Place, name: Option<Value>, cut: Bytes)
  {
    && SkipSpace(data, p) == m.keyStart && StandsAt(data, m.keyStart, '"')
    && MemberSpan(data, m.keyStart, decode)
       == (if name.Some? then Some(Span(name.value, m.start, m.end, m.next)) else None)
    && m.start <= m.end <= |data| && data[m.start..m.end] == cut && p < m.next < |data|
  }

  lemma {:induction false} SpanRefused(
    data: Bytes, p: nat, wanted: Bytes, decode: Bytes -> Option<Value>, found: Option<Bytes>,
    m: Place, name: Option<Value>, cut: Bytes)
    requires ScannedAs(data, p, decode, m, name, cut)
    requires
      name.None? || (found.Some? && name == Some(Str(wanted)))
      || !(StandsAt(data, m.next, ',') || StandsAt(data, m.next, '}'))
    ensures MemberTail(data, p, wanted, found, decode).None?
  {
  }

  /** What the loop makes of a member with this name and value. */
  ghost predicate MakesOf(
    loop: Loop, data: Bytes, p: nat, wanted: Bytes, found: Option<Bytes>, name: Option<Value>, cut: Bytes, next: nat)
  {
    loop(p, found) ==
      if name.None? || (found.Some? && name == Some(Str(wanted))) then None
      else if StandsAt(data, next, ',') then loop(next + 1, Keep(name.value, cut, wanted, found))
      else if StandsAt(data, next, '}') then Keep(name.value, cut, wanted, found)
      else None
  }

  lemma RefusedMakes(
    data: Bytes, p: nat, wanted: Bytes, decode: Bytes -> Option<Value>, found: Option<Bytes>, name: Option<Value>,
    cut: Bytes, next: nat)
    requires MemberTail(data, p, wanted, found, decode).None?
    requires
      name.None? || (found.Some? && name == Some(Str(wanted)))
      || !(StandsAt(data, next, ',') || StandsAt(data, next, '}'))
    ensures MakesOf(TailOf(data, wanted, decode), data, p, wanted, found, name, cut, next)
  {
  }

  lemma {:induction false} SpanTurn(
    data: Bytes, p: nat, wanted: Bytes, decode: Bytes -> Option<Value>, found: Option<Bytes>,
    m: Place, name: Option<Value>, cut: Bytes)
    requires ScannedAs(data, p, decode, m, name, cut)
    ensures MakesOf(TailOf(data, wanted, decode), data, p, wanted, found, name, cut, m.next)
  {
    if name.None? || (found.Some? && name == Some(Str(wanted)))
       || !(StandsAt(data, m.next, ',') || StandsAt(data, m.next, '}'))
    {
      SpanRefused(data, p, wanted, decode, found, m, name, cut);
      RefusedMakes(data, p, wanted, decode, found, name, cut, m.next);
    } else {
      var span := Span(name.value, m.start, m.end, m.next);
      ScannedRead(data, p, decode, m, name.value, cut);
      TailFrom(data, p, wanted, found, decode, span, cut);
      ContinuesMakes(TailOf(data, wanted, decode), data, p, wanted, found, name.value, cut, m.next);
    }
  }

  lemma ScannedRead(data: Bytes, p: nat, decode: Bytes -> Option<Value>, m: Place, key: Value, cut: Bytes)
    requires ScannedAs(data, p, decode, m, Some(key), cut)
    ensures MemberRead(data, p, decode, Span(key, m.start, m.end, m.next))
  {
  }

  lemma ContinuesMakes(
    loop: Loop, data: Bytes, p: nat, wanted: Bytes, found: Option<Bytes>, key: Value, cut: Bytes, next: nat)
    requires Continues(data, wanted, loop, p, key, cut, next, found)
    requires StandsAt(data, next, ',') || StandsAt(data, next, '}')
    ensures MakesOf(loop, data, p, wanted, found, Some(key), cut, next)
  {
  }

  lemma {:induction false} PlaceIsScanned(data: Bytes, p: nat, decode: Bytes -> Option<Value>, m: Place)
    requires p <= |data| && SkipsTo(data, p, m.keyStart) && IsPlace(data, m)
    ensures ScannedAs(data, p, decode, m, NameAt(data, m, decode), CutAt(data, m))
  {
    SkipSpaceIff(data, p, m.keyStart);
    PlaceScanned(data, m, decode);
  }

  lemma FoundIs(data: Bytes, decode: Bytes -> Option<Value>, m: Place, wanted: Bytes, found: Option<Bytes>)
    ensures
      var lay, name := LayoutOf(data, decode), NameAt(data, m, decode);
      && lay.name(m) == name && (forall c :: lay.stands(m.next, c) == StandsAt(data, m.next, c))
      && FoundAfter(lay, m, wanted, found)
         == if name.Some? then Keep(name.value, CutAt(data, m), wanted, found) else found
  {
  }

  lemma TurnOf(
    loop: Loop, data: Bytes, wanted: Bytes, decode: Bytes -> Option<Value>, value: Bytes, p: nat, found: Option<Bytes>,
    m: Place)
    requires p < m.next < |data|
    requires MakesOf(loop, data, p, wanted, found, NameAt(data, m, decode), CutAt(data, m), m.next)
    ensures TurnAt(loop, LayoutOf(data, decode), |data|, wanted, value, p, found, m)
  {
    FoundIs(data, decode, m, wanted, found);
  }

  lemma TurnElsewhere(
    loop: Loop, data: Bytes, wanted: Bytes, decode: Bytes -> Option<Value>, value: Bytes, p: nat, found: Option<Bytes>,
    m: Place)
    requires !(p <= |data| && SkipsTo(data, p, m.keyStart) && IsPlace(data, m))
    ensures TurnAt(loop, LayoutOf(data, decode), |data|, wanted, value, p, found, m)
  {
  }

  lemma {:induction false} OneTurn(
    data: Bytes, wanted: Bytes, decode: Bytes -> Option<Value>, value: Bytes, p: nat, found: Option<Bytes>, m: Place)
    ensures
      TurnAt(TailOf(data, wanted, decode), LayoutOf(data, decode), |data|, wanted, value, p, found, m)
  {
    if p <= |data| && SkipsTo(data, p, m.keyStart) && IsPlace(data, m) {
      PlaceIsScanned(data, p, decode, m);
      SpanTurn(data, p, wanted, decode, found, m, NameAt(data, m, decode), CutAt(data, m));
      TurnOf(TailOf(data, wanted, decode), data, wanted, decode, value, p, found, m);
    } else {
      TurnElsewhere(TailOf(data, wanted, decode), data, wanted, decode, value, p, found, m);
    }
  }

  /** The member that the loop goes over next. */
  lemma {:induction false} NextPlace(
    data: Bytes, p: nat, wanted: Bytes, decode: Bytes -> Option<Value>, found: Option<Bytes>) returns (m: Place)
    requires p <= |data| && MemberTail(data, p, wanted, found, decode).Some?
    requires !BraceAfter(LayoutOf(data, decode), p)
    ensures SkipsTo(data, p, m.keyStart) && IsPlace(data, m)
  {
    BraceIff(data, decode, p);
    var keyStart := SkipSpace(data, p);
    SkipSpaceIff(data, p, keyStart);
    m := PlaceOf(data, keyStart, decode);
  }

  lemma BraceEnds(
    data: Bytes, p: nat, wanted: Bytes, decode: Bytes -> Option<Value>, found: Option<Bytes>)
    requires p <= |data| && BraceAfter(LayoutOf(data, decode), p)
    ensures MemberTail(data, p, wanted, found, decode) == found
  {
    BraceIff(data, decode, p);
  }

  lemma {:induction false} LastTurn(
    data: Bytes, wanted: Bytes, decode: Bytes -> Option<Value>, p: nat, found: Option<Bytes>)
    ensures EndAt(TailOf(data, wanted, decode), LayoutOf(data, decode), |data|, p, found)
  {
    var lay := LayoutOf(data, decode);
    if p <= |data| && BraceAfter(lay, p) {
      BraceEnds(data, p, wanted, decode, found);
    } else if p <= |data| && MemberTail(data, p, wanted, found, decode).Some? {
      var m := NextPlace(data, p, wanted, decode, found);
      assert StandsFrom(lay, p, m);
    }
  }

  /** The scanner's loop is one over the members of the text. */
  lemma {:induction false} ScannerLoops(data: Bytes, wanted: Bytes, decode: Bytes -> Option<Value>, value: Bytes)
    ensures IsLoop(TailOf(data, wanted, decode), LayoutOf(data, decode), |data|, wanted, value)
  {
    var loop, lay := TailOf(data, wanted, decode), LayoutOf(data, decode);
    forall p: nat, found ensures EndAt(loop, lay, |data|, p, found) {
      LastTurn(data, wanted, decode, p, found);
    }
    forall p: nat, found, m ensures TurnAt(loop, lay, |data|, wanted, value, p, found, m) {
      OneTurn(data, wanted, decode, value, p, found, m);
    }
  }

  lemma BytesDiffer(data: Bytes, decode: Bytes -> Option<Value>)
    ensures OneByte(LayoutOf(data, decode))
  {
  }

  // ----- The result -----

  /** An object opens after blanks, its members stand in it, and the member at `i` is the wanted one. */
  ghost predicate IsCut(
    data: Bytes, wanted: Bytes, decode: Bytes -> Option<Value>, value: Bytes, opening: nat, ms: seq<Place>, i: nat)
  {
    && SkipsTo(data, 0, opening) && StandsAt(data, opening, '{')
    && var lay := LayoutOf(data, decode);
       Listed(lay, opening + 1, ms) && NamesRead(lay, ms) && IsOnly(lay, ms, wanted, i, value)
  }

  /** The scanner looks for an opening brace, and then runs its loop. */
  lemma CutIsLoop(data: Bytes, wanted: Bytes, decode: Bytes -> Option<Value>, value: Bytes, p: nat)
    requires SkipSpace(data, 0) == p
    ensures
      RawObjectMember(data, wanted, decode) == Some(value) <==>
      StandsAt(data, p, '{') && TailOf(data, wanted, decode)(p + 1, None) == Some(value)
  {
  }

  lemma {:induction false} CutReads(data: Bytes, wanted: Bytes, decode: Bytes -> Option<Value>, value: Bytes)
    requires RawObjectMember(data, wanted, decode) == Some(value)
    ensures exists opening, ms, i :: IsCut(data, wanted, decode, value, opening, ms, i)
  {
    var p, lay := SkipSpace(data, 0), LayoutOf(data, decode);
    SkipSpaceIff(data, 0, p);
    CutIsLoop(data, wanted, decode, value, p);
    ScannerLoops(data, wanted, decode, value);
    BytesDiffer(data, decode);
    var ms := LoopReads(TailOf(data, wanted, decode), lay, |data|, p + 1, wanted, None, value);
    var i: nat :| IsOnly(lay, ms, wanted, i, value);
    assert IsCut(data, wanted, decode, value, p, ms, i);
  }

  lemma {:induction false} ReadsCut(
    data: Bytes, wanted: Bytes, decode: Bytes -> Option<Value>, value: Bytes, opening: nat, ms: seq<Place>, i: nat)
    requires IsCut(data, wanted, decode, value, opening, ms, i)
    ensures RawObjectMember(data, wanted, decode) == Some(value)
  {
    var lay := LayoutOf(data, decode);
    SkipSpaceIff(data, 0, opening);
    CutIsLoop(data, wanted, decode, value, opening);
    ScannerLoops(data, wanted, decode, value);
    BytesDiffer(data, decode);
    assert Finds(lay, ms, wanted, None, value);
    ReadsLoop(TailOf(data, wanted, decode), lay, |data|, opening + 1, wanted, None, value, ms);
  }

  /**
   On any bytes: a member is cut out if and only if the text starts with an object whose members have
   readable names, exactly one of which is the wanted name; the bytes cut out are those of its value.  A
   comma may follow the last member, and anything at all may follow the object.
   */
  lemma {:induction false} CutIff(data: Bytes, wanted: Bytes, decode: Bytes -> Option<Value>, value: Bytes)
    ensures
      RawObjectMember(data, wanted, decode) == Some(value) <==>
      exists opening, ms, i :: IsCut(data, wanted, decode, value, opening, ms, i)
  {
    if RawObjectMember(data, wanted, decode) == Some(value) {
      CutReads(data, wanted, decode, value);
    }
    if opening, ms, i :| IsCut(data, wanted, decode, value, opening, ms, i) {
      ReadsCut(data, wanted, decode, value, opening, ms, i);
    }
  }
}
