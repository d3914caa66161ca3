/**
 The byte scanner that cuts the exact encoding of one member out of a JSON object.  `None` stands for
 EvidenceError.
 */
module Scanner {
  import opened Options
  import opened Json

  // ----- What each loop computes -----

  function SkipSpace(data: Bytes, position: nat): (p: nat)
    ensures position <= p
    ensures position <= |data| ==> p <= |data|
    decreases |data| - position
  {
    if position < |data| && IsSpace(data[position]) then SkipSpace(data, position + 1) else position
  }

  /** The loop of `_string_end`, from inside the literal. */
  function StringTail(data: Bytes, position: nat): (r: Option<nat>)
    ensures r.Some? ==> position < r.value <= |data|
    decreases |data| - position
  {
    if position >= |data| then None
    else if data[position] == '"' then Some(position + 1)
    else if data[position] == '\\' then StringTail(data, position + 2)
    else StringTail(data, position + 1)
  }

  function StringEnd(data: Bytes, position: nat): (r: Option<nat>)
    ensures r.Some? ==> position + 1 < r.value <= |data|
  {
    if position < |data| && data[position] == '"' then StringTail(data, position + 1) else None
  }

  function Matching(opening: char): char {
    if opening == '{' then '}' else ']'
  }

  /** The loop of `_value_end` over an object or array, with the delimiters still open on `stack`. */
  function CompositeTail(data: Bytes, position: nat, stack: Bytes): (r: Option<nat>)
    ensures r.Some? && position <= |data| ==> position <= r.value <= |data|
    decreases |data| - position
  {
    if stack == [] then Some(position)
    else if position >= |data| then None
    else
      var c := data[position];
      if c == '"' then
        var end := StringEnd(data, position);
        if end.None? then None else CompositeTail(data, end.value, stack)
      else if c == '{' || c == '[' then CompositeTail(data, position + 1, stack + [c])
      else if c == '}' || c == ']' then
        if c == Matching(stack[|stack| - 1]) then CompositeTail(data, position + 1, stack[..|stack| - 1]) else None
      else CompositeTail(data, position + 1, stack)
  }

  predicate EndsScalar(c: char) {
    c == ',' || c == '}' || c == ']' || IsSpace(c)
  }

  function ScalarTail(data: Bytes, position: nat): (p: nat)
    ensures position <= |data| ==> position <= p <= |data|
    decreases |data| - position
  {
    if position < |data| && !EndsScalar(data[position]) then ScalarTail(data, position + 1) else position
  }

  function ValueEnd(data: Bytes, start: nat): (r: Option<nat>)
    ensures r.Some? ==> start <= r.value <= |data|
  {
    var position := SkipSpace(data, start);
    if position >= |data| then None
    else if data[position] == '"' then StringEnd(data, position)
    else if data[position] == '{' || data[position] == '[' then
      CompositeTail(data, position + 1, [data[position]])
    else Some(ScalarTail(data, position))
  }

  /** One member of an object: its decoded name, where its value stands, and what follows. */
  datatype Span = Span(key: Value, start: nat, end: nat, next: nat)

  function MemberSpan(data: Bytes, keyStart: nat, decode: Bytes -> Option<Value>): (r: Option<Span>)
    ensures r.Some? ==> keyStart < r.value.start <= r.value.end <= r.value.next < |data|
  {
    var keyEnd := StringEnd(data, keyStart);
    if keyEnd.None? then None
    else
      var key := decode(data[keyStart..keyEnd.value]);
      var colon := SkipSpace(data, keyEnd.value);
      if key.None? || colon >= |data| || data[colon] != ':' then None
      else
        var start := SkipSpace(data, colon + 1);
        var end := ValueEnd(data, start);
        if end.None? || SkipSpace(data, end.value) >= |data| then None
        else Some(Span(key.value, start, end.value, SkipSpace(data, end.value)))
  }

  /** The loop of `_raw_object_member`, from the start of a member. */
  function MemberTail(data: Bytes, start: nat, wanted: Bytes, found: Option<Bytes>, decode: Bytes -> Option<Value>)
    : (r: Option<Bytes>)
    decreases |data| - start
  {
    var keyStart := SkipSpace(data, start);
    if keyStart >= |data| then None
    else if data[keyStart] == '}' then found
    else
      var span := MemberSpan(data, keyStart, decode);
      if span.None? || (span.value.key == Str(wanted) && found.Some?) then None
      else
        var Span(key, valueStart, valueEnd, next) := span.value;
        var found' := if key == Str(wanted) then Some(data[valueStart..valueEnd]) else found;
        if data[next] == ',' then MemberTail(data, next + 1, wanted, found', decode)
        else if data[next] == '}' then found'
        else None
  }

  function RawObjectMember(data: Bytes, wanted: Bytes, decode: Bytes -> Option<Value>): (r: Option<Bytes>) {
    var position := SkipSpace(data, 0);
    if position < |data| && data[position] == '{' then MemberTail(data, position + 1, wanted, None, decode) else None
  }

  // ----- The loops themselves -----

  method ScanSpace(data: Bytes, start: nat) returns (position: nat)
    ensures position == SkipSpace(data, start)
  {
    position := start;
    while position < |data| && IsSpace(data[position])
      invariant SkipSpace(data, position) == SkipSpace(data, start)
      decreases |data| - position
    {
      position := position + 1;
    }
  }

  method ScanString(data: Bytes, start: nat) returns (end: Option<nat>)
    ensures end == StringEnd(data, start)
  {
    if start >= |data| || data[start] != '"' {
      return None;
    }
    var position := start + 1;
    while position < |data|
      invariant StringTail(data, position) == StringEnd(data, start)
      decreases |data| - position
    {
      if data[position] == '"' {
        return Some(position + 1);
      }
      position := position + (if data[position] == '\\' then 2 else 1);
    }
    end := None;
  }

  method ScanComposite(data: Bytes, start: nat) returns (end: Option<nat>)
    requires start < |data| && (data[start] == '{' || data[start] == '[')
    ensures end == CompositeTail(data, start + 1, [data[start]])
  {
    var stack := [data[start]];
    var position := start + 1;
    while position < |data| && stack != []
      invariant position <= |data|
      invariant CompositeTail(data, position, stack) == CompositeTail(data, start + 1, [data[start]])
      decreases |data| - position
    {
      var c := data[position];
      if c == '"' {
        var stringEnd := ScanString(data, position);
        if stringEnd.None? {
          return None;
        }
        position := stringEnd.value;
        continue;
      }
      if c == '{' || c == '[' {
        stack := stack + [c];
      } else if c == '}' || c == ']' {
        if c != Matching(stack[|stack| - 1]) {
          return None;
        }
        stack := stack[..|stack| - 1];
      }
      position := position + 1;
    }
    end := if stack == [] then Some(position) else None;
  }

  method ScanValue(data: Bytes, start: nat) returns (end: Option<nat>)
    ensures end == ValueEnd(data, start)
  {
    var position := ScanSpace(data, start);
    if position >= |data| {
      return None;
    }
    if data[position] == '"' {
      end := ScanString(data, position);
    } else if data[position] == '{' || data[position] == '[' {
      end := ScanComposite(data, position);
    } else {
      ghost var first := position;
      while position < |data| && !EndsScalar(data[position])
        invariant position <= |data|
        invariant ScalarTail(data, position) == ScalarTail(data, first)
        decreases |data| - position
      {
        position := position + 1;
      }
      end := Some(position);
    }
  }

  method ScanMember(data: Bytes, keyStart: nat, decode: Bytes -> Option<Value>) returns (span: Option<Span>)
    ensures span == MemberSpan(data, keyStart, decode)
  {
    var keyEnd := ScanString(data, keyStart);
    if keyEnd.None? {
      return None;
    }
    var key := decode(data[keyStart..keyEnd.value]);
    var colon := ScanSpace(data, keyEnd.value);
    if key.None? || colon >= |data| || data[colon] != ':' {
      return None;
    }
    var start := ScanSpace(data, colon + 1);
    var end := ScanValue(data, start);
    if end.None? {
      return None;
    }
    var next := ScanSpace(data, end.value);
    span := if next >= |data| then None else Some(Span(key.value, start, end.value, next));
  }

  method CutMember(data: Bytes, wanted: Bytes, decode: Bytes -> Option<Value>) returns (member: Option<Bytes>)
    ensures member == RawObjectMember(data, wanted, decode)
  {
    var position := ScanSpace(data, 0);
    if position >= |data| || data[position] != '{' {
      return None;
    }
    position := position + 1;
    member := None;
    while true
      invariant position <= |data|
      invariant MemberTail(data, position, wanted, member, decode) == RawObjectMember(data, wanted, decode)
      decreases |data| - position
    {
      var keyStart := ScanSpace(data, position);
      if keyStart >= |data| {
        return None;
      }
      if data[keyStart] == '}' {
        return member;
      }
      var span := ScanMember(data, keyStart, decode);
      if span.None? {
        return None;
      }
      if span.value.key == Str(wanted) {
        if member.Some? {
          return None;
        }
        member := Some(data[span.value.start..span.value.end]);
      }
      position := span.value.next;
      if data[position] == ',' {
        position := position + 1;
      } else if data[position] == '}' {
        return member;
      } else {
        return None;
      }
    }
  }
}
