/**
 The loop over the members of an object, whatever stands in the text: which members it reads, given what
 one of its turns does.
 */
module MemberLoops {
  import opened Options
  import opened Json

  /** Where the parts of a member stand. */
  datatype Place = Place(keyStart: nat, keyEnd: nat, colon: nat, start: nat, end: nat, next: nat)

  /**
   A text as the loop sees it: where members stand, which stretches are blank, what the name of a member
   is, which bytes are its value, and what follows it.
   */
  datatype Layout = Layout(
    isPlace: Place -> bool, skips: (nat, nat) -> bool,
    name: Place -> Option<Value>, cut: Place -> Bytes, stands: (nat, char) -> bool)

  /** What the loop finds from a position on, with something found already. */
  type Loop = (nat, Option<Bytes>) -> Option<Bytes>

  // ----- Objects -----

  /** Only blanks before a closing brace. */
  ghost predicate BraceAfter(lay: Layout, p: nat) {
    exists k :: lay.skips(p, k) && lay.stands(k, '}')
  }

  /** The object ends, perhaps after one more comma. */
  ghost predicate EndsAfter(lay: Layout, p: nat) {
    lay.stands(p, '}') || (lay.stands(p, ',') && BraceAfter(lay, p + 1))
  }

  ghost predicate ArePlaces(lay: Layout, ms: seq<Place>) {
    forall i :: 0 <= i < |ms| ==> lay.isPlace(ms[i])
  }

  /** After the member at `i` comes a comma, and then the next one. */
  ghost predicate FollowsAt(lay: Layout, ms: seq<Place>, i: nat) {
    i + 1 < |ms| && lay.stands(ms[i].next, ',') && lay.skips(ms[i].next + 1, ms[i + 1].keyStart)
  }

  ghost predicate Follow(lay: Layout, ms: seq<Place>) {
    forall i :: 0 <= i < |ms| - 1 ==> FollowsAt(lay, ms, i)
  }

  /** Members stand from `p` on, with commas between them, and then the object ends. */
  ghost predicate Listed(lay: Layout, p: nat, ms: seq<Place>) {
    && ms != [] && ArePlaces(lay, ms)
    && lay.skips(p, ms[0].keyStart)
    && Follow(lay, ms)
    && EndsAfter(lay, ms[|ms| - 1].next)
  }

  ghost predicate NamesRead(lay: Layout, ms: seq<Place>) {
    forall i :: 0 <= i < |ms| ==> lay.name(ms[i]).Some?
  }

  predicate IsWanted(lay: Layout, ms: seq<Place>, wanted: Bytes, i: nat) {
    i < |ms| && lay.name(ms[i]) == Some(Str(wanted))
  }

  /** The member at `i` is the only one that is wanted, and these are the bytes of its value. */
  ghost predicate IsOnly(lay: Layout, ms: seq<Place>, wanted: Bytes, i: nat, value: Bytes) {
    && i < |ms| && value == lay.cut(ms[i])
    && forall j :: 0 <= j < |ms| ==> (IsWanted(lay, ms, wanted, j) <==> j == i)
  }

  ghost predicate IsNone(lay: Layout, ms: seq<Place>, wanted: Bytes) {
    forall j :: 0 <= j < |ms| ==> !IsWanted(lay, ms, wanted, j)
  }

  /** What was found before, or else the only member that is wanted. */
  ghost predicate Finds(lay: Layout, ms: seq<Place>, wanted: Bytes, found: Option<Bytes>, value: Bytes) {
    if found.Some? then found == Some(value) && IsNone(lay, ms, wanted)
    else exists i: nat :: IsOnly(lay, ms, wanted, i, value)
  }

  /** The members from `p` on, if there are any more, and what is found among them. */
  ghost predicate Reads(
    lay: Layout, p: nat, wanted: Bytes, found: Option<Bytes>, value: Bytes, ms: seq<Place>)
  {
    && (if ms == [] then BraceAfter(lay, p) else Listed(lay, p, ms))
    && NamesRead(lay, ms) && Finds(lay, ms, wanted, found, value)
  }

  /** What is found once the member was read. */
  function FoundAfter(lay: Layout, m: Place, wanted: Bytes, found: Option<Bytes>): Option<Bytes> {
    if lay.name(m) == Some(Str(wanted)) then Some(lay.cut(m)) else found
  }

  // ----- One turn -----

  /** After a member the loop goes on or ends, and finds the value. */
  predicate GoesOn(loop: Loop, lay: Layout, wanted: Bytes, found: Option<Bytes>, m: Place, value: Bytes) {
    && lay.name(m).Some? && !(found.Some? && lay.name(m) == Some(Str(wanted)))
    && var found' := FoundAfter(lay, m, wanted, found);
       if lay.stands(m.next, ',') then loop(m.next + 1, found') == Some(value)
       else lay.stands(m.next, '}') && found' == Some(value)
  }

  predicate StandsFrom(lay: Layout, p: nat, m: Place) {
    lay.skips(p, m.keyStart) && lay.isPlace(m)
  }

  /** One turn of the loop, over a member, gets it on within the `size` bytes of the text. */
  predicate TurnAt(
    loop: Loop, lay: Layout, size: nat, wanted: Bytes, value: Bytes, p: nat, found: Option<Bytes>, m: Place)
  {
    StandsFrom(lay, p, m) && p <= size ==>
      p < m.next < size && (loop(p, found) == Some(value) <==> GoesOn(loop, lay, wanted, found, m, value))
  }

  /** The last turn, and that there is a member before it. */
  ghost predicate EndAt(loop: Loop, lay: Layout, size: nat, p: nat, found: Option<Bytes>) {
    && (p <= size && BraceAfter(lay, p) ==> loop(p, found) == found)
    && (p <= size && !BraceAfter(lay, p) && loop(p, found).Some? ==> exists m :: StandsFrom(lay, p, m))
  }

  ghost predicate IsLoop(loop: Loop, lay: Layout, size: nat, wanted: Bytes, value: Bytes) {
    && (forall p: nat, found :: EndAt(loop, lay, size, p, found))
    && (forall p: nat, found, m :: TurnAt(loop, lay, size, wanted, value, p, found, m))
  }

  // ----- The first member and the rest -----

  lemma NoneCons(lay: Layout, ms: seq<Place>, wanted: Bytes)
    requires ms != []
    ensures IsNone(lay, ms, wanted) <==> !IsWanted(lay, ms, wanted, 0) && IsNone(lay, ms[1..], wanted)
  {
    var rest := ms[1..];
    if !IsWanted(lay, ms, wanted, 0) && IsNone(lay, rest, wanted) {
      forall j | 0 <= j < |ms| ensures !IsWanted(lay, ms, wanted, j) {
        assert j > 0 ==> !IsWanted(lay, rest, wanted, j - 1);
      }
    }
    if IsNone(lay, ms, wanted) {
      forall j | 0 <= j < |rest| ensures !IsWanted(lay, rest, wanted, j) {
        assert !IsWanted(lay, ms, wanted, j + 1);
      }
    }
  }

  lemma FirstOnly(lay: Layout, ms: seq<Place>, wanted: Bytes, value: Bytes)
    requires ms != [] && IsWanted(lay, ms, wanted, 0)
    ensures
      (exists i: nat :: IsOnly(lay, ms, wanted, i, value)) <==>
      value == lay.cut(ms[0]) && IsNone(lay, ms[1..], wanted)
  {
    var rest := ms[1..];
    if i: nat :| IsOnly(lay, ms, wanted, i, value) {
      assert IsWanted(lay, ms, wanted, 0) <==> 0 == i;
      forall j | 0 <= j < |rest| ensures !IsWanted(lay, rest, wanted, j) {
        assert !IsWanted(lay, ms, wanted, j + 1);
      }
    }
    if value == lay.cut(ms[0]) && IsNone(lay, rest, wanted) {
      forall j | 0 <= j < |ms| ensures IsWanted(lay, ms, wanted, j) <==> j == 0 {
        assert j > 0 ==> !IsWanted(lay, rest, wanted, j - 1);
      }
      assert IsOnly(lay, ms, wanted, 0, value);
    }
  }

  lemma LaterOnly(lay: Layout, ms: seq<Place>, wanted: Bytes, value: Bytes)
    requires ms != [] && !IsWanted(lay, ms, wanted, 0)
    ensures
      (exists i: nat :: IsOnly(lay, ms, wanted, i, value)) <==> exists i: nat :: IsOnly(lay, ms[1..], wanted, i, value)
  {
    var rest := ms[1..];
    if i: nat :| IsOnly(lay, ms, wanted, i, value) {
      forall j | 0 <= j < |rest| ensures IsWanted(lay, rest, wanted, j) <==> j == i - 1 {
        assert IsWanted(lay, ms, wanted, j + 1) <==> j + 1 == i;
      }
      assert IsOnly(lay, rest, wanted, i - 1, value);
    }
    if i: nat :| IsOnly(lay, rest, wanted, i, value) {
      forall j | 0 <= j < |ms| ensures IsWanted(lay, ms, wanted, j) <==> j == i + 1 {
        assert j > 0 ==> (IsWanted(lay, rest, wanted, j - 1) <==> j - 1 == i);
      }
      assert IsOnly(lay, ms, wanted, i + 1, value);
    }
  }

  lemma {:induction false} FindsCons(lay: Layout, ms: seq<Place>, wanted: Bytes, found: Option<Bytes>, value: Bytes)
    requires ms != []
    ensures
      Finds(lay, ms, wanted, found, value) <==>
      && !(found.Some? && lay.name(ms[0]) == Some(Str(wanted)))
      && Finds(lay, ms[1..], wanted, FoundAfter(lay, ms[0], wanted, found), value)
  {
    NoneCons(lay, ms, wanted);
    if found.None? {
      if IsWanted(lay, ms, wanted, 0) {
        FirstOnly(lay, ms, wanted, value);
      } else {
        LaterOnly(lay, ms, wanted, value);
      }
    }
  }

  /** The first member, and what follows it. */
  ghost predicate ListedFirst(lay: Layout, p: nat, ms: seq<Place>)
    requires ms != []
  {
    && lay.isPlace(ms[0]) && lay.skips(p, ms[0].keyStart)
    && if |ms| == 1 then EndsAfter(lay, ms[0].next)
       else lay.stands(ms[0].next, ',') && Listed(lay, ms[0].next + 1, ms[1..])
  }

  lemma FollowCons(lay: Layout, ms: seq<Place>)
    requires |ms| > 1
    ensures Follow(lay, ms) <==> FollowsAt(lay, ms, 0) && Follow(lay, ms[1..])
  {
    var rest := ms[1..];
    if Follow(lay, ms) {
      forall i | 0 <= i < |rest| - 1 ensures FollowsAt(lay, rest, i) {
        assert FollowsAt(lay, ms, i + 1);
      }
    }
    if FollowsAt(lay, ms, 0) && Follow(lay, rest) {
      forall i | 0 <= i < |ms| - 1 ensures FollowsAt(lay, ms, i) {
        assert i > 0 ==> FollowsAt(lay, rest, i - 1);
      }
    }
  }

  lemma PlacesCons(lay: Layout, ms: seq<Place>)
    requires ms != []
    ensures ArePlaces(lay, ms) <==> lay.isPlace(ms[0]) && ArePlaces(lay, ms[1..])
  {
    var rest := ms[1..];
    assert forall i :: 0 <= i < |rest| ==> rest[i] == ms[i + 1];
    assert forall i :: 0 < i < |ms| ==> ms[i] == rest[i - 1];
  }

  lemma {:induction false} ListedCons(lay: Layout, p: nat, ms: seq<Place>)
    requires ms != []
    ensures Listed(lay, p, ms) <==> ListedFirst(lay, p, ms)
  {
    PlacesCons(lay, ms);
    if |ms| > 1 {
      FollowCons(lay, ms);
      assert ms[1..][|ms| - 2] == ms[|ms| - 1];
    }
  }

  lemma {:induction false} NamesCons(lay: Layout, ms: seq<Place>)
    requires ms != []
    ensures NamesRead(lay, ms) <==> lay.name(ms[0]).Some? && NamesRead(lay, ms[1..])
  {
    var rest := ms[1..];
    assert forall i :: 0 <= i < |rest| ==> rest[i] == ms[i + 1];
    assert forall i :: 0 < i < |ms| ==> ms[i] == rest[i - 1];
  }

  lemma ReadsNothing(lay: Layout, p: nat, wanted: Bytes, found: Option<Bytes>, value: Bytes)
    ensures Reads(lay, p, wanted, found, value, []) <==> BraceAfter(lay, p) && found == Some(value)
  {
  }

  /** What is left to read after a member. */
  ghost predicate ReadsRest(
    lay: Layout, wanted: Bytes, found: Option<Bytes>, next: nat, value: Bytes, rest: seq<Place>)
  {
    if lay.stands(next, ',') then Reads(lay, next + 1, wanted, found, value, rest)
    else lay.stands(next, '}') && found == Some(value) && rest == []
  }

  lemma {:induction false} RestIff(
    lay: Layout, p: nat, wanted: Bytes, found: Option<Bytes>, value: Bytes, ms: seq<Place>)
    requires ms != [] && lay.isPlace(ms[0]) && lay.skips(p, ms[0].keyStart)
    requires !(lay.stands(ms[0].next, ',') && lay.stands(ms[0].next, '}'))
    ensures
      ReadsRest(lay, wanted, found, ms[0].next, value, ms[1..]) <==>
      ListedFirst(lay, p, ms) && NamesRead(lay, ms[1..]) && Finds(lay, ms[1..], wanted, found, value)
  {
    if |ms| == 1 {
      ReadsNothing(lay, ms[0].next + 1, wanted, found, value);
      assert ms[1..] == [];
    }
  }

  /** No place holds two different bytes. */
  ghost predicate OneByte(lay: Layout) {
    forall p :: !(lay.stands(p, ',') && lay.stands(p, '}'))
  }

  lemma {:induction false} ReadsIff(
    lay: Layout, p: nat, wanted: Bytes, found: Option<Bytes>, value: Bytes, ms: seq<Place>)
    requires OneByte(lay) && ms != []
    ensures
      Reads(lay, p, wanted, found, value, ms) <==>
      && StandsFrom(lay, p, ms[0])
      && lay.name(ms[0]).Some? && !(found.Some? && lay.name(ms[0]) == Some(Str(wanted)))
      && ReadsRest(lay, wanted, FoundAfter(lay, ms[0], wanted, found), ms[0].next, value, ms[1..])
  {
    ListedCons(lay, p, ms);
    NamesCons(lay, ms);
    FindsCons(lay, ms, wanted, found, value);
    if StandsFrom(lay, p, ms[0]) {
      RestIff(lay, p, wanted, FoundAfter(lay, ms[0], wanted, found), value, ms);
    }
  }

  // ----- What the loop reads -----

  /** If the loop finds the value, members stand there that it read. */
  lemma {:induction false} LoopReads(
    loop: Loop, lay: Layout, size: nat, p: nat, wanted: Bytes, found: Option<Bytes>, value: Bytes)
    returns (ms: seq<Place>)
    requires OneByte(lay) && IsLoop(loop, lay, size, wanted, value) && p <= size && loop(p, found) == Some(value)
    ensures Reads(lay, p, wanted, found, value, ms)
    decreases size - p
  {
    ms := [];
    assert EndAt(loop, lay, size, p, found);
    if BraceAfter(lay, p) {
      ReadsNothing(lay, p, wanted, found, value);
    } else {
      var m :| StandsFrom(lay, p, m);
      assert TurnAt(loop, lay, size, wanted, value, p, found, m);
      var rest: seq<Place> := [];
      if lay.stands(m.next, ',') {
        rest := LoopReads(loop, lay, size, m.next + 1, wanted, FoundAfter(lay, m, wanted, found), value);
      }
      ms := [m] + rest;
      assert ms[1..] == rest;
      ReadsIff(lay, p, wanted, found, value, ms);
    }
  }

  /** If such members stand there, the loop reads them and finds the value. */
  lemma {:induction false} ReadsLoop(
    loop: Loop, lay: Layout, size: nat, p: nat, wanted: Bytes, found: Option<Bytes>, value: Bytes, ms: seq<Place>)
    requires OneByte(lay) && IsLoop(loop, lay, size, wanted, value)
    requires p <= size && Reads(lay, p, wanted, found, value, ms)
    ensures loop(p, found) == Some(value)
    decreases |ms|
  {
    if ms == [] {
      ReadsNothing(lay, p, wanted, found, value);
      assert EndAt(loop, lay, size, p, found);
    } else {
      ReadsIff(lay, p, wanted, found, value, ms);
      assert TurnAt(loop, lay, size, wanted, value, p, found, ms[0]);
      if lay.stands(ms[0].next, ',') {
        ReadsLoop(
          loop, lay, size, ms[0].next + 1, wanted, FoundAfter(lay, ms[0], wanted, found), value, ms[1..]);
      }
    }
  }
}
