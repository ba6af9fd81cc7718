/** A skills index in object form: a reading in chunks never gives entries that the whole
    text does not have, and which valid objects are refused however they are cut. */
module SkillsObject {
  import opened Policy
  import opened SkillsIndex

  // ---------------------------------------------------------------- laws of the decoder

  /** No value starts with a closing brace or a colon, and lists are what starts with a bracket. */
  ghost predicate Started(d: Decoder) {
    forall s, p: nat, value, end: nat | Found(d, s, p, value, end) && p < |s| ::
      s[p] != '}' && s[p] != ':' && (s[p] == '[' <==> value.List?)
  }

  /** Nothing that could follow a value starts at `p`: no punctuation and no name. */
  ghost predicate DeadEnd(d: Decoder, text: string, p: nat) {
    p < |text| && !IsSpace(text[p]) && text[p] != '}' && text[p] != ','
    && (d(text, p).Some? ==> !d(text, p).value.0.Name?)
  }

  /** A number that was cut short ends in a dead end. */
  ghost predicate CutShort(d: Decoder) {
    forall s, t, p: nat, value, end: nat | Found(d, s, p, value, end) && value.Number? && s <= t ::
      (d(t, p).Some? && d(t, p).value.1 == end) || DeadEnd(d, t, end)
  }

  /** A list of objects is what reading its elements one by one gives. */
  ghost predicate Listed(d: Decoder)
    requires Bounded(d)
  {
    forall s, p: nat, value, end: nat
      | Found(d, s, p, value, end) && value.List? && AllObjects(value.items) && p < |s| ::
      ArrayOf(d, s, p + 1) == Some(value.items) && ArrayEndOf(d, s, p + 1) == end
  }

  predicate AllObjects(values: seq<Value>) {
    forall v | v in values :: v.Object?
  }

  ghost predicate ReadsObjects(d: Decoder) {
    Lawful(d) && Started(d) && CutShort(d) && Listed(d)
  }

  // ---------------------------------------------------------------- where an array ends

  ghost function ArrayEndOf(d: Decoder, text: string, p: nat): (end: nat)
    requires p <= |text| && Bounded(d)
    ensures p <= end <= |text|
    decreases |text| - p
  {
    var q := FirstSolid(text, p);
    if q == |text| then q
    else if text[q] == ']' then q + 1
    else if text[q] == ',' then ArrayEndOf(d, text, q + 1)
    else
      match d(text, q)
      case None => q
      case Some((value, end)) =>
        assert Found(d, text, q, value, end);
        if !value.Object? then q else ArrayEndOf(d, text, end)
  }

  ghost function ArrayEnd(d: Decoder, chunks: seq<string>, at: Place): (r: Place)
    requires Reached(chunks, at) && Lawful(d) && IsCut(chunks)
    ensures Reached(chunks, r) && at.pos <= r.pos
    decreases |Text(chunks)| - at.pos
  {
    var here := Look(chunks, at);
    LookStays(chunks, at);
    var loaded := Loaded(chunks, here.next);
    if here.pos == |loaded| then here
    else if loaded[here.pos] == ']' then Place(here.next, here.pos + 1)
    else if loaded[here.pos] == ',' then ArrayEnd(d, chunks, Place(here.next, here.pos + 1))
    else
      match DecodeRun(d, chunks, Skip(chunks, here))
      case None => here
      case Some((value, after)) =>
        SkipStays(chunks, here);
        LoadedAll(chunks, after.next);
        if !value.Object? then here else ArrayEnd(d, chunks, after)
  }

  /** An array read in chunks ends where it ends in the text. */
  lemma {:induction false} ArrayEndsThere(d: Decoder, chunks: seq<string>, at: Place)
    requires Reached(chunks, at) && Lawful(d) && IsCut(chunks) && at.pos <= |Text(chunks)|
    ensures ArrayRun(d, chunks, at).Some? ==> ArrayEnd(d, chunks, at).pos == ArrayEndOf(d, Text(chunks), at.pos)
    decreases |Text(chunks)| - at.pos
  {
    hide Stable, Trimmable, Text, Loaded, Skip, Look, DecodeRun, Visible, Bounded, FirstSolid, IsSpace;
    var text, here := Text(chunks), Look(chunks, at);
    LookStays(chunks, at);
    var loaded := Loaded(chunks, here.next);
    if here.pos < |loaded| {
      SeenCharacter(chunks, here);
    }
    if here.pos < |loaded| && loaded[here.pos] != ']' {
      if loaded[here.pos] == ',' {
        ArrayEndsThere(d, chunks, Place(here.next, here.pos + 1));
      } else {
        ValueAgrees(d, chunks, here);
        var run := DecodeRun(d, chunks, Skip(chunks, here));
        if run.Some? && run.value.0.Object? {
          SkipStays(chunks, here);
          LoadedAll(chunks, run.value.1.next);
          ObjectIsNext(d, text, at.pos);
          ArrayEndsThere(d, chunks, run.value.1);
        }
      }
    }
  }

  // ---------------------------------------------------------------- the members of an object

  /** The place after a colon, looked for by two skips and, if they stop short, a third. */
  function ColonRun(chunks: seq<string>, at: Place): Option<Place>
    requires Reached(chunks, at)
  {
    var one := Look(chunks, at);
    var two := Skip(chunks, one);
    if one.pos < |Loaded(chunks, one.next)| && Loaded(chunks, one.next)[one.pos] == ':' then
      Some(Place(one.next, one.pos + 1))
    else if two.pos < |Loaded(chunks, two.next)| && Loaded(chunks, two.next)[two.pos] == ':' then
      Some(Place(two.next, two.pos + 1))
    else None
  }

  /** The rest of a top-level object: the objects of its lists called skills, or None for
      invalid. After a value of that name that is no array seen by its bracket, the comma is
      left for the next key. */
  ghost function ObjectRun(d: Decoder, chunks: seq<string>, at: Place): Option<seq<Value>>
    requires Reached(chunks, at) && at.pos <= |Text(chunks)| && ReadsObjects(d) && IsCut(chunks)
    decreases |Text(chunks)| - at.pos, 1
  {
    var here := Look(chunks, at);
    LookStays(chunks, at);
    var loaded := Loaded(chunks, here.next);
    if here.pos == |loaded| then None
    else if loaded[here.pos] == '}' then Some([])
    else
      SkipStays(chunks, here);
      match DecodeRun(d, chunks, Skip(chunks, here))
      case None => None
      case Some((key, after)) =>
        LoadedAll(chunks, after.next);
        if !key.Name? then None
        else
          match ColonRun(chunks, after)
          case None => None
          case Some(start) =>
            ColonStays(chunks, after);
            MemberRun(d, chunks, start, key.text == "skills")
  }

  /** The value of a member and the rest of the object. */
  ghost function MemberRun(d: Decoder, chunks: seq<string>, at: Place, skills: bool): Option<seq<Value>>
    requires Reached(chunks, at) && at.pos <= |Text(chunks)| && ReadsObjects(d) && IsCut(chunks)
    decreases |Text(chunks)| - at.pos, 0
  {
    var here := if skills then Look(chunks, at) else at;
    LookStays(chunks, at);
    var loaded := Loaded(chunks, here.next);
    if skills && here.pos == |loaded| then None
    else if skills && loaded[here.pos] == '[' then
      var inner := Place(here.next, here.pos + 1);
      LoadedAll(chunks, here.next);
      match ArrayRun(d, chunks, inner)
      case None => None
      case Some(entries) =>
        LoadedAll(chunks, ArrayEnd(d, chunks, inner).next);
        Prepend(entries, SeparatorRun(d, chunks, ArrayEnd(d, chunks, inner)))
    else
      SkipStays(chunks, here);
      match DecodeRun(d, chunks, Skip(chunks, here))
      case None => None
      case Some((value, after)) =>
        LoadedAll(chunks, after.next);
        if !skills then SeparatorRun(d, chunks, after)
        else if !value.List? then ObjectRun(d, chunks, after)
        else if AllObjects(value.items) then Prepend(value.items, ObjectRun(d, chunks, after))
        else None
  }

  /** After a value: a comma, the closing brace, or another key at once. */
  ghost function SeparatorRun(d: Decoder, chunks: seq<string>, at: Place): Option<seq<Value>>
    requires Reached(chunks, at) && at.pos <= |Text(chunks)| && ReadsObjects(d) && IsCut(chunks)
    decreases |Text(chunks)| - at.pos, 2
  {
    var here := Look(chunks, at);
    LookStays(chunks, at);
    var loaded := Loaded(chunks, here.next);
    LoadedAll(chunks, here.next);
    if here.pos == |loaded| then None
    else if loaded[here.pos] == ',' then ObjectRun(d, chunks, Place(here.next, here.pos + 1))
    else if loaded[here.pos] == '}' then Some([])
    else ObjectRun(d, chunks, here)
  }

  lemma ColonStays(chunks: seq<string>, at: Place)
    requires IsCut(chunks) && Reached(chunks, at) && ColonRun(chunks, at).Some?
    ensures var text, r := Text(chunks), ColonRun(chunks, at).value;
            && Reached(chunks, r) && at.pos < r.pos <= |text|
            && FirstSolid(text, at.pos) == r.pos - 1 && text[r.pos - 1] == ':'
  {
    hide Skip, FirstSolid, Text, Loaded;
    var one := Look(chunks, at);
    LookStays(chunks, at);
    SkipStays(chunks, one);
    LoadedAll(chunks, one.next);
    LoadedAll(chunks, Skip(chunks, one).next);
    SolidAt(Text(chunks), one.pos);
    SolidAt(Text(chunks), Skip(chunks, one).pos);
  }

  lemma SolidAt(text: string, p: nat)
    requires p <= |text|
    ensures p < |text| && !IsSpace(text[p]) ==> FirstSolid(text, p) == p
  {
  }

  lemma PunctuationIsSolid()
    ensures !IsSpace('}') && !IsSpace('[') && !IsSpace(',')
  {
  }

  // ---------------------------------------------------------------- the whole text

  ghost function ObjectOf(d: Decoder, text: string, p: nat): Option<seq<Value>>
    requires p <= |text| && ReadsObjects(d)
    decreases |text| - p, 1
  {
    var q := FirstSolid(text, p);
    if q == |text| then None
    else if text[q] == '}' then Some([])
    else
      match d(text, q)
      case None => None
      case Some((key, end)) =>
        assert Found(d, text, q, key, end);
        var colon := FirstSolid(text, end);
        if !key.Name? || colon == |text| || text[colon] != ':' then None
        else MemberOf(d, text, colon + 1, key.text == "skills")
  }

  ghost function MemberOf(d: Decoder, text: string, p: nat, skills: bool): Option<seq<Value>>
    requires p <= |text| && ReadsObjects(d)
    decreases |text| - p, 0
  {
    var q := FirstSolid(text, p);
    if q == |text| then None
    else if skills && text[q] == '[' then
      match ArrayOf(d, text, q + 1)
      case None => None
      case Some(entries) => Prepend(entries, SeparatorOf(d, text, ArrayEndOf(d, text, q + 1)))
    else
      match d(text, q)
      case None => None
      case Some((value, end)) =>
        assert Found(d, text, q, value, end);
        if skills then ObjectOf(d, text, end) else SeparatorOf(d, text, end)
  }

  ghost function SeparatorOf(d: Decoder, text: string, p: nat): Option<seq<Value>>
    requires p <= |text| && ReadsObjects(d)
    decreases |text| - p, 2
  {
    var q := FirstSolid(text, p);
    if q == |text| then None
    else if text[q] == ',' then ObjectOf(d, text, q + 1)
    else if text[q] == '}' then Some([])
    else ObjectOf(d, text, q)
  }

  // ---------------------------------------------------------------- never wrong

  /** What a run decodes it found, in what was loaded by then, at the next solid character. */
  lemma {:induction false} RunFindsThere(d: Decoder, chunks: seq<string>, at: Place)
    requires Reached(chunks, at) && Lawful(d) && IsCut(chunks) && at.pos <= |Text(chunks)|
    ensures match DecodeRun(d, chunks, at)
            case None => true
            case Some((value, after)) =>
              && Loaded(chunks, after.next) <= Text(chunks)
              && Found(d, Loaded(chunks, after.next), FirstSolid(Text(chunks), at.pos), value, after.pos)
    decreases |chunks| - at.next
  {
    hide Text, Loaded, FirstSolid, IsSpace, Bounded, Stable, Trimmable, Skip, IsStructural;
    var text, loaded := Text(chunks), Loaded(chunks, at.next);
    LoadedAll(chunks, at.next);
    match d(loaded, at.pos)
    case Some((value, end)) => FoundIsSolid(d, loaded, text, at.pos, value, end);
    case None =>
      if at.next < |chunks| {
        LoadedGrows(chunks, at.next, at.next + 1);
        LoadedAll(chunks, at.next + 1);
        var more := Place(at.next + 1, at.pos);
        SkipStays(chunks, more);
        RunFindsThere(d, chunks, Skip(chunks, more));
      }
  }

  lemma FoundIsSolid(d: Decoder, loaded: string, text: string, p: nat, value: Value, end: nat)
    requires Bounded(d) && loaded <= text && p <= |text| && d(loaded, p) == Some((value, end))
    ensures Found(d, loaded, p, value, end) && FirstSolid(text, p) == p
  {
    assert Found(d, loaded, p, value, end);
    assert text[p] == loaded[p];
  }

  /** The whole text has the same value there, unless it is a number cut short. */
  lemma FoundInText(d: Decoder, loaded: string, text: string, q: nat, value: Value, end: nat)
    requires ReadsObjects(d) && loaded <= text && Found(d, loaded, q, value, end)
    ensures q < end <= |text| && text[q] != '}' && (text[q] == '[' <==> value.List?)
    ensures d(text, q).Some? && (d(text, q).value.0.Number? <==> value.Number?)
    ensures if value.Number? then d(text, q).value.1 == end || DeadEnd(d, text, end)
            else d(text, q).value == (value, end)
  {
    assert text[q] == loaded[q];
    if !value.Number? {
      assert Found(d, text, q, value, end);
    } else if d(text, q).value.0 != value {
      assert Found(d, text, q, d(text, q).value.0, d(text, q).value.1);
    }
  }

  lemma DeadEndFails(d: Decoder, chunks: seq<string>, at: Place)
    requires Reached(chunks, at) && at.pos <= |Text(chunks)| && ReadsObjects(d) && IsCut(chunks)
    requires DeadEnd(d, Text(chunks), at.pos)
    ensures ObjectRun(d, chunks, at) == None && SeparatorRun(d, chunks, at) == None
  {
    hide Text, Loaded, FirstSolid, Bounded, Stable, Trimmable, Started, CutShort, Listed, Skip, Look, DecodeRun,
         MemberRun;
    var text, here := Text(chunks), Look(chunks, at);
    SolidAt(text, at.pos);
    LookStays(chunks, at);
    NoNameThere(d, chunks, at);
    LookStays(chunks, here);
    NoNameThere(d, chunks, here);
  }

  lemma NoNameThere(d: Decoder, chunks: seq<string>, at: Place)
    requires Reached(chunks, at) && at.pos <= |Text(chunks)| && ReadsObjects(d) && IsCut(chunks)
    requires DeadEnd(d, Text(chunks), at.pos)
    ensures var here := Look(chunks, at);
            && here.pos == at.pos && Reached(chunks, here)
            && (here.pos < |Loaded(chunks, here.next)| ==>
                  Loaded(chunks, here.next)[here.pos] != '}' && Loaded(chunks, here.next)[here.pos] != ',')
            && var key := DecodeRun(d, chunks, Skip(chunks, here)); key.Some? ==> !key.value.0.Name?
  {
    hide Text, Loaded, FirstSolid, Bounded, Stable, Trimmable, Started, CutShort, Listed, Skip, Look, DecodeRun;
    var text, here := Text(chunks), Look(chunks, at);
    SolidAt(text, at.pos);
    LookStays(chunks, at);
    SkipStays(chunks, here);
    RunFindsThere(d, chunks, Skip(chunks, here));
    var key := DecodeRun(d, chunks, Skip(chunks, here));
    if key.Some? {
      FoundInText(d, Loaded(chunks, key.value.1.next), text, at.pos, key.value.0, key.value.1.pos);
    }
  }

  predicate CommaNext(text: string, p: nat)
    requires p <= |text|
  {
    FirstSolid(text, p) < |text| && text[FirstSolid(text, p)] == ','
  }

  /** Only a separator takes a comma; apart from that it is the rest of the object. */
  lemma CommaOrObject(d: Decoder, text: string, p: nat)
    requires p <= |text| && ReadsObjects(d)
    ensures if CommaNext(text, p) then ObjectOf(d, text, p) == None
            else SeparatorOf(d, text, p) == ObjectOf(d, text, p)
  {
    var q := FirstSolid(text, p);
    if q < |text| {
      SolidEnds(text, p);
      SolidAt(text, q);
      if text[q] == ',' {
        StructuralIsNoValue(d, text, q);
      }
    }
  }

  lemma {:induction false} ObjectNeverWrong(d: Decoder, chunks: seq<string>, at: Place)
    requires Reached(chunks, at) && at.pos <= |Text(chunks)| && ReadsObjects(d) && IsCut(chunks)
    ensures ObjectRun(d, chunks, at).Some? ==> ObjectRun(d, chunks, at) == ObjectOf(d, Text(chunks), at.pos)
    decreases |Text(chunks)| - at.pos, 1
  {
    hide Text, Loaded, FirstSolid, Bounded, Stable, Trimmable, Started, CutShort, Listed, Skip, Look, DecodeRun,
         MemberRun, MemberOf, ColonRun, IsSpace;
    var text, here := Text(chunks), Look(chunks, at);
    LookStays(chunks, at);
    if here.pos < |Loaded(chunks, here.next)| {
      SeenCharacter(chunks, here);
      PunctuationIsSolid();
    }
    SkipStays(chunks, here);
    RunFindsThere(d, chunks, Skip(chunks, here));
    if ObjectRun(d, chunks, at).Some? && Loaded(chunks, here.next)[here.pos] != '}' {
      var (key, after) := DecodeRun(d, chunks, Skip(chunks, here)).value;
      FoundInText(d, Loaded(chunks, after.next), text, FirstSolid(text, at.pos), key, after.pos);
      ColonStays(chunks, after);
      MemberNeverWrong(d, chunks, ColonRun(chunks, after).value, key.text == "skills");
    }
  }

  lemma {:induction false} MemberNeverWrong(d: Decoder, chunks: seq<string>, at: Place, skills: bool)
    requires Reached(chunks, at) && at.pos <= |Text(chunks)| && ReadsObjects(d) && IsCut(chunks)
    ensures MemberRun(d, chunks, at, skills).Some? ==>
              MemberRun(d, chunks, at, skills) == MemberOf(d, Text(chunks), at.pos, skills)
    decreases |Text(chunks)| - at.pos, 0
  {
    hide Text, Loaded, FirstSolid, Bounded, Stable, Trimmable, Started, CutShort, Skip, Look, DecodeRun, ObjectRun,
         ObjectOf, SeparatorRun, SeparatorOf, ArrayRun, ArrayOf, ArrayEnd, ArrayEndOf, IsSpace, DeadEnd;
    var text, here := Text(chunks), if skills then Look(chunks, at) else at;
    LookStays(chunks, at);
    var loaded, q := Loaded(chunks, here.next), FirstSolid(text, at.pos);
    if skills && here.pos < |loaded| {
      SeenCharacter(chunks, here);
      PunctuationIsSolid();
    }
    if skills && here.pos < |loaded| && loaded[here.pos] == '[' {
      var inner := Place(here.next, here.pos + 1);
      NeverWrong(d, chunks, inner);
      ArrayEndsThere(d, chunks, inner);
      LoadedAll(chunks, ArrayEnd(d, chunks, inner).next);
      SeparatorNeverWrong(d, chunks, ArrayEnd(d, chunks, inner));
    } else {
      SkipStays(chunks, here);
      RunFindsThere(d, chunks, Skip(chunks, here));
      var run := DecodeRun(d, chunks, Skip(chunks, here));
      if run.Some? {
        var (value, after) := run.value;
        LoadedAll(chunks, after.next);
        FoundInText(d, Loaded(chunks, after.next), text, q, value, after.pos);
        ObjectNeverWrong(d, chunks, after);
        SeparatorNeverWrong(d, chunks, after);
        if DeadEnd(d, text, after.pos) {
          DeadEndFails(d, chunks, after);
        }
        CommaOrObject(d, text, after.pos);
        assert Found(d, text, q, d(text, q).value.0, d(text, q).value.1);
      }
    }
  }

  lemma {:induction false} SeparatorNeverWrong(d: Decoder, chunks: seq<string>, at: Place)
    requires Reached(chunks, at) && at.pos <= |Text(chunks)| && ReadsObjects(d) && IsCut(chunks)
    ensures SeparatorRun(d, chunks, at).Some? ==>
              SeparatorRun(d, chunks, at) == SeparatorOf(d, Text(chunks), at.pos)
    decreases |Text(chunks)| - at.pos, 2
  {
    hide Text, Loaded, FirstSolid, Bounded, Stable, Trimmable, Started, CutShort, Listed, Skip, Look, ObjectRun,
         ObjectOf, IsSpace;
    var text, here := Text(chunks), Look(chunks, at);
    LookStays(chunks, at);
    var loaded := Loaded(chunks, here.next);
    if here.pos < |loaded| {
      SeenCharacter(chunks, here);
      PunctuationIsSolid();
      if loaded[here.pos] == ',' {
        ObjectNeverWrong(d, chunks, Place(here.next, here.pos + 1));
      } else {
        ObjectNeverWrong(d, chunks, here);
        CommaOrObject(d, text, here.pos);
      }
    }
  }

  // ---------------------------------------------------------------- one cut, exactly

  /** A decoding fails only when the whole text has no value there. */
  lemma {:induction false} RunFindsIff(d: Decoder, chunks: seq<string>, at: Place)
    requires Reached(chunks, at) && Lawful(d) && IsCut(chunks) && at.pos <= |Text(chunks)|
    ensures DecodeRun(d, chunks, at).Some? <==> d(Text(chunks), FirstSolid(Text(chunks), at.pos)).Some?
    decreases |chunks| - at.next
  {
    hide Text, Loaded, FirstSolid, IsSpace, Bounded, Stable, Trimmable, Skip, IsStructural;
    var text, loaded := Text(chunks), Loaded(chunks, at.next);
    LoadedAll(chunks, at.next);
    match d(loaded, at.pos)
    case Some((value, end)) =>
      FoundIsSolid(d, loaded, text, at.pos, value, end);
      StaysFound(d, loaded, text, at.pos);
    case None =>
      if at.next < |chunks| {
        LoadedGrows(chunks, at.next, at.next + 1);
        LoadedAll(chunks, at.next + 1);
        var more := Place(at.next + 1, at.pos);
        SkipStays(chunks, more);
        RunFindsIff(d, chunks, Skip(chunks, more));
      }
  }

  lemma StaysFound(d: Decoder, loaded: string, text: string, p: nat)
    requires Stable(d) && loaded <= text && d(loaded, p).Some?
    ensures d(text, p).Some?
  {
    assert Found(d, loaded, p, d(loaded, p).value.0, d(loaded, p).value.1);
  }

  /** Position `q` is no further than the end of the second chunk to come. */
  predicate WidelyVisible(chunks: seq<string>, at: Place, q: nat)
    requires Reached(chunks, at)
  {
    q <= |Loaded(chunks, if at.next + 2 <= |chunks| then at.next + 2 else |chunks|)|
  }

  /** A third skip reaches one chunk further than two. */
  lemma ThirdSkip(chunks: seq<string>, at: Place)
    requires IsCut(chunks) && Reached(chunks, at) && at.pos <= |Text(chunks)|
    ensures var q, r := FirstSolid(Text(chunks), at.pos), Skip(chunks, Look(chunks, at));
            && r.pos <= q && (r.pos == q <==> WidelyVisible(chunks, at, q))
            && (r.pos == |Loaded(chunks, r.next)| ==> r.pos == |Text(chunks)|)
            && (Look(chunks, at).pos == q ==> r.pos == q)
  {
    hide Skip, FirstSolid, Text, Loaded, IsSpace;
    var one := Skip(chunks, at);
    var two := Skip(chunks, one);
    SkipStays(chunks, at);
    SkipStays(chunks, one);
    SkipStays(chunks, two);
    LoadedAll(chunks, at.next);
    if at.next < |chunks| {
      LoadedAll(chunks, at.next + 1);
      LoadedGrows(chunks, at.next, at.next + 1);
      if at.next + 1 < |chunks| {
        LoadedAll(chunks, at.next + 2);
        LoadedGrows(chunks, at.next + 1, at.next + 2);
      }
    }
  }

  lemma ColonFoundIff(chunks: seq<string>, at: Place)
    requires IsCut(chunks) && Reached(chunks, at) && at.pos <= |Text(chunks)|
    ensures var text, q := Text(chunks), FirstSolid(Text(chunks), at.pos);
            ColonRun(chunks, at).Some? <==> q < |text| && text[q] == ':' && WidelyVisible(chunks, at, q)
  {
    hide Skip, Look, FirstSolid, Text, Loaded, IsSpace, WidelyVisible;
    LookStays(chunks, at);
    ThirdSkip(chunks, at);
    LoadedAll(chunks, Skip(chunks, Look(chunks, at)).next);
    if ColonRun(chunks, at).Some? {
      ColonStays(chunks, at);
    }
  }

  lemma SolidEnds(text: string, p: nat)
    requires p <= |text|
    ensures FirstSolid(text, p) < |text| ==> !IsSpace(text[FirstSolid(text, p)])
  {
  }

  /** From here on every closing brace, comma, colon and bracket of the object is visible when
      its turn comes and every number is decoded whole; a bracket of skills may be missed when
      its list decodes as one value that no comma follows. */
  ghost predicate ObjectClear(d: Decoder, chunks: seq<string>, at: Place)
    requires Reached(chunks, at) && at.pos <= |Text(chunks)| && ReadsObjects(d) && IsCut(chunks)
    decreases |Text(chunks)| - at.pos, 1
  {
    var text, here := Text(chunks), Look(chunks, at);
    LookStays(chunks, at);
    var q := FirstSolid(text, at.pos);
    if q < |text| && text[q] == '}' then Visible(chunks, at, q)
    else
      SkipStays(chunks, here);
      match DecodeRun(d, chunks, Skip(chunks, here))
      case None => false
      case Some((key, after)) =>
        LoadedAll(chunks, after.next);
        && ColonRun(chunks, after).Some?
        && (ColonStays(chunks, after);
            MemberClear(d, chunks, ColonRun(chunks, after).value, key.Name? && key.text == "skills"))
  }

  ghost predicate MemberClear(d: Decoder, chunks: seq<string>, at: Place, skills: bool)
    requires Reached(chunks, at) && at.pos <= |Text(chunks)| && ReadsObjects(d) && IsCut(chunks)
    decreases |Text(chunks)| - at.pos, 0
  {
    var text, here := Text(chunks), if skills then Look(chunks, at) else at;
    LookStays(chunks, at);
    LoadedAll(chunks, here.next);
    var q := FirstSolid(text, at.pos);
    if skills && q < |text| && text[q] == '[' && Visible(chunks, at, q) then
      here.pos < |Loaded(chunks, here.next)| &&
      var inner := Place(here.next, here.pos + 1);
      && Clear(d, chunks, inner)
      && (LoadedAll(chunks, ArrayEnd(d, chunks, inner).next);
          SeparatorClear(d, chunks, ArrayEnd(d, chunks, inner)))
    else
      SkipStays(chunks, here);
      match DecodeRun(d, chunks, Skip(chunks, here))
      case None => false
      case Some((value, after)) =>
        LoadedAll(chunks, after.next);
        && (value.Number? ==> d(text, q).Some? && d(text, q).value.1 == after.pos)
        && if skills then
             && (value.List? ==> AllObjects(value.items) && !CommaNext(text, after.pos))
             && ObjectClear(d, chunks, after)
           else SeparatorClear(d, chunks, after)
  }

  ghost predicate SeparatorClear(d: Decoder, chunks: seq<string>, at: Place)
    requires Reached(chunks, at) && at.pos <= |Text(chunks)| && ReadsObjects(d) && IsCut(chunks)
    decreases |Text(chunks)| - at.pos, 2
  {
    var text, here := Text(chunks), Look(chunks, at);
    LookStays(chunks, at);
    LoadedAll(chunks, here.next);
    if CommaNext(text, at.pos) then
      && Visible(chunks, at, FirstSolid(text, at.pos)) && here.pos < |Loaded(chunks, here.next)|
      && ObjectClear(d, chunks, Place(here.next, here.pos + 1))
    else ObjectClear(d, chunks, here)
  }

  /** For any one cut: the rest of a valid object is read if and only if it is clear. */
  lemma {:induction false} ObjectReadsIffClear(d: Decoder, chunks: seq<string>, at: Place)
    requires Reached(chunks, at) && at.pos <= |Text(chunks)| && ReadsObjects(d) && IsCut(chunks)
    requires ObjectOf(d, Text(chunks), at.pos).Some?
    ensures ObjectRun(d, chunks, at).Some? <==> ObjectClear(d, chunks, at)
    decreases |Text(chunks)| - at.pos, 1
  {
    hide Text, Loaded, FirstSolid, Bounded, Stable, Trimmable, Started, CutShort, Listed, Skip, Look, DecodeRun,
         MemberRun, MemberOf, MemberClear, ColonRun, Visible, IsSpace;
    var text, here := Text(chunks), Look(chunks, at);
    var q := FirstSolid(text, at.pos);
    LookStays(chunks, at);
    SeenOrEnd(chunks, here);
    SkipStays(chunks, here);
    RunFindsThere(d, chunks, Skip(chunks, here));
    RunFindsIff(d, chunks, Skip(chunks, here));
    var run := DecodeRun(d, chunks, Skip(chunks, here));
    if run.Some? {
      var (key, after) := run.value;
      FoundInText(d, Loaded(chunks, after.next), text, q, key, after.pos);
      if text[q] != '}' && ColonRun(chunks, after).Some? {
        ColonStays(chunks, after);
        MemberReadsIffClear(d, chunks, ColonRun(chunks, after).value, key.text == "skills");
      }
    }
  }

  lemma SeenOrEnd(chunks: seq<string>, here: Place)
    requires Reached(chunks, here) && Loaded(chunks, here.next) <= Text(chunks)
    requires here.pos <= |Text(chunks)|
    ensures var text, loaded := Text(chunks), Loaded(chunks, here.next);
            here.pos < |loaded| ==>
              && loaded[here.pos] == text[here.pos]
              && (here.pos < FirstSolid(text, here.pos) ==>
                    loaded[here.pos] != '}' && loaded[here.pos] != '[' && loaded[here.pos] != ',')
  {
  }

  lemma {:induction false} MemberReadsIffClear(d: Decoder, chunks: seq<string>, at: Place, skills: bool)
    requires Reached(chunks, at) && at.pos <= |Text(chunks)| && ReadsObjects(d) && IsCut(chunks)
    requires MemberOf(d, Text(chunks), at.pos, skills).Some?
    ensures MemberRun(d, chunks, at, skills).Some? <==> MemberClear(d, chunks, at, skills)
    decreases |Text(chunks)| - at.pos, 0
  {
    hide Text, Loaded, FirstSolid, Bounded, Stable, Trimmable, Started, CutShort, Skip, Look, DecodeRun, ObjectRun,
         ObjectOf, ObjectClear, SeparatorRun, SeparatorOf, SeparatorClear, ArrayRun, ArrayOf, ArrayEnd, ArrayEndOf,
         Clear, Visible, CommaNext, IsSpace, DeadEnd;
    var text, here := Text(chunks), if skills then Look(chunks, at) else at;
    LookStays(chunks, at);
    LoadedAll(chunks, here.next);
    SeenOrEnd(chunks, here);
    var q := FirstSolid(text, at.pos);
    if skills && text[q] == '[' && here.pos == q {
      var inner := Place(here.next, here.pos + 1);
      NeverWrong(d, chunks, inner);
      ArrayReadsIffClear(d, chunks, inner);
      ArrayEndsThere(d, chunks, inner);
      LoadedAll(chunks, ArrayEnd(d, chunks, inner).next);
      if ArrayRun(d, chunks, inner).Some? {
        SeparatorReadsIffClear(d, chunks, ArrayEnd(d, chunks, inner));
      }
    } else {
      SkipStays(chunks, here);
      RunFindsThere(d, chunks, Skip(chunks, here));
      RunFindsIff(d, chunks, Skip(chunks, here));
      var run := DecodeRun(d, chunks, Skip(chunks, here));
      if run.Some? {
        var (value, after) := run.value;
        LoadedAll(chunks, after.next);
        FoundInText(d, Loaded(chunks, after.next), text, q, value, after.pos);
        ObjectNeverWrong(d, chunks, after);
        CommaOrObject(d, text, after.pos);
        if DeadEnd(d, text, after.pos) {
          DeadEndFails(d, chunks, after);
        }
        if ObjectOf(d, text, after.pos).Some? {
          ObjectReadsIffClear(d, chunks, after);
        }
        if SeparatorOf(d, text, after.pos).Some? {
          SeparatorReadsIffClear(d, chunks, after);
        }
        assert Found(d, text, q, d(text, q).value.0, d(text, q).value.1);
      }
    }
  }

  lemma {:induction false} SeparatorReadsIffClear(d: Decoder, chunks: seq<string>, at: Place)
    requires Reached(chunks, at) && at.pos <= |Text(chunks)| && ReadsObjects(d) && IsCut(chunks)
    requires SeparatorOf(d, Text(chunks), at.pos).Some?
    ensures SeparatorRun(d, chunks, at).Some? <==> SeparatorClear(d, chunks, at)
    decreases |Text(chunks)| - at.pos, 2
  {
    hide Text, Loaded, FirstSolid, Bounded, Stable, Trimmable, Started, CutShort, Listed, Skip, Look, ObjectRun,
         ObjectOf, ObjectClear, Visible, IsSpace;
    var text, here := Text(chunks), Look(chunks, at);
    LookStays(chunks, at);
    LoadedAll(chunks, here.next);
    SeenOrEnd(chunks, here);
    ObjectNeverWrong(d, chunks, here);
    CommaOrObject(d, text, here.pos);
    if CommaNext(text, at.pos) {
      if here.pos == FirstSolid(text, at.pos) {
        ObjectReadsIffClear(d, chunks, Place(here.next, here.pos + 1));
      }
    } else {
      ObjectReadsIffClear(d, chunks, here);
      BraceIsClear(d, chunks, here);
    }
  }

  lemma BraceIsClear(d: Decoder, chunks: seq<string>, at: Place)
    requires Reached(chunks, at) && at.pos <= |Text(chunks)| && ReadsObjects(d) && IsCut(chunks)
    ensures at.pos < |Text(chunks)| && Text(chunks)[at.pos] == '}' ==> ObjectRun(d, chunks, at) == Some([])
  {
    hide Text, Loaded, FirstSolid, Bounded, Stable, Trimmable, Started, CutShort, Listed, Skip, Look, DecodeRun,
         MemberRun, IsSpace;
    LookStays(chunks, at);
    PunctuationIsSolid();
    SolidAt(Text(chunks), at.pos);
  }

  // ---------------------------------------------------------------- what no cut reads

  /** A value called skills that is no array and is followed by a comma: valid, and refused
      under every cut, because the comma is left for the next key. */
  lemma OtherSkillsThenMore(d: Decoder, chunks: seq<string>, at: Place, value: Value, end: nat)
    requires Reached(chunks, at) && at.pos <= |Text(chunks)| && ReadsObjects(d) && IsCut(chunks)
    requires Found(d, Text(chunks), FirstSolid(Text(chunks), at.pos), value, end) && !value.List?
    requires end <= |Text(chunks)| && CommaNext(Text(chunks), end)
    ensures MemberRun(d, chunks, at, true) == None
  {
    hide Text, Loaded, FirstSolid, Bounded, Stable, Trimmable, CutShort, Listed, Skip, Look, DecodeRun, ObjectRun,
         MemberRun, ObjectOf, SeparatorOf, IsSpace;
    FoundWithin(d, Text(chunks), FirstSolid(Text(chunks), at.pos), value, end);
    CommaOrObject(d, Text(chunks), end);
    MemberNeverWrong(d, chunks, at, true);
  }

  /** A chunk that ends inside a number makes the reading fail. */
  lemma CutNumberIsRefused(d: Decoder, chunks: seq<string>, at: Place, skills: bool)
    requires Reached(chunks, at) && at.pos <= |Text(chunks)| && ReadsObjects(d) && IsCut(chunks)
    requires MemberOf(d, Text(chunks), at.pos, skills).Some? && Text(chunks)[FirstSolid(Text(chunks), at.pos)] != '['
    requires var run := DecodeRun(d, chunks, Skip(chunks, if skills then Look(chunks, at) else at));
             run.Some? && d(Text(chunks), FirstSolid(Text(chunks), at.pos)).value.1 != run.value.1.pos
    ensures MemberRun(d, chunks, at, skills) == None
  {
    hide Text, Loaded, FirstSolid, Bounded, Stable, Trimmable, Started, CutShort, Listed, Skip, Look, DecodeRun,
         MemberRun, ObjectClear, SeparatorClear, IsSpace;
    MemberReadsIffClear(d, chunks, at, skills);
    var here := if skills then Look(chunks, at) else at;
    LookStays(chunks, at);
    SkipStays(chunks, here);
    RunFindsThere(d, chunks, Skip(chunks, here));
    var (value, after) := DecodeRun(d, chunks, Skip(chunks, here)).value;
    FoundInText(d, Loaded(chunks, after.next), Text(chunks), FirstSolid(Text(chunks), at.pos), value, after.pos);
  }

  // ---------------------------------------------------------------- the whole index

  function Start(chunks: seq<string>): Place {
    Place(if chunks == [] then 0 else 1, 0)
  }

  /** The entries of an index of either form, or None for invalid. */
  ghost function IndexRun(d: Decoder, chunks: seq<string>): Option<seq<Value>>
    requires ReadsObjects(d) && IsCut(chunks)
  {
    match TopRun(d, chunks)
    case Entries(entries) => Some(entries)
    case Invalid => None
    case ObjectForm =>
      LookStays(chunks, Start(chunks));
      var here := Look(chunks, Start(chunks));
      ObjectRun(d, chunks, Place(here.next, here.pos + 1))
  }

  ghost function IndexOf(d: Decoder, text: string): Option<seq<Value>>
    requires ReadsObjects(d)
  {
    match TopOf(d, text)
    case Entries(entries) => Some(entries)
    case Invalid => None
    case ObjectForm => ObjectOf(d, text, FirstSolid(text, 0) + 1)
  }

  /** However an index of either form is cut, a reading that does not fail is that of the
      whole text. */
  lemma IndexNeverWrong(d: Decoder, chunks: seq<string>)
    requires ReadsObjects(d) && IsCut(chunks)
    ensures IndexRun(d, chunks).Some? ==> IndexRun(d, chunks) == IndexOf(d, Text(chunks))
  {
    hide ArrayOf, ArrayRun, ObjectOf, ObjectRun, FirstSolid, Skip, Look, Text, Loaded, Bounded, Stable, Trimmable,
         Started, CutShort, Listed, IsSpace;
    ReadingNeverWrong(d, chunks);
    LookStays(chunks, Start(chunks));
    var here := Look(chunks, Start(chunks));
    if TopRun(d, chunks).ObjectForm? {
      PunctuationIsSolid();
      SeenCharacter(chunks, here);
      ObjectNeverWrong(d, chunks, Place(here.next, here.pos + 1));
    }
  }

  /** The exact condition for one cut of a valid index in object form. */
  lemma ObjectCutReadsAsWholeIff(d: Decoder, chunks: seq<string>)
    requires ReadsObjects(d) && IsCut(chunks) && TopOf(d, Text(chunks)).ObjectForm?
    requires IndexOf(d, Text(chunks)).Some?
    ensures var here := Look(chunks, Start(chunks));
            IndexRun(d, chunks) == IndexOf(d, Text(chunks)) <==>
              && Visible(chunks, Start(chunks), FirstSolid(Text(chunks), 0))
              && Reached(chunks, Place(here.next, here.pos + 1)) && here.pos < |Text(chunks)|
              && ObjectClear(d, chunks, Place(here.next, here.pos + 1))
  {
    hide ArrayOf, ArrayRun, ObjectOf, ObjectRun, ObjectClear, FirstSolid, Skip, Look, Visible, Text, Loaded, Bounded,
         Stable, Trimmable, Started, CutShort, Listed, IsSpace;
    IndexNeverWrong(d, chunks);
    LookStays(chunks, Start(chunks));
    SeenOrEnd(chunks, Look(chunks, Start(chunks)));
    var here := Look(chunks, Start(chunks));
    if here.pos == FirstSolid(Text(chunks), 0) {
      ObjectReadsIffClear(d, chunks, Place(here.next, here.pos + 1));
    }
  }

  // ---------------------------------------------------------------- a decoder

  lemma {:induction false} DigitsGo(s: string, t: string, i: nat)
    requires s <= t && i <= |s|
    ensures DigitsEnd(t, i) == DigitsEnd(s, i)
            || (DigitsEnd(s, i) == |s| < |t| && IsDigit(t[|s|]))
    decreases |s| - i
  {
    if i < |s| && IsDigit(s[i]) {
      assert t[i] == s[i];
      DigitsGo(s, t, i + 1);
    }
  }

  /** There are decoders that obey all these laws. */
  lemma ScanReadsObjects()
    ensures ReadsObjects(Scan)
  {
    ScanIsLawful();
    forall s, t, p: nat, value, end: nat | Found(Scan, s, p, value, end) && value.Number? && s <= t
      ensures (Scan(t, p).Some? && Scan(t, p).value.1 == end) || DeadEnd(Scan, t, end)
    {
      DigitsGo(s, t, p);
    }
  }

  // ---------------------------------------------------------------- two refused indexes

  /** An object, `k` blanks into it, whose one member is the number twelve. */
  function TwelveIndex(k: nat): string {
    "{" + Blanks(k) + "\"x\":12}"
  }

  lemma ScansTwelve(k: nat, text: string, at: nat)
    requires TwelveIndex(k)[..k + 6] <= text <= TwelveIndex(k) && at == k + 1
    ensures FirstSolid(text, 0) == 0 && text[0] == '{' && FirstSolid(text, 1) == at && text[at] != '}'
    ensures Scan(text, at).Some? && Scan(text, at).value.0.Name? && Scan(text, at).value.1 == at + 3
    ensures Scan(text, at).value.0.text != "skills"
    ensures FirstSolid(text, at + 3) == at + 3 && text[at + 3] == ':' && FirstSolid(text, at + 4) == at + 4
    ensures Scan(text, at + 4).Some? && Scan(text, at + 4).value.0.Number?
    ensures Scan(text, at + 4).value.1 == if |text| == k + 6 then at + 5 else at + 6
  {
    var whole := TwelveIndex(k);
    forall i | 0 <= i < |text| ensures text[i] == whole[i] {
      if i < k + 6 { assert whole[..k + 6][i] == whole[i]; }
    }
    SolidIs(text, 1, at);
    assert NameEnd(text, at + 2) == Some(at + 3);
    assert DigitsEnd(text, at + 5) == if |text| == k + 6 then at + 5 else at + 6;
  }

  lemma TwelveIsValid(k: nat)
    requires ReadsObjects(Scan)
    ensures TopOf(Scan, TwelveIndex(k)).ObjectForm? && IndexOf(Scan, TwelveIndex(k)) == Some([])
    ensures DeadEnd(Scan, TwelveIndex(k), k + 6)
  {
    hide Scan, FirstSolid, IsSpace, ReadsObjects, TwelveIndex;
    var text, at := TwelveIndex(k), k + 1;
    TwelveEnds(k);
    ScansTwelve(k, text, at);
    assert SeparatorOf(Scan, text, at + 6) == Some([]);
    assert MemberOf(Scan, text, at + 4, false) == Some([]);
    assert ObjectOf(Scan, text, 1) == Some([]);
  }

  lemma TwelveEnds(k: nat)
    ensures var text := TwelveIndex(k);
            && |text| == k + 8 && text[k + 7] == '}' && FirstSolid(text, k + 7) == k + 7
            && text[..k + 6] <= text && DeadEnd(Scan, text, k + 6)
  {
    var text := TwelveIndex(k);
    assert text[k + 6] == '2' && text[k + 7] == '}';
  }

  /** For every `k`, so also where the program's reads end: with a chunk's end between the two
      digits the index is valid and refused. */
  lemma CutTwelveIsRefused(k: nat)
    ensures var chunks := [TwelveIndex(k)[..k + 6], TwelveIndex(k)[k + 6..]];
            && ReadsObjects(Scan) && IsCut(chunks) && Text(chunks) == TwelveIndex(k)
            && IndexOf(Scan, TwelveIndex(k)) == Some([]) && IndexRun(Scan, chunks) == None
  {
    hide Scan, TwelveIndex, ReadsObjects, FirstSolid, IsSpace, IndexRun, IndexOf, DeadEnd, Text,
         Loaded, IsCut;
    var whole := TwelveIndex(k);
    TwelveEnds(k);
    ScanReadsObjects();
    TwelveIsValid(k);
    TwoChunks(whole, k + 6);
    CutTwelveStops(k, [whole[..k + 6], whole[k + 6..]]);
  }

  lemma TwoChunks(text: string, n: nat)
    requires 0 < n < |text|
    ensures var chunks := [text[..n], text[n..]];
            IsCut(chunks) && Loaded(chunks, 1) == text[..n] && Text(chunks) == text
  {
    var a, b := text[..n], text[n..];
    assert text == a + b;
    assert [a, b][..1] == [a] && [a][..0] == [];
    assert Text([a]) == a;
  }

  lemma LooksWithin(chunks: seq<string>, at: Place, q: nat)
    requires Reached(chunks, at) && FirstSolid(Loaded(chunks, at.next), at.pos) == q < |Loaded(chunks, at.next)|
    ensures Skip(chunks, at) == Place(at.next, q) && Look(chunks, at) == Place(at.next, q)
    ensures Skip(chunks, Place(at.next, q)) == Place(at.next, q)
  {
    SolidEnds(Loaded(chunks, at.next), at.pos);
    SolidAt(Loaded(chunks, at.next), q);
  }

  lemma CutTwelveStops(k: nat, chunks: seq<string>)
    requires ReadsObjects(Scan) && IsCut(chunks) && |chunks| == 2 && Text(chunks) == TwelveIndex(k)
    requires |TwelveIndex(k)| == k + 8 && Loaded(chunks, 1) == TwelveIndex(k)[..k + 6]
    requires DeadEnd(Scan, TwelveIndex(k), k + 6)
    ensures IndexRun(Scan, chunks) == None
  {
    hide Scan, TwelveIndex, Started, Listed, CutShort, Stable, Trimmable, Bounded, IsSpace, DeadEnd, Text, Loaded, Skip,
         Look, FirstSolid, ArrayRun, MemberRun;
    var loaded, at := Loaded(chunks, 1), k + 1;
    ScansTwelve(k, loaded, at);
    LooksWithin(chunks, Place(1, 0), 0);
    LooksWithin(chunks, Place(1, 1), at);
    LooksWithin(chunks, Place(1, at + 3), at + 3);
    assert ColonRun(chunks, Place(1, at + 3)) == Some(Place(1, at + 4));
    TwelveMemberStops(k, chunks);
    assert ObjectRun(Scan, chunks, Place(1, 1)) == None;
  }

  lemma TwelveMemberStops(k: nat, chunks: seq<string>)
    requires ReadsObjects(Scan) && IsCut(chunks) && |chunks| == 2 && Text(chunks) == TwelveIndex(k)
    requires |TwelveIndex(k)| == k + 8 && Loaded(chunks, 1) == TwelveIndex(k)[..k + 6]
    requires DeadEnd(Scan, TwelveIndex(k), k + 6)
    ensures MemberRun(Scan, chunks, Place(1, k + 5), false) == None
  {
    hide Scan, TwelveIndex, Started, Listed, CutShort, Stable, Trimmable, Bounded, IsSpace, DeadEnd, Text, Loaded, Skip,
         Look, FirstSolid, ArrayRun, ObjectRun, SeparatorRun;
    var loaded, at := Loaded(chunks, 1), k + 1;
    ScansTwelve(k, loaded, at);
    LooksWithin(chunks, Place(1, at + 4), at + 4);
    DeadEndFails(Scan, chunks, Place(1, at + 5));
  }

  function NumberedSkills(): string {
    "{\"skills\":1,\"x\":2}"
  }

  lemma PlainName(text: string, i: nat, end: nat)
    requires i < end <= |text| && text[end - 1] == '"'
    requires forall k | i <= k < end - 1 :: text[k] != '"' && text[k] != '\\'
    ensures NameEnd(text, i) == Some(end)
    decreases end - i
  {
    if i < end - 1 {
      PlainName(text, i + 1, end);
    }
  }

  lemma NumberedSkillsSolid(text: string)
    requires text == NumberedSkills()
    ensures |text| == 18 && text[0] == '{' && text[1] != '}' && text[9] == ':' && text[10] != '[' && text[11] == ','
    ensures FirstSolid(text, 0) == 0 && FirstSolid(text, 1) == 1 && FirstSolid(text, 9) == 9
    ensures FirstSolid(text, 10) == 10 && FirstSolid(text, 11) == 11
  {
    hide FirstSolid;
    SolidAt(text, 0);
    SolidAt(text, 1);
    SolidAt(text, 9);
    SolidAt(text, 10);
    SolidAt(text, 11);
  }

  lemma NumberedSkillsScan(text: string)
    requires text == NumberedSkills()
    ensures Scan(text, 1) == Some((Name("skills"), 9)) && Scan(text, 10) == Some((Number("1"), 11))
  {
    hide NameEnd, Close, FirstSolid;
    assert text[2..8] == "skills" && text[10..11] == "1";
    PlainName(text, 2, 9);
    assert DigitsEnd(text, 11) == 11;
  }

  /** A valid index refused under every cut: its skills are no array and a member follows. */
  lemma NumberedSkillsIsRefused(chunks: seq<string>)
    requires IsCut(chunks) && Text(chunks) == NumberedSkills()
    ensures ReadsObjects(Scan) && IndexRun(Scan, chunks) == None
  {
    hide Scan, NumberedSkills, ReadsObjects, FirstSolid, IsSpace, IndexRun, Text;
    var text := Text(chunks);
    ScanReadsObjects();
    NumberedSkillsSolid(text);
    NumberedSkillsScan(text);
    CommaOrObject(Scan, text, 11);
    assert MemberOf(Scan, text, 10, true) == None;
    assert ObjectOf(Scan, text, 1) == None;
    IndexNeverWrong(Scan, chunks);
  }
}
