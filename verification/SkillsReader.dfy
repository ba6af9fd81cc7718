/** The streaming reader of a skills index, changing its buffer and position in place. */
module SkillsReader {
  import opened Policy
  import opened SkillsIndex
  import opened SkillsObject

  // ---------------------------------------------------------------- the reader

  lemma PrependNothing(rest: Option<seq<Value>>)
    ensures Prepend([], rest) == rest
  {
    if rest.Some? {
      assert [] + rest.value == rest.value;
    }
  }

  lemma DecodeFinds(d: Decoder, chunks: seq<string>, at: Place)
    requires Reached(chunks, at) && Bounded(d) && d(Loaded(chunks, at.next), at.pos).Some?
    ensures var (value, end) := d(Loaded(chunks, at.next), at.pos).value;
            DecodeRun(d, chunks, at) == Some((value, Place(at.next, end))) && end <= |Loaded(chunks, at.next)|
  {
    FoundWithin(d, Loaded(chunks, at.next), at.pos, d(Loaded(chunks, at.next), at.pos).value.0,
                d(Loaded(chunks, at.next), at.pos).value.1);
  }

  /** After a failure the decoding goes on from a further chunk, or at the end of the text
      from the next solid character if the reader is not there yet. */
  lemma DecodeMisses(d: Decoder, chunks: seq<string>, at: Place)
    requires Reached(chunks, at) && Bounded(d) && d(Loaded(chunks, at.next), at.pos) == None
    ensures at.next < |chunks| ==>
              var more := Place(at.next + 1, at.pos);
              Reached(chunks, more) && DecodeRun(d, chunks, at) == DecodeRun(d, chunks, Skip(chunks, more))
    ensures at.next == |chunks| ==> DecodeRun(d, chunks, at) == DecodeRun(d, chunks, Skip(chunks, at))
    ensures at.next == |chunks| && FirstSolid(Loaded(chunks, at.next), at.pos) == at.pos ==>
              DecodeRun(d, chunks, at) == None
  {
    if at.next < |chunks| {
      LoadedGrows(chunks, at.next, at.next + 1);
    } else {
      SolidIs(Loaded(chunks, at.next), FirstSolid(Loaded(chunks, at.next), at.pos),
              FirstSolid(Loaded(chunks, at.next), at.pos));
    }
  }

  lemma PrependAll(read: seq<Value>, values: seq<Value>, rest: Option<seq<Value>>)
    ensures Prepend(read, Prepend(values, rest)) == Prepend(read + values, rest)
  {
    if rest.Some? {
      assert read + (values + rest.value) == read + values + rest.value;
    }
  }

  /** What the first solid character says of an index. */
  lemma IndexBegins(d: Decoder, chunks: seq<string>)
    requires ReadsObjects(d) && IsCut(chunks)
    ensures var here := Look(chunks, Start(chunks));
            && Reached(chunks, here)
            && var loaded, inner := Loaded(chunks, here.next), Place(here.next, here.pos + 1);
            && (here.pos < |loaded| ==> Reached(chunks, inner) && inner.pos <= |Text(chunks)|)
            && IndexRun(d, chunks) ==
               if here.pos == |loaded| then None
               else if loaded[here.pos] == '[' then ArrayRun(d, chunks, inner)
               else if loaded[here.pos] == '{' then ObjectRun(d, chunks, inner)
               else None
  {
    hide Loaded, Text, Stable, Trimmable, Bounded, Started, CutShort, Listed, IsSpace, FirstSolid, ArrayRun, ObjectRun,
         Skip, Look;
    LookStays(chunks, Start(chunks));
  }

  /** What the next solid character, and the key and colon after it, say of an object. */
  lemma ObjectBegins(d: Decoder, chunks: seq<string>, at: Place)
    requires Reached(chunks, at) && at.pos <= |Text(chunks)| && ReadsObjects(d) && IsCut(chunks)
    ensures var here := Look(chunks, at);
            && Reached(chunks, here) && at.pos <= here.pos <= |Text(chunks)|
            && var loaded, key := Loaded(chunks, here.next), DecodeRun(d, chunks, Skip(chunks, here));
            && here.pos <= |loaded|
            && (here.pos == |loaded| ==> ObjectRun(d, chunks, at) == None)
            && (here.pos < |loaded| && loaded[here.pos] == '}' ==> ObjectRun(d, chunks, at) == Some([]))
            && (here.pos < |loaded| && loaded[here.pos] != '}' ==>
                  ObjectRun(d, chunks, at) == if key.None? then None else AfterKey(d, chunks, key.value.0, key.value.1))
  {
    hide Loaded, Text, Stable, Trimmable, Bounded, Started, CutShort, Listed, IsSpace, FirstSolid, DecodeRun, Skip,
         Look, ColonRun, MemberRun;
    var here := Look(chunks, at);
    LookStays(chunks, at);
    SkipStays(chunks, here);
  }

  /** The colon after a key, its member and the rest, or None if they cannot be read. */
  ghost function AfterKey(d: Decoder, chunks: seq<string>, key: Value, after: Place): Option<seq<Value>>
    requires ReadsObjects(d) && IsCut(chunks)
  {
    if !key.Name? || !Reached(chunks, after) || ColonRun(chunks, after).None? then None
    else
      ColonStays(chunks, after);
      MemberRun(d, chunks, ColonRun(chunks, after).value, key.text == "skills")
  }

  /** What the next solid character says of an array. */
  lemma ArrayBegins(d: Decoder, chunks: seq<string>, at: Place)
    requires Reached(chunks, at) && Lawful(d) && IsCut(chunks)
    ensures var here := Look(chunks, at);
            && Reached(chunks, here) && at.pos <= here.pos <= |Text(chunks)|
            && var loaded, next := Loaded(chunks, here.next), Place(here.next, here.pos + 1);
            && here.pos <= |loaded|
            && if here.pos == |loaded| then ArrayRun(d, chunks, at) == None
               else if loaded[here.pos] == ']' then
                 ArrayRun(d, chunks, at) == Some([]) && ArrayEnd(d, chunks, at) == next
               else if loaded[here.pos] == ',' then
                 && Reached(chunks, next) && ArrayRun(d, chunks, at) == ArrayRun(d, chunks, next)
                 && ArrayEnd(d, chunks, at) == ArrayEnd(d, chunks, next)
               else AfterEntry(d, chunks, at, DecodeRun(d, chunks, Skip(chunks, here)))
  {
    hide Loaded, Text, Stable, Trimmable, Bounded, IsSpace, FirstSolid, DecodeRun, Skip, Look;
    var here := Look(chunks, at);
    LookStays(chunks, at);
    SkipStays(chunks, here);
    LoadedAll(chunks, here.next);
  }

  /** Reading on after an entry gives the rest; anything else ends the reading. */
  ghost predicate AfterEntry(d: Decoder, chunks: seq<string>, at: Place, run: Option<(Value, Place)>)
    requires Reached(chunks, at) && Lawful(d) && IsCut(chunks)
  {
    if run.Some? && run.value.0.Object? then
      && Reached(chunks, run.value.1)
      && ArrayRun(d, chunks, at) == Prepend([run.value.0], ArrayRun(d, chunks, run.value.1))
      && ArrayEnd(d, chunks, at) == ArrayEnd(d, chunks, run.value.1)
    else ArrayRun(d, chunks, at) == None
  }

  class StreamingReader {
    const decode: Decoder
    const chunks: seq<string>
    var next: nat
    var buffer: string
    var position: nat
    var eof: bool

    /** `chunks` is what successive reads of the file return. */
    constructor (decode: Decoder, chunks: seq<string>)
      requires IsCut(chunks)
      ensures this.decode == decode && this.chunks == chunks
      ensures Valid() && At() == Place(0, 0) && !eof
    {
      this.decode, this.chunks := decode, chunks;
      next, buffer, position, eof := 0, "", 0, false;
    }

    predicate Valid()
      reads this
    {
      && IsCut(chunks) && Reached(chunks, At())
      && buffer == Loaded(chunks, next)
      && (eof ==> next == |chunks|)
    }

    function At(): Place
      reads this
    {
      Place(next, position)
    }

    method FillBuffer()
      requires Valid()
      modifies this`next, this`buffer, this`eof
      ensures Valid()
      ensures next == (if old(next) < |chunks| then old(next) + 1 else old(next))
      ensures eof == (old(next) == |chunks|)
    {
      if eof {
        return;
      }
      if next == |chunks| {
        eof := true;
        return;
      }
      LoadedNext(chunks, next);
      buffer := buffer + chunks[next];
      next := next + 1;
    }

    /** A fill either adds text or finds the end, so one is all it takes. */
    method SkipWhitespace()
      requires Valid()
      modifies this`next, this`buffer, this`eof, this`position
      ensures Valid() && At() == Skip(chunks, old(At()))
      ensures old(eof) ==> eof
      ensures position == |buffer| ==> eof
      ensures eof ==> FirstSolid(buffer, position) == position
    {
      ghost var solid := FirstSolid(buffer, position);
      while position < |buffer| && IsSpace(buffer[position])
        invariant next == old(next) && buffer == old(buffer) && eof == old(eof)
        invariant position <= |buffer| && FirstSolid(buffer, position) == solid
      {
        position := position + 1;
      }
      if position < |buffer| {
        return;
      }
      if next < |chunks| {
        LoadedNext(chunks, next);
        assert chunks[next] in chunks;
      }
      FillBuffer();
    }

    method Peek() returns (current: Option<char>)
      requires Valid()
      modifies this`next, this`buffer, this`eof, this`position
      ensures Valid() && At() == Skip(chunks, old(At()))
      ensures current == if position < |buffer| then Some(buffer[position]) else None
    {
      SkipWhitespace();
      current := if position >= |buffer| then None else Some(buffer[position]);
    }

    /** None is the failure of a text that is not valid JSON. */
    method DecodeValue() returns (value: Option<Value>)
      requires Valid() && Bounded(decode)
      modifies this`next, this`buffer, this`eof, this`position
      ensures Valid()
      ensures match DecodeRun(decode, chunks, Skip(chunks, old(At())))
              case None => value == None
              case Some((found, after)) => value == Some(found) && At() == after
    {
      hide Loaded, Text, IsSpace, IsStructural, Skip, DecodeRun, Bounded, FirstSolid;
      SkipWhitespace();
      ghost var answer := DecodeRun(decode, chunks, At());
      while true
        invariant Valid() && DecodeRun(decode, chunks, At()) == answer
        invariant eof ==> FirstSolid(buffer, position) == position
        decreases |chunks| - next, !eof
      {
        var found := decode(buffer, position);
        if found.Some? {
          DecodeFinds(decode, chunks, At());
          position := found.value.1;
          return Some(found.value.0);
        }
        DecodeMisses(decode, chunks, At());
        if eof {
          return None;
        }
        FillBuffer();
        SkipWhitespace();
        if position >= |buffer| && eof {
          NothingToDecode(decode, buffer);
          DecodeMisses(decode, chunks, At());
          return None;
        }
      }
    }

    method ReadArrayValues() returns (entries: Option<seq<Value>>)
      requires Valid() && Lawful(decode)
      modifies this`next, this`buffer, this`eof, this`position
      ensures Valid() && entries == ArrayRun(decode, chunks, old(At()))
      ensures entries.Some? ==> At() == ArrayEnd(decode, chunks, old(At()))
    {
      hide Loaded, Text, Stable, Trimmable, Bounded, IsSpace, IsStructural, FirstSolid, DecodeRun, Skip,
           ArrayRun, ArrayEnd;
      var read: seq<Value> := [];
      PrependNothing(ArrayRun(decode, chunks, At()));
      while true
        invariant Valid() && Prepend(read, ArrayRun(decode, chunks, At())) == ArrayRun(decode, chunks, old(At()))
        invariant ArrayEnd(decode, chunks, At()) == ArrayEnd(decode, chunks, old(At()))
        decreases |Text(chunks)| - position
      {
        ArrayBegins(decode, chunks, At());
        SkipWhitespace();
        var current := Peek();
        LoadedAll(chunks, next);
        if current == None {
          return None;
        }
        if current == Some(']') {
          position := position + 1;
          assert read + [] == read;
          return Some(read);
        }
        if current == Some(',') {
          position := position + 1;
          continue;
        }
        SkipStays(chunks, At());
        var entry := DecodeValue();
        LoadedAll(chunks, next);
        if entry.Some? && entry.value.Object? {
          PrependAll(read, [entry.value], ArrayRun(decode, chunks, At()));
          read := read + [entry.value];
        } else {
          return None;
        }
      }
    }

    /** None is the failure of a text that is not valid JSON. */
    method ConsumeColon() returns (found: Option<()>)
      requires Valid()
      modifies this`next, this`buffer, this`eof, this`position
      ensures Valid()
      ensures match ColonRun(chunks, old(At()))
              case None => found == None
              case Some(after) => found == Some(()) && At() == after
    {
      hide Loaded, Text, IsSpace, FirstSolid;
      SkipWhitespace();
      var current := Peek();
      if current == Some(':') {
        position := position + 1;
        return Some(());
      }
      SkipWhitespace();
      if position >= |buffer| {
        FillBuffer();
        SkipWhitespace();
      }
      if position >= |buffer| || buffer[position] != ':' {
        return None;
      }
      position := position + 1;
      found := Some(());
    }

    /** The value of a member: the entries it adds, and whether a separator is looked for
        next rather than a key. */
    method ReadMember(skills: bool) returns (entries: Option<seq<Value>>, separated: bool)
      requires Valid() && ReadsObjects(decode) && position <= |Text(chunks)|
      modifies this`next, this`buffer, this`eof, this`position
      ensures Valid() && (entries == None || old(position) < position <= |Text(chunks)|)
      ensures MemberRun(decode, chunks, old(At()), skills) ==
              if entries == None then None
              else Prepend(entries.value, if separated then SeparatorRun(decode, chunks, At())
                                          else ObjectRun(decode, chunks, At()))
    {
      hide Loaded, Text, Stable, Trimmable, Bounded, Started, CutShort, Listed, IsSpace, IsStructural, FirstSolid,
           DecodeRun, Skip, ArrayRun, ArrayEnd, ObjectRun, SeparatorRun;
      LookStays(chunks, At());
      LoadedAll(chunks, next);
      if skills {
        SkipWhitespace();
        var current := Peek();
        LoadedAll(chunks, next);
        if current == None {
          return None, true;
        }
        if current == Some('[') {
          position := position + 1;
          entries := ReadArrayValues();
          LoadedAll(chunks, next);
          return entries, true;
        }
      }
      SkipStays(chunks, At());
      var value := DecodeValue();
      if value == None {
        return None, true;
      }
      LoadedAll(chunks, next);
      PrependNothing(ObjectRun(decode, chunks, At()));
      PrependNothing(SeparatorRun(decode, chunks, At()));
      if skills && value.value.List? {
        return if AllObjects(value.value.items) then Some(value.value.items) else None, false;
      }
      return Some([]), !skills;
    }

    /** Pass over a comma, or find the end of the object. */
    method ReadSeparator() returns (done: bool)
      requires Valid() && ReadsObjects(decode) && position <= |Text(chunks)|
      modifies this`next, this`buffer, this`eof, this`position
      ensures Valid() && old(position) <= position <= |Text(chunks)|
      ensures SeparatorRun(decode, chunks, old(At())) == if done then Some([]) else ObjectRun(decode, chunks, At())
    {
      hide Loaded, Text, Stable, Trimmable, Bounded, Started, CutShort, Listed, IsSpace, IsStructural, FirstSolid,
           DecodeRun, Skip, MemberRun;
      LookStays(chunks, At());
      SkipWhitespace();
      var current := Peek();
      LoadedAll(chunks, next);
      LookStays(chunks, At());
      if current == Some(',') {
        position := position + 1;
        return false;
      }
      if current == Some('}') {
        position := position + 1;
        return true;
      }
      done := false;
    }

    method ReadSkillsFromObject() returns (entries: Option<seq<Value>>)
      requires Valid() && ReadsObjects(decode) && position <= |Text(chunks)|
      modifies this`next, this`buffer, this`eof, this`position
      ensures entries == ObjectRun(decode, chunks, old(At()))
    {
      hide Loaded, Text, Stable, Trimmable, Bounded, Started, CutShort, Listed, IsSpace, IsStructural, FirstSolid,
           DecodeRun, Skip, ColonRun, MemberRun, SeparatorRun, ObjectRun;
      var read: seq<Value> := [];
      PrependNothing(ObjectRun(decode, chunks, At()));
      while true
        invariant Valid() && position <= |Text(chunks)|
        invariant Prepend(read, ObjectRun(decode, chunks, At())) == ObjectRun(decode, chunks, old(At()))
        decreases |Text(chunks)| - position
      {
        ObjectBegins(decode, chunks, At());
        SkipWhitespace();
        var current := Peek();
        LoadedAll(chunks, next);
        if current == None {
          return None;
        }
        if current == Some('}') {
          position := position + 1;
          assert read + [] == read;
          return Some(read);
        }
        SkipStays(chunks, At());
        var key := DecodeValue();
        if key == None || !key.value.Name? {
          return None;
        }
        LoadedAll(chunks, next);
        ghost var named := At();
        var colon := ConsumeColon();
        if colon == None {
          return None;
        }
        ColonStays(chunks, named);
        var more, separated := ReadMember(key.value.text == "skills");
        if more == None {
          return None;
        }
        PrependAll(read, more.value, ObjectRun(decode, chunks, At()));
        PrependAll(read, more.value, SeparatorRun(decode, chunks, At()));
        read := read + more.value;
        if separated {
          var done := ReadSeparator();
          if done {
            assert read + [] == read;
            return Some(read);
          }
        }
      }
    }

    /** The entries of an index of either form; None for a text that is not valid JSON. */
    method ReadTopLevelEntries() returns (entries: Option<seq<Value>>)
      requires Valid() && ReadsObjects(decode) && At() == Place(0, 0) && !eof
      modifies this`next, this`buffer, this`eof, this`position
      ensures entries == IndexRun(decode, chunks)
    {
      hide Loaded, Text, Stable, Trimmable, Bounded, Started, CutShort, Listed, IsSpace, IsStructural, FirstSolid,
           ArrayRun, ObjectRun, IndexRun, Skip;
      FillBuffer();
      IndexBegins(decode, chunks);
      assert At() == Start(chunks);
      SkipWhitespace();
      var first := Peek();
      if first == None {
        return None;
      }
      if first == Some('[') {
        position := position + 1;
        entries := ReadArrayValues();
        return;
      }
      if first == Some('{') {
        position := position + 1;
        entries := ReadSkillsFromObject();
        return;
      }
      entries := None;
    }
  }
}
