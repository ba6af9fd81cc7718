/** Reading the entries of a skills index whose text arrives in chunks. The JSON decoder is a
    parameter held to the laws of a decoder that finds the end of a value by itself. */
module SkillsIndex {
  import opened Policy

  datatype Value =
    | Object(text: string)
    | Name(text: string)
    | List(items: seq<Value>)
    | Number(text: string)
    | Other(text: string)

  type Decoder = (string, nat) -> Option<(Value, nat)>

  /** The characters that the source's blank test accepts, Unicode spaces included. */
  predicate IsSpace(c: char) {
    || '\U{9}' <= c <= '\U{d}' || '\U{1c}' <= c <= ' ' || c == '\U{85}' || c == '\U{a0}' || c == '\U{1680}'
    || '\U{2000}' <= c <= '\U{200a}' || c == '\U{2028}' || c == '\U{2029}' || c == '\U{202f}' || c == '\U{205f}'
    || c == '\U{3000}'
  }

  predicate IsStructural(c: char) {
    c == ']' || c == ','
  }

  ghost predicate Found(d: Decoder, s: string, p: nat, value: Value, end: nat) {
    d(s, p) == Some((value, end))
  }

  /** A value starts where decoding starts and lies within the text. */
  ghost predicate Bounded(d: Decoder) {
    forall s, p: nat, value, end: nat | Found(d, s, p, value, end) ::
      p < end <= |s| && !IsSpace(s[p]) && !IsStructural(s[p])
  }

  /** Only a number can grow when more text arrives, and it stays a number. */
  ghost predicate Stable(d: Decoder) {
    forall s, t, p: nat, value, end: nat | Found(d, s, p, value, end) && s <= t ::
      if value.Number? then d(t, p).Some? && d(t, p).value.0.Number? else Found(d, t, p, value, end)
  }

  /** The text after an object has no part in it. */
  ghost predicate Trimmable(d: Decoder) {
    forall s, p: nat, value, end: nat | Found(d, s, p, value, end) && value.Object? && end <= |s| ::
      Found(d, s[..end], p, value, end)
  }

  ghost predicate Lawful(d: Decoder) {
    Bounded(d) && Stable(d) && Trimmable(d)
  }

  // ---------------------------------------------------------------- the text and its chunks

  function Text(chunks: seq<string>): string {
    if chunks == [] then "" else Text(chunks[..|chunks| - 1]) + chunks[|chunks| - 1]
  }

  function Loaded(chunks: seq<string>, next: nat): string
    requires next <= |chunks|
  {
    Text(chunks[..next])
  }

  predicate IsCut(chunks: seq<string>) {
    forall c | c in chunks :: c != ""
  }

  lemma LoadedNext(chunks: seq<string>, next: nat)
    requires next < |chunks|
    ensures Loaded(chunks, next + 1) == Loaded(chunks, next) + chunks[next]
  {
    assert chunks[..next + 1][..next] == chunks[..next];
  }

  lemma {:induction false} LoadedGrows(chunks: seq<string>, m: nat, n: nat)
    requires m <= n <= |chunks|
    ensures Loaded(chunks, m) <= Loaded(chunks, n)
    decreases n
  {
    if m < n {
      LoadedGrows(chunks, m, n - 1);
      LoadedNext(chunks, n - 1);
    }
  }

  lemma LoadedAll(chunks: seq<string>, next: nat)
    requires next <= |chunks|
    ensures Loaded(chunks, next) <= Text(chunks)
    ensures Loaded(chunks, |chunks|) == Text(chunks)
  {
    assert chunks[..|chunks|] == chunks;
    LoadedGrows(chunks, next, |chunks|);
  }

  /** The first character from `p` on that is not blank, or the end. */
  function FirstSolid(text: string, p: nat): (q: nat)
    requires p <= |text|
    ensures p <= q <= |text|
    ensures forall k | p <= k < q :: IsSpace(text[k])
    ensures q < |text| ==> !IsSpace(text[q])
    decreases |text| - p
  {
    if p < |text| && IsSpace(text[p]) then FirstSolid(text, p + 1) else p
  }

  lemma SolidIs(text: string, p: nat, q: nat)
    requires p <= q <= |text| && (forall k | p <= k < q :: IsSpace(text[k])) && (q < |text| ==> !IsSpace(text[q]))
    ensures FirstSolid(text, p) == q
  {
  }

  // ---------------------------------------------------------------- the reader's steps

  /** How much is loaded, and where the reader stands. */
  datatype Place = Place(next: nat, pos: nat)

  predicate Reached(chunks: seq<string>, at: Place) {
    at.next <= |chunks| && at.pos <= |Loaded(chunks, at.next)|
  }

  /** Pass over blanks; at the end of what is loaded, load one chunk and stop there, even if
      that chunk starts with a blank. */
  function Skip(chunks: seq<string>, at: Place): (r: Place)
    requires Reached(chunks, at)
    ensures Reached(chunks, r) && at.next <= r.next
  {
    var p := FirstSolid(Loaded(chunks, at.next), at.pos);
    if p < |Loaded(chunks, at.next)| || at.next == |chunks| then Place(at.next, p)
    else
      LoadedGrows(chunks, at.next, at.next + 1);
      Place(at.next + 1, p)
  }

  /** What skipping achieves: it never passes a solid character, and it stops at a blank only
      as the first character of the chunk it has just loaded. */
  lemma SkipStays(chunks: seq<string>, at: Place)
    requires IsCut(chunks) && Reached(chunks, at)
    ensures
      var text, r := Text(chunks), Skip(chunks, at);
      && at.pos <= |text| && r.pos <= |text|
      && at.pos <= r.pos <= FirstSolid(text, at.pos) == FirstSolid(text, r.pos)
      && at.next <= r.next
      && (r.pos == |Loaded(chunks, r.next)| ==> r.pos == |text|)
      && (if FirstSolid(text, at.pos) < |Loaded(chunks, at.next)| || at.next == |chunks| then
            r == Place(at.next, FirstSolid(text, at.pos))
          else r == Place(at.next + 1, |Loaded(chunks, at.next)|))
  {
    var text, r := Text(chunks), Skip(chunks, at);
    var loaded := Loaded(chunks, at.next);
    LoadedAll(chunks, at.next);
    LoadedAll(chunks, r.next);
    if at.next < |chunks| {
      LoadedNext(chunks, at.next);
      assert chunks[at.next] in chunks;
    }
    var p := FirstSolid(loaded, at.pos);
    var q := FirstSolid(text, p);
    assert forall k | at.pos <= k < p :: IsSpace(text[k]);
    SolidIs(text, at.pos, q);
  }

  /** The place the reader looks at: two skips from where it stands. */
  function Look(chunks: seq<string>, at: Place): Place
    requires Reached(chunks, at)
  {
    Skip(chunks, Skip(chunks, at))
  }

  /** Position `q` is in what is loaded or in the next chunk, or right after that chunk. */
  predicate Visible(chunks: seq<string>, at: Place, q: nat)
    requires Reached(chunks, at)
  {
    q <= |Loaded(chunks, if at.next < |chunks| then at.next + 1 else at.next)|
  }

  /** The reader looks at the next solid character exactly when that is visible. */
  lemma LookStays(chunks: seq<string>, at: Place)
    requires IsCut(chunks) && Reached(chunks, at)
    ensures
      var text, r := Text(chunks), Look(chunks, at);
      && Reached(chunks, r) && at.pos <= |text| && r.pos <= |text| && at.next <= r.next
      && Loaded(chunks, r.next) <= text
      && at.pos <= r.pos <= FirstSolid(text, at.pos) == FirstSolid(text, r.pos)
      && (r.pos == |Loaded(chunks, r.next)| ==> r.pos == |text|)
      && (r.pos == FirstSolid(text, at.pos) <==> Visible(chunks, at, FirstSolid(text, at.pos)))
  {
    hide Skip, FirstSolid, Text, Loaded, IsSpace;
    var one := Skip(chunks, at);
    SkipStays(chunks, at);
    SkipStays(chunks, one);
    LoadedAll(chunks, at.next);
    LoadedAll(chunks, one.next);
    LoadedAll(chunks, Look(chunks, at).next);
    if at.next < |chunks| {
      LoadedNext(chunks, at.next);
      assert chunks[at.next] in chunks;
    }
  }

  /** Decode at a place, loading another chunk whenever that fails, until nothing is left. */
  ghost function DecodeRun(d: Decoder, chunks: seq<string>, at: Place): (r: Option<(Value, Place)>)
    requires Reached(chunks, at) && Bounded(d)
    ensures r.Some? ==> Reached(chunks, r.value.1) && at.pos < r.value.1.pos
    decreases |chunks| - at.next
  {
    var loaded := Loaded(chunks, at.next);
    match d(loaded, at.pos)
    case Some((value, end)) =>
      assert Found(d, loaded, at.pos, value, end);
      Some((value, Place(at.next, end)))
    case None =>
      if at.next < |chunks| then
        LoadedGrows(chunks, at.next, at.next + 1);
        DecodeRun(d, chunks, Skip(chunks, Place(at.next + 1, at.pos)))
      else
        var p := FirstSolid(loaded, at.pos);
        match d(loaded, p)
        case None => None
        case Some((value, end)) =>
          assert Found(d, loaded, p, value, end);
          Some((value, Place(at.next, end)))
  }

  function Prepend(read: seq<Value>, rest: Option<seq<Value>>): Option<seq<Value>> {
    match rest
    case None => None
    case Some(values) => Some(read + values)
  }

  /** The rest of a top-level array: its objects, or None for invalid. */
  ghost function ArrayRun(d: Decoder, chunks: seq<string>, at: Place): Option<seq<Value>>
    requires Reached(chunks, at) && Lawful(d) && IsCut(chunks)
    decreases |Text(chunks)| - at.pos
  {
    var here := Look(chunks, at);
    LookStays(chunks, at);
    var loaded := Loaded(chunks, here.next);
    if here.pos == |loaded| then None
    else if loaded[here.pos] == ']' then Some([])
    else if loaded[here.pos] == ',' then ArrayRun(d, chunks, Place(here.next, here.pos + 1))
    else
      match DecodeRun(d, chunks, Skip(chunks, here))
      case None => None
      case Some((value, after)) =>
        SkipStays(chunks, here);
        LoadedAll(chunks, after.next);
        if !value.Object? then None
        else Prepend([value], ArrayRun(d, chunks, after))
  }

  // ---------------------------------------------------------------- the whole text

  /** The rest of a top-level array read from the text at once. */
  ghost function ArrayOf(d: Decoder, text: string, p: nat): Option<seq<Value>>
    requires p <= |text| && Bounded(d)
    decreases |text| - p
  {
    var q := FirstSolid(text, p);
    if q == |text| then None
    else if text[q] == ']' then Some([])
    else if text[q] == ',' then ArrayOf(d, text, q + 1)
    else
      match d(text, q)
      case None => None
      case Some((value, end)) =>
        assert Found(d, text, q, value, end);
        if !value.Object? then None
        else Prepend([value], ArrayOf(d, text, end))
  }

  /** The run found the object the whole text has there, or both found none. */
  predicate SameObject(whole: Option<(Value, nat)>, run: Option<(Value, Place)>) {
    if whole.Some? && whole.value.0.Object? then
      run.Some? && run.value.0 == whole.value.0 && run.value.1.pos == whole.value.1
    else run.None? || !run.value.0.Object?
  }

  lemma SoonerAgrees(d: Decoder, loaded: string, text: string, p: nat)
    requires Lawful(d) && loaded <= text && p <= |text| && d(loaded, p).Some?
    ensures var (value, end) := d(loaded, p).value;
            SameObject(d(text, FirstSolid(text, p)), Some((value, Place(0, end))))
  {
    var (value, end) := d(loaded, p).value;
    assert Found(d, loaded, p, value, end);
    assert text[p] == loaded[p];
    assert FirstSolid(text, p) == p;
  }

  /** Decoding chunk by chunk finds an object exactly when decoding the text does. */
  lemma ValueAgrees(d: Decoder, chunks: seq<string>, at: Place)
    requires Reached(chunks, at) && Lawful(d) && IsCut(chunks) && at.pos <= |Text(chunks)|
    ensures SameObject(d(Text(chunks), FirstSolid(Text(chunks), at.pos)), DecodeRun(d, chunks, Skip(chunks, at)))
  {
    SkipStays(chunks, at);
    DecodeAgrees(d, chunks, Skip(chunks, at));
  }

  lemma {:induction false} DecodeAgrees(d: Decoder, chunks: seq<string>, at: Place)
    requires Reached(chunks, at) && Lawful(d) && IsCut(chunks) && at.pos <= |Text(chunks)|
    ensures SameObject(d(Text(chunks), FirstSolid(Text(chunks), at.pos)), DecodeRun(d, chunks, at))
    decreases |chunks| - at.next
  {
    hide Text, Loaded, FirstSolid, IsSpace, Bounded, Stable, Trimmable, Skip, IsStructural;
    var text, loaded := Text(chunks), Loaded(chunks, at.next);
    LoadedAll(chunks, at.next);
    match d(loaded, at.pos)
    case Some(_) => SoonerAgrees(d, loaded, text, at.pos);
    case None =>
      if at.next < |chunks| {
        LoadedGrows(chunks, at.next, at.next + 1);
        LoadedAll(chunks, at.next + 1);
        var more := Place(at.next + 1, at.pos);
        SkipStays(chunks, more);
        DecodeAgrees(d, chunks, Skip(chunks, more));
      }
  }

  /** However the text is cut, the reader never returns entries the text does not have: it
      returns what the whole text gives, or it fails. */
  lemma {:induction false} NeverWrong(d: Decoder, chunks: seq<string>, at: Place)
    requires Reached(chunks, at) && Lawful(d) && IsCut(chunks) && at.pos <= |Text(chunks)|
    ensures ArrayRun(d, chunks, at).Some? ==> ArrayRun(d, chunks, at) == ArrayOf(d, Text(chunks), at.pos)
    decreases |Text(chunks)| - at.pos
  {
    hide Stable, Trimmable, Text, Loaded, Skip, Look, DecodeRun, Visible, Bounded, FirstSolid, IsSpace;
    var text, here := Text(chunks), Look(chunks, at);
    LookStays(chunks, at);
    var loaded := Loaded(chunks, here.next);
    if here.pos < |loaded| {
      SeenCharacter(chunks, here);
    }
    if here.pos < |loaded| && loaded[here.pos] != ']' {
      if loaded[here.pos] == ',' {
        NeverWrong(d, chunks, Place(here.next, here.pos + 1));
      } else {
        ValueAgrees(d, chunks, here);
        var run := DecodeRun(d, chunks, Skip(chunks, here));
        if run.Some? && run.value.0.Object? {
          SkipStays(chunks, here);
          LoadedAll(chunks, run.value.1.next);
          ObjectIsNext(d, text, at.pos);
          NeverWrong(d, chunks, run.value.1);
        }
      }
    }
  }

  lemma ObjectIsNext(d: Decoder, text: string, p: nat)
    requires p <= |text| && Bounded(d)
    requires var whole := d(text, FirstSolid(text, p)); whole.Some? && whole.value.0.Object?
    ensures var q := FirstSolid(text, p); q < |text| && !IsStructural(text[q])
  {
    var whole := d(text, FirstSolid(text, p)).value;
    assert Found(d, text, FirstSolid(text, p), whole.0, whole.1);
  }

  lemma NothingToDecode(d: Decoder, text: string)
    requires Bounded(d)
    ensures d(text, |text|) == None
  {
    if d(text, |text|).Some? {
      assert Found(d, text, |text|, d(text, |text|).value.0, d(text, |text|).value.1);
    }
  }

  /** What the reader looks at is the next solid character, or a blank before it. */
  lemma SeenCharacter(chunks: seq<string>, here: Place)
    requires Reached(chunks, here) && here.pos < |Loaded(chunks, here.next)|
    requires Loaded(chunks, here.next) <= Text(chunks)
    requires here.pos <= |Text(chunks)|
    ensures var text, loaded := Text(chunks), Loaded(chunks, here.next);
            loaded[here.pos] == text[here.pos] && (here.pos == FirstSolid(text, here.pos) || IsSpace(loaded[here.pos]))
    ensures IsSpace(Loaded(chunks, here.next)[here.pos]) ==> !IsStructural(Loaded(chunks, here.next)[here.pos])
  {
  }

  lemma FoundWithin(d: Decoder, text: string, q: nat, value: Value, end: nat)
    requires Bounded(d) && d(text, q) == Some((value, end))
    ensures Found(d, text, q, value, end) && q < end <= |text|
  {
    assert Found(d, text, q, value, end);
  }

  lemma StructuralIsNoValue(d: Decoder, text: string, q: nat)
    requires Bounded(d) && q < |text| && IsStructural(text[q])
    ensures d(text, q) == None
  {
    if d(text, q).Some? {
      assert Found(d, text, q, d(text, q).value.0, d(text, q).value.1);
    }
  }

  // ---------------------------------------------------------------- one cut

  /** How many chunks are loaded once the value between `q` and `end` has been decoded. It
      depends on where blanks and chunks end, not on the decoder. */
  function LoadsFor(chunks: seq<string>, at: Place, q: nat, end: nat): (next: nat)
    requires Reached(chunks, at)
    ensures next <= |chunks|
    decreases |chunks| - at.next
  {
    if (at.pos == q && end <= |Loaded(chunks, at.next)|) || at.next == |chunks| then at.next
    else
      LoadedGrows(chunks, at.next, at.next + 1);
      LoadsFor(chunks, Skip(chunks, Place(at.next + 1, at.pos)), q, end)
  }

  /** Decoding an object loads that much and ends where the object ends. */
  lemma {:induction false} DecodeLoads(d: Decoder, chunks: seq<string>, at: Place, value: Value, end: nat)
    requires Reached(chunks, at) && Lawful(d) && IsCut(chunks) && at.pos <= |Text(chunks)| && value.Object?
    requires Found(d, Text(chunks), FirstSolid(Text(chunks), at.pos), value, end)
    ensures DecodeRun(d, chunks, at)
            == Some((value, Place(LoadsFor(chunks, at, FirstSolid(Text(chunks), at.pos), end), end)))
    decreases |chunks| - at.next
  {
    hide Text, Loaded, IsSpace, IsStructural, Skip, Bounded, Stable, Trimmable, FirstSolid;
    var text, loaded := Text(chunks), Loaded(chunks, at.next);
    var q := FirstSolid(text, at.pos);
    LoadedAll(chunks, at.next);
    FoundSooner(d, loaded, text, at.pos, value, end);
    if !(at.pos == q && end <= |loaded|) && at.next < |chunks| {
      LoadedGrows(chunks, at.next, at.next + 1);
      SkipStays(chunks, Place(at.next + 1, at.pos));
      DecodeLoads(d, chunks, Skip(chunks, Place(at.next + 1, at.pos)), value, end);
    }
  }

  /** In what is loaded the object is found exactly from its start and to its end. */
  lemma FoundSooner(d: Decoder, loaded: string, text: string, p: nat, value: Value, end: nat)
    requires Lawful(d) && loaded <= text && p <= |loaded| && value.Object?
    requires Found(d, text, FirstSolid(text, p), value, end)
    ensures p == FirstSolid(text, p) && end <= |loaded| ==> d(loaded, p) == Some((value, end))
    ensures !(p == FirstSolid(text, p) && end <= |loaded|) ==> d(loaded, p) == None
    ensures end <= |text|
  {
    var q := FirstSolid(text, p);
    if d(loaded, p).Some? {
      assert Found(d, loaded, p, d(loaded, p).value.0, d(loaded, p).value.1);
      assert text[p] == loaded[p];
    }
    assert Found(d, text[..end], q, value, end);
    if end <= |loaded| { assert text[..end] <= loaded; }
  }

  /** Every bracket and comma of the rest of the array is visible when its turn comes. */
  ghost predicate Clear(d: Decoder, chunks: seq<string>, at: Place)
    requires Reached(chunks, at) && Lawful(d) && IsCut(chunks)
    decreases |Text(chunks)| - at.pos
  {
    LoadedAll(chunks, at.next);
    LookStays(chunks, at);
    var text, here := Text(chunks), Look(chunks, at);
    var q := FirstSolid(text, at.pos);
    q < |text| ==>
      if IsStructural(text[q]) then
        Visible(chunks, at, q) && (text[q] == ',' ==> here.pos < |Loaded(chunks, here.next)|
                                                      && Clear(d, chunks, Place(here.next, q + 1)))
      else
        match d(text, q)
        case None => true
        case Some((value, end)) =>
          FoundWithin(d, text, q, value, end);
          var next := LoadsFor(chunks, Skip(chunks, here), q, end);
          end <= |Loaded(chunks, next)| ==> Clear(d, chunks, Place(next, end))
  }

  /** For any one cut: a valid array reads as the whole text if and only if no bracket or
      comma lies beyond the end of the next chunk when the reader looks for it. */
  lemma {:induction false} ArrayReadsIffClear(d: Decoder, chunks: seq<string>, at: Place)
    requires Reached(chunks, at) && Lawful(d) && IsCut(chunks) && at.pos <= |Text(chunks)|
    requires ArrayOf(d, Text(chunks), at.pos).Some?
    ensures ArrayRun(d, chunks, at) == ArrayOf(d, Text(chunks), at.pos) <==> Clear(d, chunks, at)
    decreases |Text(chunks)| - at.pos
  {
    hide Stable, Trimmable, Text, Loaded, FirstSolid, Skip, Look, IsSpace, DecodeRun, Visible, LoadsFor;
    var text, here := Text(chunks), Look(chunks, at);
    LookStays(chunks, at);
    SeenCharacter(chunks, here);
    var q := FirstSolid(text, at.pos);
    if IsStructural(text[q]) {
      if here.pos < q {
        ValueAgrees(d, chunks, here);
        StructuralIsNoValue(d, text, q);
      } else if text[q] == ',' {
        ArrayReadsIffClear(d, chunks, Place(here.next, q + 1));
      }
    } else {
      var (value, end) := d(text, q).value;
      FoundWithin(d, text, q, value, end);
      SkipStays(chunks, here);
      DecodeLoads(d, chunks, Skip(chunks, here), value, end);
      var after := Place(LoadsFor(chunks, Skip(chunks, here), q, end), end);
      ArrayReadsIffClear(d, chunks, after);
      PrependInjective(value, ArrayRun(d, chunks, after), ArrayOf(d, text, end));
    }
  }

  lemma PrependInjective(value: Value, a: Option<seq<Value>>, b: Option<seq<Value>>)
    ensures Prepend([value], a) == Prepend([value], b) <==> a == b
  {
    if a.Some? && b.Some? && Prepend([value], a) == Prepend([value], b) {
      assert a.value == ([value] + a.value)[1..] && b.value == ([value] + b.value)[1..];
    }
  }

  // ---------------------------------------------------------------- the whole reading

  /** An index in object form is left to its own reader. */
  datatype Reading = Entries(entries: seq<Value>) | ObjectForm | Invalid

  function ReadingOf(entries: Option<seq<Value>>): Reading {
    match entries
    case Some(values) => Entries(values)
    case None => Invalid
  }

  ghost function TopRun(d: Decoder, chunks: seq<string>): Reading
    requires Lawful(d) && IsCut(chunks)
  {
    var start := Place(if chunks == [] then 0 else 1, 0);
    var here, loaded := Look(chunks, start), Loaded(chunks, Look(chunks, start).next);
    if here.pos == |loaded| then Invalid
    else if loaded[here.pos] == '[' then ReadingOf(ArrayRun(d, chunks, Place(here.next, here.pos + 1)))
    else if loaded[here.pos] == '{' then ObjectForm
    else Invalid
  }

  ghost function TopOf(d: Decoder, text: string): Reading
    requires Lawful(d)
  {
    var q := FirstSolid(text, 0);
    if q == |text| then Invalid
    else if text[q] == '[' then ReadingOf(ArrayOf(d, text, q + 1))
    else if text[q] == '{' then ObjectForm
    else Invalid
  }

  /** A reading in chunks that does not fail is the reading of the whole text. */
  lemma ReadingNeverWrong(d: Decoder, chunks: seq<string>)
    requires Lawful(d) && IsCut(chunks)
    ensures TopRun(d, chunks) == Invalid || TopRun(d, chunks) == TopOf(d, Text(chunks))
  {
    hide ArrayOf, ArrayRun, FirstSolid, Skip, Look, Stable, Bounded, Trimmable;
    var text, start := Text(chunks), Place(if chunks == [] then 0 else 1, 0);
    LookStays(chunks, start);
    var here := Look(chunks, start);
    if here.pos < |Loaded(chunks, here.next)| {
      SeenCharacter(chunks, here);
      NeverWrong(d, chunks, Place(here.next, here.pos + 1));
    }
  }

  /** Every bracket and comma of the index is visible when its turn comes. */
  ghost predicate ClearFromStart(d: Decoder, chunks: seq<string>)
    requires Lawful(d) && IsCut(chunks) && chunks != []
  {
    var start, q := Place(1, 0), FirstSolid(Text(chunks), 0);
    var here := Look(chunks, start);
    LookStays(chunks, start);
    Visible(chunks, start, q) && (here.pos < |Loaded(chunks, here.next)| ==> Clear(d, chunks, Place(here.next, q + 1)))
  }

  /** The exact condition for one cut of a valid array. */
  lemma CutReadsAsWholeIff(d: Decoder, chunks: seq<string>)
    requires Lawful(d) && IsCut(chunks) && chunks != [] && TopOf(d, Text(chunks)).Entries?
    ensures TopRun(d, chunks) == TopOf(d, Text(chunks)) <==> ClearFromStart(d, chunks)
  {
    hide ArrayOf, ArrayRun, FirstSolid, Skip, Look, Stable, Bounded, Trimmable, Clear, Visible;
    var start := Place(1, 0);
    LookStays(chunks, start);
    var here := Look(chunks, start);
    SeenCharacter(chunks, here);
    if here.pos == FirstSolid(Text(chunks), 0) {
      ArrayReadsIffClear(d, chunks, Place(here.next, here.pos + 1));
    }
  }
  // ---------------------------------------------------------------- wide cuts

  /** Every chunk but the last has at least `n` characters. */
  predicate Wide(chunks: seq<string>, n: nat) {
    forall i | 0 <= i < |chunks| - 1 :: |chunks[i]| >= n
  }

  function Max(a: nat, b: nat): nat {
    if a < b then b else a
  }

  /** No bracket or comma of the array has more than `n` blanks before it, not counting those
      among the first `n` characters of the text. */
  ghost predicate Snug(d: Decoder, text: string, p: nat, n: nat)
    requires p <= |text| && Bounded(d)
    decreases |text| - p
  {
    var q := FirstSolid(text, p);
    q < |text| ==>
      if IsStructural(text[q]) then q <= Max(p, n) + n && (text[q] == ',' ==> Snug(d, text, q + 1, n))
      else
        match d(text, q)
        case None => true
        case Some((value, end)) => assert Found(d, text, q, value, end); Snug(d, text, end, n)
  }

  ghost predicate Tight(d: Decoder, text: string, n: nat)
    requires Lawful(d)
  {
    var q := FirstSolid(text, 0);
    q <= 2 * n && (q < |text| ==> Snug(d, text, q + 1, n))
  }

  lemma WideLoads(chunks: seq<string>, n: nat, next: nat)
    requires Wide(chunks, n) && 1 <= next <= |chunks|
    ensures |Loaded(chunks, next)| >= n || Loaded(chunks, next) == Text(chunks)
    ensures next < |chunks| ==>
              |Loaded(chunks, next + 1)| >= |Loaded(chunks, next)| + n || Loaded(chunks, next + 1) == Text(chunks)
  {
    LoadedAll(chunks, next);
    LoadedNext(chunks, 0);
    LoadedGrows(chunks, 1, next);
    if next < |chunks| {
      LoadedNext(chunks, next);
    }
  }

  lemma NearIsVisible(chunks: seq<string>, n: nat, at: Place, q: nat)
    requires Wide(chunks, n) && Reached(chunks, at) && at.next >= 1
    requires q <= |Text(chunks)| && q <= Max(at.pos, n) + n
    ensures Visible(chunks, at, q)
  {
    WideLoads(chunks, n, at.next);
    LoadedAll(chunks, at.next);
  }

  lemma {:induction false} SnugIsClear(d: Decoder, chunks: seq<string>, at: Place, n: nat)
    requires Reached(chunks, at) && Lawful(d) && IsCut(chunks) && at.pos <= |Text(chunks)|
    requires Wide(chunks, n) && at.next >= 1 && Snug(d, Text(chunks), at.pos, n)
    ensures Clear(d, chunks, at)
    decreases |Text(chunks)| - at.pos
  {
    hide Stable, Trimmable, Bounded, Text, Loaded, FirstSolid, Skip, Look, IsSpace, Visible, LoadsFor, Wide;
    var text, here := Text(chunks), Look(chunks, at);
    LookStays(chunks, at);
    var q := FirstSolid(text, at.pos);
    if q < |text| {
      if IsStructural(text[q]) {
        NearIsVisible(chunks, n, at, q);
        if text[q] == ',' {
          SnugIsClear(d, chunks, Place(here.next, q + 1), n);
        }
      } else if d(text, q).Some? {
        var (value, end) := d(text, q).value;
        FoundWithin(d, text, q, value, end);
        var next := LoadsFor(chunks, Skip(chunks, here), q, end);
        SkipStays(chunks, here);
        LoadsMore(chunks, Skip(chunks, here), q, end);
        if end <= |Loaded(chunks, next)| {
          SnugIsClear(d, chunks, Place(next, end), n);
        }
      }
    }
  }

  lemma {:induction false} LoadsMore(chunks: seq<string>, at: Place, q: nat, end: nat)
    requires Reached(chunks, at) && IsCut(chunks)
    ensures LoadsFor(chunks, at, q, end) >= at.next
    decreases |chunks| - at.next
  {
    hide Skip, Loaded;
    if at.next < |chunks| {
      LoadedGrows(chunks, at.next, at.next + 1);
      SkipStays(chunks, Place(at.next + 1, at.pos));
      LoadsMore(chunks, Skip(chunks, Place(at.next + 1, at.pos)), q, end);
    }
  }

  lemma TightReadsAsWhole(d: Decoder, chunks: seq<string>, n: nat)
    requires Lawful(d) && IsCut(chunks) && Wide(chunks, n) && Tight(d, Text(chunks), n)
    requires TopOf(d, Text(chunks)).Entries?
    ensures TopRun(d, chunks) == TopOf(d, Text(chunks))
  {
    hide Snug, ArrayOf, ArrayRun, FirstSolid, Skip, Look, Stable, Bounded, Trimmable, Clear, Visible, TopRun, Wide;
    var start, q := Place(1, 0), FirstSolid(Text(chunks), 0);
    assert chunks != [] by { TextOfNothing(chunks); }
    NearIsVisible(chunks, n, start, q);
    LookStays(chunks, start);
    var here := Look(chunks, start);
    SnugIsClear(d, chunks, Place(here.next, q + 1), n);
    CutReadsAsWholeIff(d, chunks);
  }

  lemma TextOfNothing(chunks: seq<string>)
    ensures chunks == [] ==> Text(chunks) == ""
  {
  }

  // ---------------------------------------------------------------- a cut that hides

  /** The text cut after `a` characters and again `n` further on. */
  function CutAt(text: string, a: nat, n: nat): (chunks: seq<string>)
    requires a + n <= |text|
    ensures |chunks| == 3
  {
    [text[..a], text[a..a + n], text[a + n..]]
  }

  lemma CutAtLoads(text: string, a: nat, n: nat)
    requires 1 <= n && 1 <= a && a + n < |text|
    ensures var chunks := CutAt(text, a, n);
            && IsCut(chunks) && Text(chunks) == text
            && Loaded(chunks, 1) == text[..a] && Loaded(chunks, 2) == text[..a + n]
            && (n <= a ==> Wide(chunks, n))
  {
    var chunks := CutAt(text, a, n);
    LoadedNext(chunks, 0);
    LoadedNext(chunks, 1);
    LoadedNext(chunks, 2);
    LoadedAll(chunks, 3);
    assert Loaded(chunks, 0) == "";
  }

  /** Within what is loaded, looking loads nothing. */
  lemma LookInside(chunks: seq<string>, at: Place)
    requires Reached(chunks, at) && at.next <= |chunks| && at.pos <= |Text(chunks)|
    requires FirstSolid(Text(chunks), at.pos) < |Loaded(chunks, at.next)|
    ensures Look(chunks, at) == Skip(chunks, Look(chunks, at)) == Place(at.next, FirstSolid(Text(chunks), at.pos))
  {
    LoadedAll(chunks, at.next);
    var loaded, q := Loaded(chunks, at.next), FirstSolid(Text(chunks), at.pos);
    SolidIs(loaded, at.pos, q);
    SolidIs(loaded, q, q);
  }

  /** A valid array that is not snug has a wide cut under which it is not clear. */
  lemma {:induction false} LooseIsHidden(d: Decoder, text: string, p: nat, n: nat) returns (a: nat)
    requires Lawful(d) && p <= |text| && n >= 1 && ArrayOf(d, text, p).Some? && !Snug(d, text, p, n)
    ensures p <= a && n <= a && a + n < |text|
    ensures IsCut(CutAt(text, a, n)) && Reached(CutAt(text, a, n), Place(1, p))
    ensures !Clear(d, CutAt(text, a, n), Place(1, p))
    decreases |text| - p
  {
    hide Stable, Trimmable, Bounded, Text, Loaded, FirstSolid, Skip, Look, IsSpace, CutAt, IsCut;
    var q := FirstSolid(text, p);
    if IsStructural(text[q]) && q > Max(p, n) + n {
      a := Max(p, n);
      CutAtLoads(text, a, n);
      assert !Visible(CutAt(text, a, n), Place(1, p), q);
    } else {
      var after := q + 1;
      if !IsStructural(text[q]) {
        var (value, end) := d(text, q).value;
        FoundWithin(d, text, q, value, end);
        after := end;
      }
      a := LooseIsHidden(d, text, after, n);
      CutAtLoads(text, a, n);
      LookInside(CutAt(text, a, n), Place(1, p));
    }
  }

  /** For every n: a valid array reads the same under all cuts whose chunks, the last aside,
      have at least n characters if and only if it is tight for n. */
  lemma WideCutsAgreeIffTight(d: Decoder, text: string, n: nat)
    requires Lawful(d) && n >= 1 && TopOf(d, text).Entries?
    ensures (forall chunks | IsCut(chunks) && Wide(chunks, n) && Text(chunks) == text ::
               TopRun(d, chunks) == TopOf(d, text))
            <==> Tight(d, text, n)
  {
    hide TopRun, TopOf, Snug, Text, IsCut, Wide;
    if Tight(d, text, n) {
      forall chunks | IsCut(chunks) && Wide(chunks, n) && Text(chunks) == text
        ensures TopRun(d, chunks) == TopOf(d, text)
      {
        TightReadsAsWhole(d, chunks, n);
      }
    } else {
      var a := LooseFails(d, text, n);
      CutAtLoads(text, a, n);
    }
  }

  lemma LooseFails(d: Decoder, text: string, n: nat) returns (a: nat)
    requires Lawful(d) && n >= 1 && TopOf(d, text).Entries? && !Tight(d, text, n)
    ensures n <= a && a + n < |text| && IsCut(CutAt(text, a, n))
    ensures TopRun(d, CutAt(text, a, n)) != TopOf(d, text)
  {
    hide Stable, Trimmable, Bounded, Text, Loaded, FirstSolid, Skip, Look, IsSpace, CutAt, IsCut, Snug, Clear, ArrayOf;
    var q := FirstSolid(text, 0);
    a := n;
    if q <= 2 * n {
      a := LooseIsHidden(d, text, q + 1, n);
    }
    CutAtLoads(text, a, n);
    if q <= 2 * n {
      LookInside(CutAt(text, a, n), Place(1, 0));
    }
    CutReadsAsWholeIff(d, CutAt(text, a, n));
  }

  // ---------------------------------------------------------------- the cut the program makes

  const READ_CHUNK := 16384

  /** What reads of `n` characters each return. */
  function Pieces(text: string, n: nat): (chunks: seq<string>)
    requires n >= 1
    ensures text == "" <==> chunks == []
    decreases |text|
  {
    if text == "" then [] else if |text| <= n then [text] else [text[..n]] + Pieces(text[n..], n)
  }

  lemma {:induction false} TextFirst(first: string, rest: seq<string>)
    ensures Text([first] + rest) == first + Text(rest)
    decreases |rest|
  {
    if rest != [] {
      var last := |rest| - 1;
      TextFirst(first, rest[..last]);
      assert ([first] + rest)[..|rest|] == [first] + rest[..last];
    }
  }

  lemma {:induction false} PiecesAreAWideCut(text: string, n: nat)
    requires n >= 1
    ensures IsCut(Pieces(text, n)) && Wide(Pieces(text, n), n) && Text(Pieces(text, n)) == text
    decreases |text|
  {
    if |text| > n {
      PiecesAreAWideCut(text[n..], n);
      TextFirst(text[..n], Pieces(text[n..], n));
      assert text == text[..n] + text[n..];
    } else if text != "" {
      TextFirst(text, []);
    }
  }

  /** The program's reads of 16384 characters give the entries of every array that is tight
      for that number. */
  lemma ProgramReadsTightIndex(d: Decoder, text: string)
    requires Lawful(d) && TopOf(d, text).Entries? && Tight(d, text, READ_CHUNK)
    ensures IsCut(Pieces(text, READ_CHUNK)) && TopRun(d, Pieces(text, READ_CHUNK)) == TopOf(d, text)
  {
    PiecesAreAWideCut(text, READ_CHUNK);
    TightReadsAsWhole(d, Pieces(text, READ_CHUNK), READ_CHUNK);
  }

  function Blanks(n: nat): string {
    seq(n, _ => ' ')
  }

  /** For every chunk size: an empty array with two chunks' worth of blanks in it is valid
      and is refused. */
  lemma BlankChunkIsRefused(d: Decoder, n: nat)
    requires Lawful(d) && n >= 1
    ensures var text := "[" + Blanks(2 * n) + "]";
            TopOf(d, text) == Entries([]) && IsCut(Pieces(text, n)) && TopRun(d, Pieces(text, n)) == Invalid
  {
    hide Skip, Look, Loaded, Stable, Bounded, Trimmable, Pieces, TopRun, Text, Wide, IsCut;
    var text := "[" + Blanks(2 * n) + "]";
    var chunks := Pieces(text, n);
    BlankArray(d, n);
    PiecesAreAWideCut(text, n);
    FirstPieces(text, n);
    LookInside(chunks, Place(1, 0));
    assert !Visible(chunks, Place(1, 1), 2 * n + 1);
    CutReadsAsWholeIff(d, chunks);
    ReadingNeverWrong(d, chunks);
  }

  lemma BlankArray(d: Decoder, n: nat)
    requires Lawful(d)
    ensures var text := "[" + Blanks(2 * n) + "]";
            && FirstSolid(text, 0) == 0 && FirstSolid(text, 1) == 2 * n + 1
            && TopOf(d, text) == Entries([])
  {
    var text := "[" + Blanks(2 * n) + "]";
    SolidIs(text, 0, 0);
    SolidIs(text, 1, 2 * n + 1);
  }

  lemma PiecesFirst(text: string, n: nat)
    requires 1 <= n < |text|
    ensures Pieces(text, n) == [text[..n]] + Pieces(text[n..], n) && |Pieces(text, n)| > 1
  {
  }

  lemma NothingLoaded(chunks: seq<string>)
    ensures Loaded(chunks, 0) == ""
  {
  }

  lemma FirstPieces(text: string, n: nat)
    requires n >= 1 && |text| > 2 * n
    ensures |Pieces(text, n)| > 2
    ensures Loaded(Pieces(text, n), 1) == text[..n] && Loaded(Pieces(text, n), 2) == text[..2 * n]
  {
    hide Pieces, Loaded;
    var chunks, rest := Pieces(text, n), text[n..];
    PiecesFirst(text, n);
    PiecesFirst(rest, n);
    LoadedNext(chunks, 0);
    LoadedNext(chunks, 1);
    assert Loaded(chunks, 0) == "" by { NothingLoaded(chunks); }
    assert chunks[1] == Pieces(rest, n)[0];
    assert text[..2 * n] == text[..n] + rest[..n];
  }

  // ---------------------------------------------------------------- a decoder

  /** The end of an object: the brace that closes it, braces in strings aside. */
  function Close(s: string, i: nat, depth: nat, quoted: bool): (end: Option<nat>)
    requires i <= |s|
    ensures end.Some? ==> i < end.value <= |s|
    decreases |s| - i
  {
    if i == |s| then None
    else if quoted && s[i] == '\\' then (if i + 1 < |s| then Close(s, i + 2, depth, true) else None)
    else if s[i] == '"' then Close(s, i + 1, depth, !quoted)
    else if quoted then Close(s, i + 1, depth, true)
    else if s[i] == '{' then Close(s, i + 1, depth + 1, false)
    else if s[i] == '}' then (if depth <= 1 then Some(i + 1) else Close(s, i + 1, depth - 1, false))
    else Close(s, i + 1, depth, false)
  }

  predicate IsDigit(c: char) {
    '0' <= c <= '9'
  }

  function DigitsEnd(s: string, i: nat): (end: nat)
    requires i <= |s|
    ensures i <= end <= |s|
    decreases |s| - i
  {
    if i < |s| && IsDigit(s[i]) then DigitsEnd(s, i + 1) else i
  }

  /** The end of a name: the quote that closes it. */
  function NameEnd(s: string, i: nat): (end: Option<nat>)
    requires i <= |s|
    ensures end.Some? ==> i < end.value <= |s|
    decreases |s| - i
  {
    if i == |s| then None
    else if s[i] == '"' then Some(i + 1)
    else if s[i] == '\\' then (if i + 1 < |s| then NameEnd(s, i + 2) else None)
    else NameEnd(s, i + 1)
  }

  /** Objects by their braces, names by their quotes, and unsigned numbers; nothing else. */
  function Scan(s: string, p: nat): Option<(Value, nat)> {
    if p >= |s| then None
    else if s[p] == '{' then
      match Close(s, p, 0, false)
      case None => None
      case Some(end) => Some((Object(s[p..end]), end))
    else if s[p] == '"' then
      match NameEnd(s, p + 1)
      case None => None
      case Some(end) => Some((Name(s[p + 1..end - 1]), end))
    else if IsDigit(s[p]) then Some((Number(s[p..DigitsEnd(s, p)]), DigitsEnd(s, p)))
    else None
  }

  lemma {:induction false} CloseStays(s: string, t: string, i: nat, depth: nat, quoted: bool)
    requires s <= t && i <= |s|
    ensures Close(s, i, depth, quoted).Some? ==> Close(t, i, depth, quoted) == Close(s, i, depth, quoted)
    decreases |s| - i
  {
    if i < |s| {
      assert t[i] == s[i];
      if quoted && s[i] == '\\' {
        if i + 1 < |s| { CloseStays(s, t, i + 2, depth, true); }
      } else if s[i] == '"' {
        CloseStays(s, t, i + 1, depth, !quoted);
      } else if quoted {
        CloseStays(s, t, i + 1, depth, true);
      } else if s[i] == '{' {
        CloseStays(s, t, i + 1, depth + 1, false);
      } else if s[i] == '}' {
        if depth > 1 { CloseStays(s, t, i + 1, depth - 1, false); }
      } else {
        CloseStays(s, t, i + 1, depth, false);
      }
    }
  }

  lemma {:induction false} CloseTrims(s: string, i: nat, depth: nat, quoted: bool, end: nat)
    requires i <= |s| && Close(s, i, depth, quoted) == Some(end)
    ensures Close(s[..end], i, depth, quoted) == Some(end)
    decreases |s| - i
  {
    assert s[..end][i] == s[i];
    if quoted && s[i] == '\\' {
      CloseTrims(s, i + 2, depth, true, end);
    } else if s[i] == '"' {
      CloseTrims(s, i + 1, depth, !quoted, end);
    } else if quoted {
      CloseTrims(s, i + 1, depth, true, end);
    } else if s[i] == '{' {
      CloseTrims(s, i + 1, depth + 1, false, end);
    } else if s[i] == '}' {
      if depth > 1 { CloseTrims(s, i + 1, depth - 1, false, end); }
    } else {
      CloseTrims(s, i + 1, depth, false, end);
    }
  }

  lemma {:induction false} NameEndStays(s: string, t: string, i: nat)
    requires s <= t && i <= |s|
    ensures NameEnd(s, i).Some? ==> NameEnd(t, i) == NameEnd(s, i)
    decreases |s| - i
  {
    if i < |s| {
      assert t[i] == s[i];
      if s[i] == '\\' {
        if i + 1 < |s| { NameEndStays(s, t, i + 2); }
      } else if s[i] != '"' {
        NameEndStays(s, t, i + 1);
      }
    }
  }

  /** There are lawful decoders. */
  lemma ScanIsLawful()
    ensures Lawful(Scan)
  {
    forall s, p: nat, value, end: nat | Found(Scan, s, p, value, end)
      ensures p < end <= |s| && !IsSpace(s[p]) && !IsStructural(s[p])
    {
    }
    forall s, t, p: nat, value, end: nat | Found(Scan, s, p, value, end) && s <= t
      ensures if value.Number? then Scan(t, p).Some? && Scan(t, p).value.0.Number? else Found(Scan, t, p, value, end)
    {
      assert t[p] == s[p];
      if value.Object? {
        CloseStays(s, t, p, 0, false);
        assert s[p..end] == t[p..end];
      }
      if value.Name? {
        NameEndStays(s, t, p + 1);
        assert s[p + 1..end - 1] == t[p + 1..end - 1];
      }
    }
    forall s, p: nat, value, end: nat | Found(Scan, s, p, value, end) && value.Object? && end <= |s|
      ensures Found(Scan, s[..end], p, value, end)
    {
      CloseTrims(s, p, 0, false, end);
      assert s[..end][p..end] == s[p..end];
    }
  }
}
