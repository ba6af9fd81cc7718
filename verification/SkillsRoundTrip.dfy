/** Writing an index and reading it back: the entries that were written, in their order, from
    an array and from the skills of an object. */
module SkillsRoundTrip {
  import opened Policy
  import opened SkillsIndex
  import opened SkillsObject

  // ---------------------------------------------------------------- texts of entries

  /** A text that is one object from its first brace to its last. */
  predicate IsObjectText(o: string) {
    o != "" && o[0] == '{' && Close(o, 0, 0, false) == Some(|o|)
  }

  function Shifted(end: Option<nat>, n: nat): Option<nat> {
    match end
    case None => None
    case Some(e) => Some(e + n)
  }

  /** Where an object ends does not depend on what comes before it. */
  lemma {:induction false} CloseShifts(pre: string, s: string, i: nat, depth: nat, quoted: bool)
    requires i <= |s|
    ensures Close(pre + s, |pre| + i, depth, quoted) == Shifted(Close(s, i, depth, quoted), |pre|)
    decreases |s| - i
  {
    if i < |s| {
      assert (pre + s)[|pre| + i] == s[i];
      if quoted && s[i] == '\\' {
        if i + 1 < |s| { CloseShifts(pre, s, i + 2, depth, true); }
      } else if s[i] == '"' {
        CloseShifts(pre, s, i + 1, depth, !quoted);
      } else if quoted {
        CloseShifts(pre, s, i + 1, depth, true);
      } else if s[i] == '{' {
        CloseShifts(pre, s, i + 1, depth + 1, false);
      } else if s[i] == '}' {
        if depth > 1 { CloseShifts(pre, s, i + 1, depth - 1, false); }
      } else {
        CloseShifts(pre, s, i + 1, depth, false);
      }
    }
  }

  /** `text` goes on with `next` at `p`, and with `rest` after that. */
  predicate GoesOn(text: string, p: nat, next: string, rest: string) {
    p + |next| <= |text| && text[p..p + |next|] == next && text[p + |next|..] == rest
  }

  lemma Cut(text: string, p: nat, next: string, rest: string)
    requires p <= |text| && text[p..] == next + rest
    ensures GoesOn(text, p, next, rest) && p + |next| <= |text| && text[p + |next|..] == rest
  {
    assert text[p..p + |next|] == text[p..][..|next|] && text[p + |next|..] == text[p..][|next|..];
  }

  lemma ScansObject(text: string, p: nat, o: string, rest: string)
    requires IsObjectText(o) && GoesOn(text, p, o, rest)
    ensures Scan(text, p) == Some((Object(o), p + |o|)) && FirstSolid(text, p) == p && text[p] == '{'
  {
    hide Close, NameEnd, FirstSolid;
    ClosesThere(text, p, o, rest);
    assert text[p..p + |o|][0] == text[p];
    SolidAt(text, p);
  }

  lemma ClosesThere(text: string, p: nat, o: string, rest: string)
    requires IsObjectText(o) && GoesOn(text, p, o, rest)
    ensures Close(text, p, 0, false) == Some(p + |o|)
  {
    hide Close;
    CloseStays(o, o + rest, 0, 0, false);
    CloseShifts(text[..p], o + rest, 0, 0, false);
    assert text == text[..p] + (o + rest);
  }

  // ---------------------------------------------------------------- arrays

  /** Each entry after a comma. */
  function Followers(entries: seq<string>): string {
    if entries == [] then "" else "," + entries[0] + Followers(entries[1..])
  }

  /** The entries with commas between them. */
  function Listing(entries: seq<string>): string {
    if entries == [] then "" else entries[0] + Followers(entries[1..])
  }

  function Objects(entries: seq<string>): seq<Value> {
    seq(|entries|, i requires 0 <= i < |entries| => Object(entries[i]))
  }

  predicate AreObjectTexts(entries: seq<string>) {
    forall o | o in entries :: IsObjectText(o)
  }

  lemma Punctuation(text: string, p: nat, c: char, rest: string)
    requires c in {',', ']', ':', '}', '[', '{', '"'} && GoesOn(text, p, [c], rest)
    ensures text[p] == c && FirstSolid(text, p) == p
  {
    assert text[p..p + 1][0] == text[p];
    SolidAt(text, p);
  }

  lemma FirstAndRest(entries: seq<string>)
    requires entries != [] && AreObjectTexts(entries)
    ensures IsObjectText(entries[0]) && AreObjectTexts(entries[1..])
    ensures Objects(entries) == [Object(entries[0])] + Objects(entries[1..])
  {
    hide IsObjectText;
  }

  lemma EntryThenRest(text: string, p: nat, o: string)
    requires ReadsObjects(Scan) && p + |o| <= |text| && Scan(text, p) == Some((Object(o), p + |o|))
    requires FirstSolid(text, p) == p && text[p] == '{'
    ensures ArrayOf(Scan, text, p) == Prepend([Object(o)], ArrayOf(Scan, text, p + |o|))
    ensures ArrayEndOf(Scan, text, p) == ArrayEndOf(Scan, text, p + |o|)
  {
    hide Scan, FirstSolid, IsSpace, Stable, Trimmable, Started, CutShort, Listed, Bounded;
  }

  lemma CommaThenRest(text: string, p: nat)
    requires ReadsObjects(Scan) && p < |text| && FirstSolid(text, p) == p && text[p] == ','
    ensures ArrayOf(Scan, text, p) == ArrayOf(Scan, text, p + 1)
    ensures ArrayEndOf(Scan, text, p) == ArrayEndOf(Scan, text, p + 1)
  {
    hide Scan, FirstSolid, IsSpace, Stable, Trimmable, Started, CutShort, Listed, Bounded;
  }

  lemma BracketThenEnd(text: string, p: nat)
    requires ReadsObjects(Scan) && p < |text| && FirstSolid(text, p) == p && text[p] == ']'
    ensures ArrayOf(Scan, text, p) == Some([]) && ArrayEndOf(Scan, text, p) == p + 1
  {
    hide Scan, FirstSolid, IsSpace, Stable, Trimmable, Started, CutShort, Listed, Bounded;
  }

  lemma NothingFollows()
    ensures Followers([]) == "" && Objects([]) == []
  {
  }

  lemma Regroup(a: string, b: string, c: string)
    ensures (a + b) + c == a + (b + c)
  {
  }

  lemma FollowersSplit(entries: seq<string>, post: string)
    requires entries != []
    ensures Followers(entries) + post == "," + (entries[0] + (Followers(entries[1..]) + post))
    ensures |Followers(entries)| == 1 + |entries[0]| + |Followers(entries[1..])|
  {
    var o, rest := entries[0], Followers(entries[1..]);
    assert Followers(entries) == ("," + o) + rest;
    hide Followers;
    Regroup("," + o, rest, post);
    Regroup(",", o, rest + post);
  }

  lemma {:induction false} ReadsFollowers(text: string, p: nat, entries: seq<string>, post: string)
    requires AreObjectTexts(entries) && p <= |text| && text[p..] == Followers(entries) + ("]" + post)
    ensures ReadsObjects(Scan)
    ensures ArrayOf(Scan, text, p) == Some(Objects(entries))
    ensures ArrayEndOf(Scan, text, p) == p + |Followers(entries)| + 1
    decreases |entries|
  {
    hide Scan, IsObjectText, FirstSolid, IsSpace, Bounded, Stable, Trimmable, Started, CutShort, Listed, AreObjectTexts,
         Objects, Followers, GoesOn, ArrayOf, ArrayEndOf;
    ScanReadsObjects();
    NothingFollows();
    if entries == [] {
      Cut(text, p, "]", post);
      Punctuation(text, p, ']', post);
      BracketThenEnd(text, p);
    } else {
      var o, rest := entries[0], entries[1..];
      var after := Followers(rest) + ("]" + post);
      FirstAndRest(entries);
      FollowersSplit(entries, "]" + post);
      Cut(text, p, ",", o + after);
      Punctuation(text, p, ',', o + after);
      CommaThenRest(text, p);
      Cut(text, p + 1, o, after);
      ScansObject(text, p + 1, o, after);
      EntryThenRest(text, p + 1, o);
      ReadsFollowers(text, p + 1 + |o|, rest, post);
    }
  }

  /** A listing and the bracket after it are read as the entries, wherever they stand. */
  lemma ReadsListing(text: string, p: nat, entries: seq<string>, post: string)
    requires AreObjectTexts(entries) && p <= |text| && text[p..] == Listing(entries) + ("]" + post)
    ensures ReadsObjects(Scan)
    ensures ArrayOf(Scan, text, p) == Some(Objects(entries))
    ensures ArrayEndOf(Scan, text, p) == p + |Listing(entries)| + 1
  {
    hide Scan, IsObjectText, FirstSolid, IsSpace, ArrayOf, ArrayEndOf, Followers, AreObjectTexts, Objects, GoesOn,
         Bounded, Stable, Trimmable, Started, CutShort, Listed;
    ScanReadsObjects();
    NothingFollows();
    if entries == [] {
      ReadsFollowers(text, p, entries, post);
    } else {
      var o, rest := entries[0], entries[1..];
      var after := Followers(rest) + ("]" + post);
      FirstAndRest(entries);
      assert Listing(entries) + ("]" + post) == o + after;
      Cut(text, p, o, after);
      ScansObject(text, p, o, after);
      EntryThenRest(text, p, o);
      ReadsFollowers(text, p + |o|, rest, post);
    }
  }

  /** An array of objects is read as those objects, in order. */
  lemma ArrayReadsBack(entries: seq<string>)
    requires AreObjectTexts(entries)
    ensures ReadsObjects(Scan) && IndexOf(Scan, "[" + Listing(entries) + "]") == Some(Objects(entries))
  {
    hide Scan, FirstSolid, IsSpace, ArrayOf, Bounded, Stable, Trimmable, Started, CutShort, Listed;
    ScanReadsObjects();
    var text := "[" + Listing(entries) + "]";
    assert text[0..] == "[" + (Listing(entries) + ("]" + ""));
    Cut(text, 0, "[", Listing(entries) + ("]" + ""));
    Punctuation(text, 0, '[', Listing(entries) + ("]" + ""));
    ReadsListing(text, 1, entries, "");
  }

  // ---------------------------------------------------------------- objects

  /** An index in object form with these skills. */
  function SkillsText(entries: seq<string>): string {
    "{\"skills\":[" + Listing(entries) + "]}"
  }

  /** The skills of an object are read as they were written, in order. */
  lemma SkillsReadBack(entries: seq<string>)
    requires AreObjectTexts(entries)
    ensures ReadsObjects(Scan) && IndexOf(Scan, SkillsText(entries)) == Some(Objects(entries))
  {
    hide Scan, FirstSolid, IsSpace, ArrayOf, ArrayEndOf, Bounded, Stable, Trimmable, Started, CutShort, Listed, Listing,
         Objects, SeparatorOf, GoesOn, MemberOf, ObjectOf, SkillsText, SkillsPrefix;
    ScanReadsObjects();
    var text, listing := SkillsText(entries), Listing(entries);
    var rest := listing + ("]" + "}");
    SkillsTextStarts(entries);
    SkillsStart(text, rest);
    Cut(text, 0, SkillsPrefix(), rest);
    ReadsListing(text, 11, entries, "}");
    Cut(text, 11, listing, "]" + "}");
    Cut(text, 11 + |listing|, "]", "}");
    Cut(text, 11 + |listing| + 1, "}", "");
    Punctuation(text, 11 + |listing| + 1, '}', "");
    ClosedThere(text, 11 + |listing| + 1);
    SkillsMember(text, Objects(entries), 11 + |listing| + 1);
  }

  lemma SkillsTextStarts(entries: seq<string>)
    ensures SkillsText(entries)[0..] == SkillsPrefix() + (Listing(entries) + ("]" + "}"))
    ensures SkillsText(entries) == SkillsPrefix() + (Listing(entries) + ("]" + "}"))
  {
    hide Listing;
  }

  lemma SkillsMember(text: string, values: seq<Value>, end: nat)
    requires ReadsObjects(Scan) && 11 <= end <= |text|
    requires FirstSolid(text, 0) == 0 && text[0] == '{' && FirstSolid(text, 1) == 1 && text[1] == '"'
    requires Scan(text, 1) == Some((Name("skills"), 9)) && FirstSolid(text, 9) == 9 && text[9] == ':'
    requires FirstSolid(text, 10) == 10 && text[10] == '['
    requires ArrayOf(Scan, text, 11) == Some(values) && ArrayEndOf(Scan, text, 11) == end
    requires SeparatorOf(Scan, text, end) == Some([])
    ensures IndexOf(Scan, text) == Some(values)
  {
    hide Scan, FirstSolid, IsSpace, ArrayOf, ArrayEndOf, Bounded, Stable, Trimmable, Started, CutShort, Listed,
         SeparatorOf;
    assert values + [] == values;
    assert MemberOf(Scan, text, 10, true) == Prepend(values, Some([]));
    assert ObjectOf(Scan, text, 1) == Some(values);
  }

  function SkillsPrefix(): string { "{\"skills\":[" }

  lemma SkillsStart(text: string, post: string)
    requires text == SkillsPrefix() + post
    ensures |SkillsPrefix()| == 11 && FirstSolid(text, 0) == 0 && text[0] == '{'
    ensures FirstSolid(text, 1) == 1 && text[1] == '"' && FirstSolid(text, 9) == 9 && text[9] == ':'
    ensures FirstSolid(text, 10) == 10 && text[10] == '['
    ensures Scan(text, 1) == Some((Name("skills"), 9))
  {
    hide FirstSolid, NameEnd, Close;
    assert text[0] == '{' && text[1] == '"' && text[8] == '"' && text[9] == ':' && text[10] == '[';
    assert text[2..8] == "skills";
    PlainName(text, 2, 9);
    SolidAt(text, 0);
    SolidAt(text, 1);
    SolidAt(text, 9);
    SolidAt(text, 10);
  }

  lemma ClosedThere(text: string, p: nat)
    requires ReadsObjects(Scan) && p < |text| && text[p] == '}' && FirstSolid(text, p) == p
    ensures SeparatorOf(Scan, text, p) == Some([])
  {
  }

  /** A member of another name is passed over, whatever its value is. */
  lemma OtherMemberIsPassed(d: Decoder, text: string, p: nat, q: nat, key: string, colon: nat, v: nat, value: Value,
                            end: nat)
    requires ReadsObjects(d) && p <= |text| && FirstSolid(text, p) == q < |text| && text[q] != '}' && key != "skills"
    requires d(text, q).Some? && d(text, q).value.0 == Name(key) && d(text, q).value.1 <= |text|
    requires FirstSolid(text, d(text, q).value.1) == colon < |text| && text[colon] == ':'
    requires FirstSolid(text, colon + 1) == v < |text| && d(text, v) == Some((value, end)) && end <= |text|
    ensures ObjectOf(d, text, p) == SeparatorOf(d, text, end)
  {
    hide Stable, Trimmable, Started, CutShort, Listed;
  }

  /** Between members one comma is passed over, and none is needed. */
  lemma CommaIsOptional(d: Decoder, text: string, p: nat, q: nat)
    requires ReadsObjects(d) && p <= |text| && FirstSolid(text, p) == q < |text|
    ensures text[q] == ',' ==> SeparatorOf(d, text, p) == ObjectOf(d, text, q + 1)
    ensures text[q] != ',' && text[q] != '}' ==> SeparatorOf(d, text, p) == ObjectOf(d, text, p)
    ensures text[q] == '}' ==> SeparatorOf(d, text, p) == ObjectOf(d, text, p) == Some([])
  {
    hide Stable, Trimmable, Started, CutShort, Listed, Bounded;
    SolidEnds(text, p);
    SolidAt(text, q);
  }
}
