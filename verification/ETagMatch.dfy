/** Matching an If-None-Match field against the tag of a response. */
module ETagMatch {
  import opened Options
  import opened ByteStrings

  predicate IsWeakMark(c: char) {
    c == 'W' || c == '/'
  }

  /** What a listed tag is reduced to before it is compared. */
  function Normal(candidate: Bytes): Bytes {
    Strip(LStrip(Strip(candidate), IsWeakMark))
  }

  predicate Matches(ifNoneMatch: Bytes, etag: Bytes) {
    var raw := Strip(ifNoneMatch);
    || raw == "*"
    || exists i :: 0 <= i < |Split(raw)| && Normal(Split(raw)[i]) == Strip(LStrip(etag, IsWeakMark))
  }

  method EtagMatches(ifNoneMatch: Bytes, etag: Bytes) returns (matches: bool)
    ensures matches == Matches(ifNoneMatch, etag)
  {
    var raw := Strip(ifNoneMatch);
    if raw == "*" {
      return true;
    }
    var target := Strip(LStrip(etag, IsWeakMark));
    var candidates := Split(raw);
    for i := 0 to |candidates|
      invariant forall j :: 0 <= j < i ==> Normal(candidates[j]) != target
    {
      if Normal(candidates[i]) == target {
        return true;
      }
    }
    return false;
  }

  // ---------- entity tags and lists of them, as RFC 9110 defines them ----------

  /** An entity-tag (section 8.8.3 of RFC 9110). */
  datatype Tag = Tag(weak: bool, text: Bytes)

  /** A list element (section 5.6.1 of RFC 9110), which may be empty. */
  datatype Item = Item(before: Bytes, tag: Option<Tag>, after: Bytes)

  predicate IsEtagChar(c: char) {
    c == '\U{21}' || '\U{23}' <= c <= '\U{7e}' || '\U{80}' <= c <= '\U{ff}'
  }

  predicate IsBlank(c: char) {
    c == ' ' || c == '\t'
  }

  predicate WellFormed(item: Item) {
    && AllOf(item.before, IsBlank) && AllOf(item.after, IsBlank)
    && (item.tag.Some? ==> AllOf(item.tag.value.text, IsEtagChar))
  }

  function Quoted(text: Bytes): Bytes {
    "\"" + text + "\""
  }

  function WeakMark(weak: bool): Bytes {
    if weak then "W/" else ""
  }

  function RenderTag(tag: Option<Tag>): Bytes {
    match tag
    case None => ""
    case Some(t) => WeakMark(t.weak) + Quoted(t.text)
  }

  function RenderItem(item: Item): Bytes {
    item.before + RenderTag(item.tag) + item.after
  }

  function Render(items: seq<Item>): Bytes
    requires items != []
  {
    if |items| == 1 then RenderItem(items[0])
    else RenderItem(items[0]) + "," + Render(items[1..])
  }

  /** Weak comparison (section 8.8.3.2 of RFC 9110): the weak marks do not matter. */
  predicate Lists(items: seq<Item>, text: Bytes) {
    exists i :: 0 <= i < |items| && items[i].tag.Some? && items[i].tag.value.text == text
  }

  /** The text between the quotes of a tag that the middleware computes. */
  predicate IsHex(text: Bytes) {
    forall i :: 0 <= i < |text| ==> '0' <= text[i] <= '9' || 'a' <= text[i] <= 'f'
  }

  // ---------- one candidate ----------

  lemma TargetIsQuoted(text: Bytes)
    ensures Strip(LStrip(Quoted(text), IsWeakMark)) == Quoted(text)
  {
    StripCuts([], Quoted(text), []);
    assert [] + Quoted(text) + [] == Quoted(text);
  }

  predicate Spaces(s: Bytes) {
    AllOf(s, IsSpace)
  }

  predicate Marks(s: Bytes) {
    AllOf(s, IsWeakMark)
  }

  lemma NormalForms(a: Bytes, b: Bytes, c: Bytes, text: Bytes, d: Bytes)
    requires Spaces(a) && Marks(b) && Spaces(c) && Spaces(d) && b != []
    ensures Normal(a + b + c + Quoted(text) + d) == Quoted(text)
  {
    var inner := b + c + Quoted(text);
    assert a + b + c + Quoted(text) + d == a + inner + d;
    StripCuts(a, inner, d);
    assert inner == b + (c + Quoted(text));
    LStripCuts(b, c + Quoted(text), IsWeakMark);
    assert c + Quoted(text) == c + Quoted(text) + [];
    StripCuts(c, Quoted(text), []);
  }

  lemma NormalFormStrong(a: Bytes, text: Bytes, d: Bytes)
    requires Spaces(a) && Spaces(d)
    ensures Normal(a + Quoted(text) + d) == Quoted(text)
  {
    StripCuts(a, Quoted(text), d);
    TargetIsQuoted(text);
  }

  lemma Regroup(a: Bytes, b: Bytes, c: Bytes, q: Bytes, d1: Bytes, d2: Bytes)
    ensures a + (b + (c + q + d1)) + d2 == a + b + c + q + (d1 + d2)
  {
  }

  lemma NormalFormsOnly(candidate: Bytes, text: Bytes) returns (a: Bytes, b: Bytes, c: Bytes, d: Bytes)
    requires Normal(candidate) == Quoted(text)
    ensures Spaces(a) && Marks(b) && Spaces(c) && Spaces(d)
    ensures candidate == a + b + c + Quoted(text) + d
  {
    var stripped := Strip(candidate);
    var unmarked := LStrip(stripped, IsWeakMark);
    var d1, d2;
    a, d2 := StripShape(candidate);
    b := LStripShape(stripped, IsWeakMark);
    c, d1 := StripShape(unmarked);
    d := d1 + d2;
    Regroup(a, b, c, Quoted(text), d1, d2);
  }

  ghost predicate IsForm(candidate: Bytes, a: Bytes, b: Bytes, c: Bytes, text: Bytes, d: Bytes) {
    Spaces(a) && Marks(b) && Spaces(c) && Spaces(d) && candidate == a + b + c + Quoted(text) + d
  }

  /** The tag behind any run of the characters `W` and `/`, with spaces around either. */
  ghost predicate PassesFor(candidate: Bytes, text: Bytes) {
    exists a, b, c, d :: IsForm(candidate, a, b, c, text, d)
  }

  lemma PassesExactly(candidate: Bytes, text: Bytes)
    ensures Normal(candidate) == Quoted(text) <==> PassesFor(candidate, text)
  {
    if Normal(candidate) == Quoted(text) {
      var a, b, c, d := NormalFormsOnly(candidate, text);
      assert IsForm(candidate, a, b, c, text, d);
    }
    forall a, b, c, d | IsForm(candidate, a, b, c, text, d) ensures Normal(candidate) == Quoted(text) {
      if b == [] {
        assert candidate == (a + c) + Quoted(text) + d;
        NormalFormStrong(a + c, text, d);
      } else {
        NormalForms(a, b, c, text, d);
      }
    }
  }

  lemma QuotesOfNormal(candidate: Bytes, text: Bytes)
    requires Normal(candidate) == Quoted(text)
    ensures Quotes(candidate) >= 2
  {
    var a, b, c, d := NormalFormsOnly(candidate, text);
    QuotesConcat(a + b + c + Quoted(text), d);
    QuotesConcat(a + b + c, Quoted(text));
    QuotesConcat("\"" + text, "\"");
    QuotesConcat("\"", text);
  }

  // ---------- one element ----------

  ghost predicate SomeOf(parts: seq<Bytes>, target: Bytes) {
    exists i :: 0 <= i < |parts| && Normal(parts[i]) == target
  }

  ghost predicate SomePart(s: Bytes, target: Bytes) {
    SomeOf(Split(s), target)
  }

  lemma SomeOfConcat(a: seq<Bytes>, b: seq<Bytes>, target: Bytes)
    ensures SomeOf(a + b, target) <==> SomeOf(a, target) || SomeOf(b, target)
  {
    if SomeOf(a, target) {
      var i :| 0 <= i < |a| && Normal(a[i]) == target;
      assert Normal((a + b)[i]) == target;
    }
    if SomeOf(b, target) {
      var i :| 0 <= i < |b| && Normal(b[i]) == target;
      assert Normal((a + b)[|a| + i]) == target;
    }
    if SomeOf(a + b, target) {
      var i :| 0 <= i < |a + b| && Normal((a + b)[i]) == target;
      assert if i < |a| then Normal(a[i]) == target else Normal(b[i - |a|]) == target;
    }
  }

  lemma SomePartJoin(a: Bytes, b: Bytes, target: Bytes)
    ensures SomePart(a + "," + b, target) <==> SomePart(a, target) || SomePart(b, target)
  {
    SplitAt(a, b);
    SomeOfConcat(Split(a), Split(b), target);
  }

  lemma FewQuotesNoPart(s: Bytes, text: Bytes)
    requires Quotes(s) <= 1
    ensures !SomePart(s, Quoted(text))
  {
    forall i | 0 <= i < |Split(s)| ensures Normal(Split(s)[i]) != Quoted(text) {
      QuotesOfPart(s, i);
      if Normal(Split(s)[i]) == Quoted(text) {
        QuotesOfNormal(Split(s)[i], text);
      }
    }
  }

  lemma BlanksAreSpaces(s: Bytes)
    requires AllOf(s, IsBlank)
    ensures Spaces(s) && ',' !in s && Quotes(s) == 0
  {
    QuotesOfSpaces(s);
  }

  lemma OneQuote(a: Bytes, b: Bytes)
    requires Quotes(a) == Quotes(b) == 0
    ensures Quotes(a + "\"" + b) == 1
  {
    QuotesConcat(a + "\"", b);
    QuotesConcat(a, "\"");
  }

  lemma BrokenShape(a: Bytes, x: Bytes, y: Bytes, b: Bytes)
    ensures a + Quoted(x + "," + y) + b == (a + "\"" + x) + "," + (y + "\"" + b)
  {
  }

  /** A tag with a comma inside falls apart, and no piece has both quotes. */
  lemma BrokenTag(a: Bytes, x: Bytes, y: Bytes, b: Bytes, text: Bytes)
    requires Quotes(a) == Quotes(x) == Quotes(y) == Quotes(b) == 0
    ensures !SomePart(a + Quoted(x + "," + y) + b, Quoted(text))
  {
    var left, right := a + "\"" + x, y + "\"" + b;
    BrokenShape(a, x, y, b);
    OneQuote(a, x);
    OneQuote(y, b);
    SomePartJoin(left, right, Quoted(text));
    FewQuotesNoPart(left, text);
    FewQuotesNoPart(right, text);
  }

  lemma WholeTag(before: Bytes, weak: bool, listed: Bytes, after: Bytes, text: Bytes)
    requires Spaces(before) && Spaces(after) && ',' !in before && ',' !in after && ',' !in listed
    ensures var s := before + RenderTag(Some(Tag(weak, listed))) + after;
            SomePart(s, Quoted(text)) <==> listed == text
  {
    var s := before + RenderTag(Some(Tag(weak, listed))) + after;
    SplitWithout(s);
    if weak {
      assert s == before + "W/" + [] + Quoted(listed) + after;
      NormalForms(before, "W/", [], listed, after);
    } else {
      assert s == before + Quoted(listed) + after;
      NormalFormStrong(before, listed, after);
    }
    assert Quoted(listed)[1..|listed| + 1] == listed && Quoted(text)[1..|text| + 1] == text;
    assert Split(s)[0] == s;
  }

  lemma EtagCharsHaveNoQuote(text: Bytes)
    requires AllOf(text, IsEtagChar)
    ensures Quotes(text) == 0
  {
    QuotesWithout(text);
  }

  lemma CommaSplits(text: Bytes) returns (x: Bytes, y: Bytes)
    requires ',' in text && AllOf(text, IsEtagChar)
    ensures text == x + "," + y && Quotes(x) == 0 && Quotes(y) == 0
  {
    var i :| 0 <= i < |text| && text[i] == ',';
    x, y := text[..i], text[i + 1..];
    EtagCharsHaveNoQuote(x);
    EtagCharsHaveNoQuote(y);
  }

  lemma EmptyItem(before: Bytes, after: Bytes, text: Bytes)
    requires Quotes(before) == Quotes(after) == 0
    ensures !SomePart(before + "" + after, Quoted(text))
  {
    assert before + "" + after == before + after;
    QuotesConcat(before, after);
    FewQuotesNoPart(before + after, text);
  }

  lemma MarkedFront(before: Bytes, weak: bool)
    requires Quotes(before) == 0
    ensures Quotes(before + WeakMark(weak)) == 0
  {
    QuotesWithout(WeakMark(weak));
    QuotesConcat(before, WeakMark(weak));
  }

  lemma MarkedTag(before: Bytes, t: Tag, after: Bytes)
    ensures before + RenderTag(Some(t)) + after == (before + WeakMark(t.weak)) + Quoted(t.text) + after
  {
  }

  /** A tag with a comma inside matches no tag that has none. */
  lemma BrokenItem(before: Bytes, t: Tag, after: Bytes, text: Bytes)
    requires Quotes(before) == Quotes(after) == 0 && AllOf(t.text, IsEtagChar) && ',' in t.text
    ensures !SomePart(before + RenderTag(Some(t)) + after, Quoted(text))
  {
    var x, y := CommaSplits(t.text);
    var front := before + WeakMark(t.weak);
    MarkedFront(before, t.weak);
    MarkedTag(before, t, after);
    BrokenTag(front, x, y, after, text);
  }

  /** An element matches exactly when it is a tag with the same text. */
  lemma ItemMatches(item: Item, text: Bytes)
    requires WellFormed(item) && IsHex(text)
    ensures SomePart(RenderItem(item), Quoted(text)) <==> item.tag.Some? && item.tag.value.text == text
  {
    BlanksAreSpaces(item.before);
    BlanksAreSpaces(item.after);
    match item.tag
    case None =>
      EmptyItem(item.before, item.after, text);
    case Some(t) =>
      if ',' in t.text {
        BrokenItem(item.before, t, item.after, text);
      } else {
        WholeTag(item.before, t.weak, t.text, item.after, text);
      }
  }

  lemma ListsHeadOrRest(items: seq<Item>, text: Bytes)
    requires items != []
    ensures Lists(items, text) <==>
      (items[0].tag.Some? && items[0].tag.value.text == text) || Lists(items[1..], text)
  {
    if Lists(items[1..], text) {
      var i :| 0 <= i < |items[1..]| && items[1..][i].tag.Some? && items[1..][i].tag.value.text == text;
      assert items[i + 1] == items[1..][i];
    }
    if Lists(items, text) {
      var i :| 0 <= i < |items| && items[i].tag.Some? && items[i].tag.value.text == text;
      assert i > 0 ==> items[1..][i - 1] == items[i];
    }
  }

  lemma {:induction false} ListMatches(items: seq<Item>, text: Bytes)
    requires items != [] && IsHex(text)
    requires forall i :: 0 <= i < |items| ==> WellFormed(items[i])
    ensures SomePart(Render(items), Quoted(text)) <==> Lists(items, text)
  {
    ItemMatches(items[0], text);
    if |items| > 1 {
      ListMatches(items[1..], text);
      SomePartJoin(RenderItem(items[0]), Render(items[1..]), Quoted(text));
      ListsHeadOrRest(items, text);
    }
  }

  // ---------- the whole field ----------

  lemma NormalOfStripped(a: Bytes, b: Bytes)
    requires Strip(a) == Strip(b)
    ensures Normal(a) == Normal(b)
  {
  }

  lemma SameNormals(a: seq<Bytes>, b: seq<Bytes>, target: Bytes)
    requires |a| == |b| && forall i :: 0 <= i < |a| ==> Strip(a[i]) == Strip(b[i])
    ensures (exists i :: 0 <= i < |a| && Normal(a[i]) == target) <==> (exists i :: 0 <= i < |b| && Normal(b[i]) == target)
  {
    forall i | 0 <= i < |a| ensures Normal(a[i]) == Normal(b[i]) {
      NormalOfStripped(a[i], b[i]);
    }
  }

  lemma SomePartAppend(s: Bytes, c: char, target: Bytes)
    requires IsSpace(c)
    ensures SomePart(s + [c], target) <==> SomePart(s, target)
  {
    SplitAppend(s, c);
    var parts, longer := Split(s), Split(s + [c]);
    StripAppend(parts[|parts| - 1], c);
    SameNormals(parts, longer, target);
  }

  lemma SomePartPrepend(s: Bytes, c: char, target: Bytes)
    requires IsSpace(c)
    ensures SomePart([c] + s, target) <==> SomePart(s, target)
  {
    SplitPrepend(s, c);
    StripPrepend(Split(s)[0], c);
    SameNormals(Split(s), Split([c] + s), target);
  }

  lemma {:induction false} SomePartSurrounded(left: Bytes, s: Bytes, right: Bytes, target: Bytes)
    requires Spaces(left) && Spaces(right)
    ensures SomePart(left + s + right, target) <==> SomePart(s, target)
    decreases |left| + |right|
  {
    if left != [] {
      assert left + s + right == [left[0]] + (left[1..] + s + right);
      SomePartPrepend(left[1..] + s + right, left[0], target);
      SomePartSurrounded(left[1..], s, right, target);
    } else if right != [] {
      var n := |right| - 1;
      assert left + s + right == (left + s + right[..n]) + [right[n]];
      SomePartAppend(left + s + right[..n], right[n], target);
      SomePartSurrounded(left, s, right[..n], target);
    } else {
      assert left + s + right == s;
    }
  }

  lemma {:induction false} RenderHasNoStar(items: seq<Item>)
    requires items != [] && forall i :: 0 <= i < |items| ==> WellFormed(items[i]) && items[i].tag.None?
    ensures '*' !in Render(items)
  {
    assert WellFormed(items[0]);
    if |items| > 1 {
      RenderHasNoStar(items[1..]);
    }
  }

  lemma TagHasQuotes(item: Item)
    requires item.tag.Some?
    ensures Quotes(RenderItem(item)) >= 1
  {
    var t := item.tag.value;
    var front, back := item.before + (if t.weak then "W/" else ""), t.text + "\"" + item.after;
    assert RenderItem(item) == front + "\"" + back;
    QuotesConcat(front + "\"", back);
    QuotesConcat(front, "\"");
  }

  lemma QuotesJoin(a: Bytes, b: Bytes)
    ensures Quotes(a + "," + b) == Quotes(a) + Quotes(b)
  {
    QuotesConcat(a + ",", b);
    QuotesConcat(a, ",");
  }

  lemma {:induction false} RenderHasQuotes(items: seq<Item>, i: nat)
    requires i < |items| && items[i].tag.Some?
    ensures Quotes(Render(items)) >= 1
  {
    if i == 0 {
      TagHasQuotes(items[0]);
    }
    if |items| > 1 {
      if i > 0 {
        RenderHasQuotes(items[1..], i - 1);
      }
      QuotesJoin(RenderItem(items[0]), Render(items[1..]));
    }
  }

  lemma ListIsNoStar(items: seq<Item>)
    requires items != [] && forall i :: 0 <= i < |items| ==> WellFormed(items[i])
    ensures Strip(Render(items)) != "*"
  {
    QuotesOfStrip(Render(items));
    if i :| 0 <= i < |items| && items[i].tag.Some? {
      RenderHasQuotes(items, i);
    } else {
      RenderHasNoStar(items);
      var left, right := StripShape(Render(items));
      var core := Strip(Render(items));
      assert forall k :: 0 <= k < |core| ==> core[k] == Render(items)[|left| + k];
    }
  }

  /** A well-formed list (section 13.1.2 of RFC 9110) matches exactly when it
      holds a tag that is equal by weak comparison. */
  lemma MatchesList(items: seq<Item>, text: Bytes)
    requires items != [] && IsHex(text)
    requires forall i :: 0 <= i < |items| ==> WellFormed(items[i])
    ensures Matches(Render(items), Quoted(text)) <==> Lists(items, text)
  {
    var header := Render(items);
    ListIsNoStar(items);
    TargetIsQuoted(text);
    var left, right := StripShape(header);
    SomePartSurrounded(left, Strip(header), right, Quoted(text));
    ListMatches(items, text);
  }

  /** The other well-formed field, a star, matches every tag. */
  lemma MatchesStar(before: Bytes, after: Bytes, etag: Bytes)
    requires Spaces(before) && Spaces(after)
    ensures Matches(before + "*" + after, etag)
  {
    StripCuts(before, "*", after);
  }

  /** What any field at all has to look like to match. */
  lemma MatchesExactly(field: Bytes, text: Bytes)
    ensures Matches(field, Quoted(text)) <==>
      Strip(field) == "*" || exists i :: 0 <= i < |Split(field)| && PassesFor(Split(field)[i], text)
  {
    TargetIsQuoted(text);
    var left, right := StripShape(field);
    SomePartSurrounded(left, Strip(field), right, Quoted(text));
    forall i | 0 <= i < |Split(field)|
      ensures Normal(Split(field)[i]) == Quoted(text) <==> PassesFor(Split(field)[i], text)
    {
      PassesExactly(Split(field)[i], text);
    }
  }

  /** How a field can start that is not empty. */
  predicate Starts(field: Bytes) {
    || field == []
    || IsBlank(field[0]) || field[0] == ',' || field[0] == '"'
    || (|field| >= 3 && field[0] == 'W' && field[1] == '/' && field[2] == '"')
  }

  lemma ItemStarts(item: Item, rest: Bytes)
    requires WellFormed(item) && (rest == [] || rest[0] == ',')
    ensures Starts(RenderItem(item) + rest)
  {
    var field := RenderItem(item) + rest;
    if item.before != [] {
      assert field[0] == item.before[0];
    } else if item.tag.Some? {
      assert if item.tag.value.weak then field[0] == 'W' && field[1] == '/' && field[2] == '"' else field[0] == '"';
    } else if item.after != [] {
      assert field[0] == item.after[0];
    } else {
      assert field == rest;
    }
  }

  /** A well-formed list starts with a blank, a comma, a quote or a weak mark and a quote. */
  lemma ListStarts(items: seq<Item>)
    requires items != [] && WellFormed(items[0])
    ensures Starts(Render(items))
  {
    if |items| == 1 {
      ItemStarts(items[0], []);
      assert RenderItem(items[0]) + [] == RenderItem(items[0]);
    } else {
      ItemStarts(items[0], "," + Render(items[1..]));
      assert RenderItem(items[0]) + "," + Render(items[1..]) == RenderItem(items[0]) + ("," + Render(items[1..]));
    }
  }

  lemma MarkedIsNoList(marks: Bytes, text: Bytes, items: seq<Item>)
    requires Marks(marks) && marks != [] && marks != "W/"
    requires items != [] && WellFormed(items[0])
    ensures Render(items) != marks + Quoted(text)
  {
    var field := marks + Quoted(text);
    ListStarts(items);
    assert field[0] == marks[0] && field[|marks|] == '"';
    assert |marks| >= 2 ==> field[1] == marks[1];
    assert |marks| >= 3 ==> field[2] == marks[2];
  }

  lemma MarkedFieldMatches(marks: Bytes, text: Bytes)
    requires Marks(marks) && ',' !in text
    ensures Matches(marks + Quoted(text), Quoted(text))
  {
    var field := marks + Quoted(text);
    SplitWithout(field);
    assert field == [] + marks + [] + Quoted(text) + [];
    assert IsForm(field, [], marks, [], text, []) && PassesFor(Split(field)[0], text);
    MatchesExactly(field, text);
  }

  /** So a field that is no list of entity-tags can match too: the tag behind any other run of the
      two characters than the weak mark. */
  lemma MalformedFieldMatches(marks: Bytes, text: Bytes)
    requires Marks(marks) && marks != [] && marks != "W/" && ',' !in text
    ensures Matches(marks + Quoted(text), Quoted(text))
    ensures forall items :: items != [] && (forall i :: 0 <= i < |items| ==> WellFormed(items[i])) ==>
              Render(items) != marks + Quoted(text)
  {
    MarkedFieldMatches(marks, text);
    forall items | items != [] && forall i :: 0 <= i < |items| ==> WellFormed(items[i])
      ensures Render(items) != marks + Quoted(text)
    {
      MarkedIsNoList(marks, text, items);
    }
  }
}
