/** The byte-string operations the ETag middleware uses. A byte is written as
    the character with its value. */
module ByteStrings {
  type Bytes = string

  // ---------- stripping ----------

  predicate AllOf(s: Bytes, p: char -> bool) {
    forall i :: 0 <= i < |s| ==> p(s[i])
  }

  function LStrip(s: Bytes, p: char -> bool): Bytes {
    if s != [] && p(s[0]) then LStrip(s[1..], p) else s
  }

  function RStrip(s: Bytes, p: char -> bool): Bytes {
    if s != [] && p(s[|s| - 1]) then RStrip(s[..|s| - 1], p) else s
  }

  predicate IsSpace(c: char) {
    c == ' ' || c == '\t' || c == '\n' || c == '\r' || c == '\U{0b}' || c == '\U{0c}'
  }

  function Strip(s: Bytes): Bytes {
    RStrip(LStrip(s, IsSpace), IsSpace)
  }

  lemma {:induction false} LStripShape(s: Bytes, p: char -> bool) returns (cut: Bytes)
    ensures s == cut + LStrip(s, p) && AllOf(cut, p)
    ensures LStrip(s, p) != [] ==> !p(LStrip(s, p)[0])
  {
    if s != [] && p(s[0]) {
      var rest := LStripShape(s[1..], p);
      cut := [s[0]] + rest;
    } else {
      cut := [];
    }
  }

  lemma {:induction false} RStripShape(s: Bytes, p: char -> bool) returns (cut: Bytes)
    ensures s == RStrip(s, p) + cut && AllOf(cut, p)
    ensures RStrip(s, p) != [] ==> !p(RStrip(s, p)[|RStrip(s, p)| - 1])
  {
    if s != [] && p(s[|s| - 1]) {
      var rest := RStripShape(s[..|s| - 1], p);
      cut := rest + [s[|s| - 1]];
    } else {
      cut := [];
    }
  }

  lemma {:induction false} LStripCuts(cut: Bytes, s: Bytes, p: char -> bool)
    requires AllOf(cut, p) && (s != [] ==> !p(s[0]))
    ensures LStrip(cut + s, p) == s
  {
    if cut == [] {
      assert cut + s == s;
    } else {
      assert (cut + s)[1..] == cut[1..] + s;
      LStripCuts(cut[1..], s, p);
    }
  }

  lemma {:induction false} RStripCuts(s: Bytes, cut: Bytes, p: char -> bool)
    requires AllOf(cut, p) && (s != [] ==> !p(s[|s| - 1]))
    ensures RStrip(s + cut, p) == s
  {
    if cut == [] {
      assert s + cut == s;
    } else {
      assert (s + cut)[..|s + cut| - 1] == s + cut[..|cut| - 1];
      RStripCuts(s, cut[..|cut| - 1], p);
    }
  }

  /** Stripping removes the surrounding spaces and nothing else. */
  lemma StripCuts(left: Bytes, s: Bytes, right: Bytes)
    requires AllOf(left, IsSpace) && AllOf(right, IsSpace)
    requires s != [] && !IsSpace(s[0]) && !IsSpace(s[|s| - 1])
    ensures Strip(left + s + right) == s
  {
    assert left + s + right == left + (s + right);
    LStripCuts(left, s + right, IsSpace);
    RStripCuts(s, right, IsSpace);
  }

  lemma StripShape(s: Bytes) returns (left: Bytes, right: Bytes)
    ensures s == left + Strip(s) + right
    ensures AllOf(left, IsSpace) && AllOf(right, IsSpace)
  {
    left := LStripShape(s, IsSpace);
    right := RStripShape(LStrip(s, IsSpace), IsSpace);
  }

  // ---------- splitting at commas ----------

  function Split(s: Bytes): (parts: seq<Bytes>)
    ensures parts != []
  {
    if s == [] then [[]]
    else
      var rest := Split(s[1..]);
      if s[0] == ',' then [[]] + rest else [[s[0]] + rest[0]] + rest[1..]
  }

  lemma {:induction false} SplitWithout(s: Bytes)
    requires ',' !in s
    ensures Split(s) == [s]
  {
    if s != [] {
      assert s[0] in s && forall c :: c in s[1..] ==> c in s;
      SplitWithout(s[1..]);
      assert [s[0]] + s[1..] == s;
    }
  }

  lemma {:induction false} SplitAt(a: Bytes, b: Bytes)
    ensures Split(a + "," + b) == Split(a) + Split(b)
  {
    if a == [] {
      assert a + "," + b == "," + b && ("," + b)[1..] == b;
    } else {
      assert (a + "," + b)[1..] == a[1..] + "," + b;
      SplitAt(a[1..], b);
    }
  }

  // ---------- counting quotes ----------

  function Quotes(s: Bytes): nat {
    if s == [] then 0 else (if s[0] == '"' then 1 else 0) + Quotes(s[1..])
  }

  lemma {:induction false} QuotesConcat(a: Bytes, b: Bytes)
    ensures Quotes(a + b) == Quotes(a) + Quotes(b)
  {
    if a == [] {
      assert a + b == b;
    } else {
      assert (a + b)[1..] == a[1..] + b;
      QuotesConcat(a[1..], b);
    }
  }

  lemma {:induction false} QuotesWithout(s: Bytes)
    requires '"' !in s
    ensures Quotes(s) == 0
  {
    if s != [] {
      assert s[0] in s && forall c :: c in s[1..] ==> c in s;
      QuotesWithout(s[1..]);
    }
  }

  lemma {:induction false} QuotesOfPart(s: Bytes, i: nat)
    requires i < |Split(s)|
    ensures Quotes(Split(s)[i]) <= Quotes(s)
  {
    if s != [] {
      var rest := Split(s[1..]);
      QuotesOfPart(s[1..], if s[0] == ',' && i > 0 then i - 1 else if i < |rest| then i else 0);
      if s[0] != ',' && i == 0 {
        assert ([s[0]] + rest[0])[1..] == rest[0];
      }
    }
  }

  // ---------- spaces around the whole ----------

  lemma LStripAppend(s: Bytes, c: char)
    requires IsSpace(c)
    ensures LStrip(s + [c], IsSpace) == if LStrip(s, IsSpace) == [] then [] else LStrip(s, IsSpace) + [c]
  {
    var cut := LStripShape(s, IsSpace);
    var core := LStrip(s, IsSpace);
    if core == [] {
      assert s + [c] == (cut + [c]) + [];
      LStripCuts(cut + [c], [], IsSpace);
    } else {
      assert s + [c] == cut + (core + [c]);
      LStripCuts(cut, core + [c], IsSpace);
    }
  }

  lemma StripAppend(s: Bytes, c: char)
    requires IsSpace(c)
    ensures Strip(s + [c]) == Strip(s)
  {
    LStripAppend(s, c);
    var core := LStrip(s, IsSpace);
    assert (core + [c])[..|core|] == core;
  }

  lemma StripPrepend(s: Bytes, c: char)
    requires IsSpace(c)
    ensures Strip([c] + s) == Strip(s)
  {
    assert ([c] + s)[1..] == s;
  }

  lemma SplitPrepend(s: Bytes, c: char)
    requires c != ','
    ensures Split([c] + s) == [[c] + Split(s)[0]] + Split(s)[1..]
  {
    assert ([c] + s)[1..] == s;
  }

  /** The parts with one more character at the very end. */
  function ExtendLast(parts: seq<Bytes>, c: char): seq<Bytes>
    requires parts != []
  {
    parts[..|parts| - 1] + [parts[|parts| - 1] + [c]]
  }

  lemma ExtendLastOfCons(first: Bytes, rest: seq<Bytes>, c: char)
    requires rest != []
    ensures ExtendLast([first] + rest, c) == [first] + ExtendLast(rest, c)
  {
  }

  lemma ExtendLastOfLonger(x: char, rest: seq<Bytes>, c: char)
    requires rest != []
    ensures ExtendLast([[x] + rest[0]] + rest[1..], c)
         == [[x] + ExtendLast(rest, c)[0]] + ExtendLast(rest, c)[1..]
  {
    if |rest| == 1 {
      assert ([x] + rest[0]) + [c] == [x] + (rest[0] + [c]);
    }
  }

  lemma {:induction false} SplitAppend(s: Bytes, c: char)
    requires c != ','
    ensures Split(s + [c]) == ExtendLast(Split(s), c)
  {
    if s == [] {
      SplitWithout([c]);
      assert [] + [c] == [c];
    } else {
      SplitAppend(s[1..], c);
      assert (s + [c])[1..] == s[1..] + [c];
      if s[0] == ',' {
        ExtendLastOfCons([], Split(s[1..]), c);
      } else {
        ExtendLastOfLonger(s[0], Split(s[1..]), c);
      }
    }
  }

  lemma QuotesOfSpaces(s: Bytes)
    requires AllOf(s, IsSpace)
    ensures Quotes(s) == 0
  {
    QuotesWithout(s);
  }

  lemma QuotesOfStrip(s: Bytes)
    ensures Quotes(Strip(s)) == Quotes(s)
  {
    var left, right := StripShape(s);
    QuotesConcat(left + Strip(s), right);
    QuotesConcat(left, Strip(s));
    QuotesOfSpaces(left);
    QuotesOfSpaces(right);
  }
}
