/** The string operations the modelled files use, on sequences of characters. */
module Text {

  /** White space as `\s` and `String.prototype.trim` define it. */
  predicate IsSpace(c: char) {
    || c == ' ' || c == '\t' || c == '\n' || c == '\r' || c == '\U{000B}' || c == '\U{000C}'
    || c == '\U{00A0}' || c == '\U{1680}' || '\U{2000}' <= c <= '\U{200A}' || c == '\U{2028}'
    || c == '\U{2029}' || c == '\U{202F}' || c == '\U{205F}' || c == '\U{3000}' || c == '\U{FEFF}'
  }

  /** The characters that `.` does not match. */
  predicate IsLineTerminator(c: char) {
    c == '\n' || c == '\r' || c == '\U{2028}' || c == '\U{2029}'
  }

  predicate OneLine(s: string) {
    forall i :: 0 <= i < |s| ==> !IsLineTerminator(s[i])
  }

  predicate Blank(s: string) {
    forall i :: 0 <= i < |s| ==> IsSpace(s[i])
  }

  function SkipSpace(s: string): string {
    if s != [] && IsSpace(s[0]) then SkipSpace(s[1..]) else s
  }

  lemma {:induction false} SkipSpaceSplits(s: string) returns (space: string)
    ensures s == space + SkipSpace(s) && Blank(space)
    ensures SkipSpace(s) != [] ==> !IsSpace(SkipSpace(s)[0])
  {
    space := [];
    if s != [] && IsSpace(s[0]) {
      space := SkipSpaceSplits(s[1..]);
      space := [s[0]] + space;
    }
  }

  lemma {:induction false} SkipSpaceOver(space: string, rest: string)
    requires Blank(space) && rest != [] && !IsSpace(rest[0])
    ensures SkipSpace(space + rest) == rest
  {
    if space == [] {
      assert space + rest == rest;
    } else {
      assert (space + rest)[1..] == space[1..] + rest;
      SkipSpaceOver(space[1..], rest);
    }
  }

  // ----- trimming -----

  /** SQL's `TRIM` removes spaces only; JavaScript's `trim` all white space. */
  datatype Blanks = SpacesOnly | AllWhiteSpace

  predicate IsBlank(c: char, blanks: Blanks) {
    if blanks.SpacesOnly? then c == ' ' else IsSpace(c)
  }

  function TrimStart(s: string, blanks: Blanks): string {
    if s != [] && IsBlank(s[0], blanks) then TrimStart(s[1..], blanks) else s
  }

  function TrimEnd(s: string, blanks: Blanks): string {
    if s != [] && IsBlank(s[|s| - 1], blanks) then TrimEnd(s[..|s| - 1], blanks) else s
  }

  function Trim(s: string, blanks: Blanks): string {
    TrimEnd(TrimStart(s, blanks), blanks)
  }

  /** Neither end is blank, so trimming has nothing to remove. */
  predicate IsTrimmed(s: string, blanks: Blanks) {
    s != [] ==> !IsBlank(s[0], blanks) && !IsBlank(s[|s| - 1], blanks)
  }

  lemma {:induction false} TrimEndProperties(s: string, blanks: Blanks)
    ensures var t := TrimEnd(s, blanks);
            && t <= s
            && (t != [] ==> !IsBlank(t[|t| - 1], blanks))
            && (t != s ==> s != [] && IsBlank(s[|s| - 1], blanks))
  {
    if s != [] && IsBlank(s[|s| - 1], blanks) {
      TrimEndProperties(s[..|s| - 1], blanks);
    }
  }

  lemma {:induction false} TrimStartProperties(s: string, blanks: Blanks)
    ensures var t := TrimStart(s, blanks);
            && |t| <= |s| && t == s[|s| - |t|..]
            && (t != [] ==> !IsBlank(t[0], blanks))
            && (t != s ==> s != [] && IsBlank(s[0], blanks))
  {
    if s != [] && IsBlank(s[0], blanks) {
      TrimStartProperties(s[1..], blanks);
    }
  }

  lemma {:induction false} TrimIsTrimmed(s: string, blanks: Blanks)
    ensures IsTrimmed(Trim(s, blanks), blanks) && |Trim(s, blanks)| <= |s|
  {
    TrimStartProperties(s, blanks);
    TrimEndProperties(TrimStart(s, blanks), blanks);
  }

  lemma {:induction false} TrimOfTrimmed(s: string, blanks: Blanks)
    ensures Trim(s, blanks) == s <==> IsTrimmed(s, blanks)
  {
    TrimIsTrimmed(s, blanks);
    if s != [] && IsTrimmed(s, blanks) {
      assert TrimStart(s, blanks) == s;
    }
  }

  predicate AllBlank(s: string, blanks: Blanks) {
    forall i :: 0 <= i < |s| ==> IsBlank(s[i], blanks)
  }

  /** What trimming removes is blank. */
  lemma {:induction false} TrimSplits(s: string, blanks: Blanks) returns (before: string, after: string)
    ensures s == before + Trim(s, blanks) + after && AllBlank(before, blanks) && AllBlank(after, blanks)
  {
    before := StartSplits(s, blanks);
    after := EndSplits(TrimStart(s, blanks), blanks);
    assert s == before + (Trim(s, blanks) + after);
  }

  lemma {:induction false} StartSplits(s: string, blanks: Blanks) returns (before: string)
    ensures s == before + TrimStart(s, blanks) && AllBlank(before, blanks)
  {
    before := [];
    if s != [] && IsBlank(s[0], blanks) {
      before := StartSplits(s[1..], blanks);
      before := [s[0]] + before;
    }
  }

  lemma {:induction false} EndSplits(s: string, blanks: Blanks) returns (after: string)
    ensures s == TrimEnd(s, blanks) + after && AllBlank(after, blanks)
  {
    after := [];
    if s != [] && IsBlank(s[|s| - 1], blanks) {
      after := EndSplits(s[..|s| - 1], blanks);
      after := after + [s[|s| - 1]];
    }
  }

  lemma {:induction false} TrimStartBlank(before: string, s: string, blanks: Blanks)
    requires AllBlank(before, blanks)
    ensures TrimStart(before + s, blanks) == TrimStart(s, blanks)
  {
    if before == [] {
      assert before + s == s;
    } else {
      assert (before + s)[1..] == before[1..] + s;
      TrimStartBlank(before[1..], s, blanks);
    }
  }

  lemma {:induction false} TrimEndBlank(s: string, after: string, blanks: Blanks)
    requires AllBlank(after, blanks)
    ensures TrimEnd(s + after, blanks) == TrimEnd(s, blanks)
  {
    if after == [] {
      assert s + after == s;
    } else {
      assert (s + after)[..|s + after| - 1] == s + after[..|after| - 1];
      TrimEndBlank(s, after[..|after| - 1], blanks);
    }
  }

  /** Trimming is the only way to take blanks off both ends until neither end is blank. */
  lemma {:induction false} TrimIsUnique(before: string, r: string, after: string, blanks: Blanks)
    requires AllBlank(before, blanks) && AllBlank(after, blanks) && IsTrimmed(r, blanks)
    ensures Trim(before + r + after, blanks) == r
  {
    assert before + r + after == before + (r + after);
    TrimStartBlank(before, r + after, blanks);
    if r == [] {
      assert r + after == after + [];
      TrimStartBlank(after, [], blanks);
    } else {
      assert TrimStart(r + after, blanks) == r + after;
      TrimEndBlank(r, after, blanks);
      assert TrimEnd(r, blanks) == r;
    }
  }

  // ----- lower case -----

  /** Letters outside ASCII are not mapped. */
  function LowerChar(c: char): char {
    if 'A' <= c <= 'Z' then (c as int - 'A' as int + 'a' as int) as char else c
  }

  function Lower(s: string): (r: string)
    ensures |r| == |s| && forall i :: 0 <= i < |s| ==> r[i] == LowerChar(s[i])
  {
    if s == [] then [] else [LowerChar(s[0])] + Lower(s[1..])
  }

  lemma {:induction false} LowerCharFacts(c: char)
    ensures LowerChar(LowerChar(c)) == LowerChar(c)
    ensures forall blanks :: IsBlank(LowerChar(c), blanks) <==> IsBlank(c, blanks)
  {}

  lemma {:induction false} LowerKeepsTrimmed(s: string, blanks: Blanks)
    ensures IsTrimmed(Lower(s), blanks) <==> IsTrimmed(s, blanks)
    ensures Lower(Lower(s)) == Lower(s)
  {
    if s != [] {
      LowerCharFacts(s[0]);
      LowerCharFacts(s[|s| - 1]);
    }
    forall i | 0 <= i < |s| ensures Lower(Lower(s))[i] == Lower(s)[i] {
      LowerCharFacts(s[i]);
    }
  }

  predicate IsCapital(c: char) {
    'A' <= c <= 'Z'
  }

  /** The same character, or the two cases of one letter from A to Z. */
  predicate SameLetter(a: char, b: char) {
    || a == b
    || (IsCapital(a) && b as int == a as int + 32)
    || (IsCapital(b) && a as int == b as int + 32)
  }

  ghost predicate CaseVariants(s: string, t: string) {
    |s| == |t| && forall i :: 0 <= i < |s| ==> SameLetter(s[i], t[i])
  }

  lemma {:induction false} LowerCharIff(a: char, b: char)
    ensures LowerChar(a) == LowerChar(b) <==> SameLetter(a, b)
    ensures SameLetter(a, LowerChar(a)) && !IsCapital(LowerChar(a))
  {}

  /** Lower-casing leaves no capital and changes nothing but the case. */
  lemma {:induction false} LowerIsVariant(s: string)
    ensures CaseVariants(s, Lower(s))
    ensures forall i :: 0 <= i < |s| ==> !IsCapital(Lower(s)[i])
  {
    forall i | 0 <= i < |s| ensures SameLetter(s[i], Lower(s)[i]) && !IsCapital(Lower(s)[i]) {
      LowerCharIff(s[i], s[i]);
    }
  }

  /** Two texts have one lower-case form exactly when they differ in the case of letters at most. */
  lemma {:induction false} LowerIff(s: string, t: string)
    ensures Lower(s) == Lower(t) <==> CaseVariants(s, t)
  {
    if |s| == |t| {
      forall i | 0 <= i < |s| ensures Lower(s)[i] == Lower(t)[i] <==> SameLetter(s[i], t[i]) {
        LowerCharIff(s[i], t[i]);
      }
    }
  }

  // ----- splitting -----

  /** `split` on one character: there is always at least one part. */
  function Split(s: string, sep: char): (parts: seq<string>)
    ensures |parts| >= 1
  {
    if s == [] then [[]] else
      var rest := Split(s[1..], sep);
      if s[0] == sep then [[]] + rest else [[s[0]] + rest[0]] + rest[1..]
  }

  function Join(parts: seq<string>, sep: char): string {
    if parts == [] then [] else if |parts| == 1 then parts[0] else parts[0] + [sep] + Join(parts[1..], sep)
  }

  lemma {:induction false} SplitWithout(s: string, sep: char)
    requires sep !in s
    ensures Split(s, sep) == [s]
  {
    if s != [] {
      SplitWithout(s[1..], sep);
      assert [s[1..]][1..] == [] && [s[0]] + s[1..] == s;
      assert [s] + [] == [s];
    }
  }

  lemma {:induction false} SplitFirst(part: string, rest: string, sep: char)
    requires sep !in part
    ensures Split(part + [sep] + rest, sep) == [part] + Split(rest, sep)
  {
    if part == [] {
      assert part + [sep] + rest == [sep] + rest;
      assert ([sep] + rest)[1..] == rest;
    } else {
      assert (part + [sep] + rest)[1..] == part[1..] + [sep] + rest;
      SplitFirst(part[1..], rest, sep);
      assert ([part[1..]] + Split(rest, sep))[1..] == Split(rest, sep);
      assert [part[0]] + part[1..] == part;
    }
  }

  /** Splitting undoes joining when no part holds the separator. */
  lemma {:induction false} SplitJoin(parts: seq<string>, sep: char)
    requires parts != [] && forall i :: 0 <= i < |parts| ==> sep !in parts[i]
    ensures Split(Join(parts, sep), sep) == parts
  {
    if |parts| == 1 {
      SplitWithout(parts[0], sep);
    } else {
      SplitJoin(parts[1..], sep);
      SplitFirst(parts[0], Join(parts[1..], sep), sep);
    }
  }

  /** And joining undoes splitting. */
  lemma {:induction false} JoinSplit(s: string, sep: char)
    ensures Join(Split(s, sep), sep) == s
  {
    if s != [] {
      JoinSplit(s[1..], sep);
      var rest := Split(s[1..], sep);
      if s[0] == sep {
        assert ([[]] + rest)[1..] == rest;
      } else {
        var parts := [[s[0]] + rest[0]] + rest[1..];
        assert parts[1..] == rest[1..];
      }
    }
  }

  /** The first part is what stands before the first separator. */
  lemma {:induction false} SplitHead(s: string, sep: char) returns (rest: string)
    ensures s == Split(s, sep)[0] + rest && (rest == [] || rest[0] == sep) && sep !in Split(s, sep)[0]
  {
    rest := s;
    if s != [] && s[0] != sep {
      rest := SplitHead(s[1..], sep);
      var head := Split(s[1..], sep)[0];
      assert Split(s, sep)[0] == [s[0]] + head;
      Prepend(s, head, rest);
    }
  }

  lemma {:induction false} Prepend(s: string, head: string, rest: string)
    requires s != [] && s[1..] == head + rest
    ensures s == ([s[0]] + head) + rest
  {}

  lemma {:induction false} SplitParts(s: string, sep: char)
    ensures forall part :: part in Split(s, sep) ==> sep !in part
  {
    if s != [] {
      SplitParts(s[1..], sep);
      var rest := Split(s[1..], sep);
      assert rest[0] in rest && forall part :: part in rest[1..] ==> part in rest;
    }
  }

  /** A character that does not separate stays in some part. */
  lemma {:induction false} SplitKeepsOthers(s: string, sep: char, c: char)
    requires c in s && c != sep
    ensures exists part :: part in Split(s, sep) && c in part
  {
    var rest := Split(s[1..], sep);
    if s[0] == c {
      var first := [s[0]] + rest[0];
      assert first in Split(s, sep) && c in first by { assert first[0] == c; }
    } else {
      SplitKeepsOthers(s[1..], sep, c);
      var part :| part in rest && c in part;
      if s[0] == sep {
        assert part in Split(s, sep);
      } else if part in rest[1..] {
        assert part in Split(s, sep);
      } else {
        assert part == rest[0];
        var first := [s[0]] + rest[0];
        assert first in Split(s, sep) && c in first by {
          var i :| 0 <= i < |part| && part[i] == c;
          assert first[i + 1] == c;
        }
      }
    }
  }
}
