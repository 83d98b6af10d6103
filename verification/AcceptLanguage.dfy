/**
  `parseAcceptLanguage` of `src/common/i18n/accept-language.ts`: the Accept-Language
  header of section 5.3.5 of RFC 7231, with the quality values of section 5.3.1.
 */
module AcceptLanguage {
  import opened Wrappers
  import opened Text

  datatype Preference = Preference(language: string, quality: real)

  // ----- one entry -----

  predicate IsDigit(c: char) {
    '0' <= c <= '9'
  }

  predicate AllDigits(s: string) {
    forall i :: 0 <= i < |s| ==> IsDigit(s[i])
  }

  function DigitsValue(s: string): nat
    requires AllDigits(s)
  {
    if s == [] then 0 else 10 * DigitsValue(s[..|s| - 1]) + (s[|s| - 1] as int - '0' as int)
  }

  function Pow10(n: nat): nat
    ensures Pow10(n) > 0
  {
    if n == 0 then 1 else 10 * Pow10(n - 1)
  }

  /** `parseFloat` of a match of `[0-9]*\.?[0-9]+`, or None when the text is no such match. */
  function ParseNumber(s: string): Option<real> {
    var parts := Split(s, '.');
    if !AllDigits(parts[0]) then None
    else if |parts| == 1 then if s == [] then None else Some(DigitsValue(parts[0]) as real)
    else if |parts| == 2 && AllDigits(parts[1]) && parts[1] != [] then
      Some(DecimalValue(parts[0], parts[1]))
    else None
  }

  function DecimalValue(whole: string, frac: string): real
    requires AllDigits(whole) && AllDigits(frac)
  {
    DigitsValue(whole) as real + DigitsValue(frac) as real / Pow10(|frac|) as real
  }

  /** `^q\s*=\s*(number)$`, in either case. */
  function MatchQuality(s: string): Option<real> {
    if s == [] || LowerChar(s[0]) != 'q' then None else
      var u := SkipSpace(s[1..]);
      if u == [] || u[0] != '=' then None else ParseNumber(SkipSpace(u[1..]))
  }

  /** A quality that is malformed or out of range counts as 1. */
  function StatedQuality(parameter: string): real {
    var parsed := MatchQuality(Trim(parameter, AllWhiteSpace));
    if parsed.Some? && 0.0 <= parsed.value <= 1.0 then parsed.value else 1.0
  }

  /** So does one that is missing. */
  function QualityOf(parts: seq<string>): real {
    if |parts| <= 1 then 1.0 else StatedQuality(parts[1])
  }

  const KELVIN_SIGN := '\U{212A}'

  /** `toLowerCase`, as far as it can yield a letter from a to z: the Kelvin sign becomes `k`. */
  function LowerLetters(s: string): string {
    if s == [] then [] else [if s[0] == KELVIN_SIGN then 'k' else LowerChar(s[0])] + LowerLetters(s[1..])
  }

  /** `^[a-z]{2,3}$` */
  predicate IsLanguageCode(s: string) {
    2 <= |s| <= 3 && forall i :: 0 <= i < |s| ==> 'a' <= s[i] <= 'z'
  }

  /** The preference that an entry between two commas states, or None when it is skipped. */
  function ParseEntry(entry: string): (p: Option<Preference>)
    ensures p.Some? ==> IsLanguageCode(p.value.language) && 0.0 <= p.value.quality <= 1.0
  {
    var trimmed := Trim(entry, AllWhiteSpace);
    if trimmed == [] then None else
      var parts := Split(trimmed, ';');
      var rawLanguage := Trim(parts[0], AllWhiteSpace);
      if rawLanguage == [] then None else
        var language := LowerLetters(Split(rawLanguage, '-')[0]);
        if !IsLanguageCode(language) then None else Some(Preference(language, QualityOf(parts)))
  }

  function Accepted(entries: seq<string>): seq<Preference> {
    if entries == [] then [] else
      var init := Accepted(entries[..|entries| - 1]);
      var last := ParseEntry(entries[|entries| - 1]);
      if last.Some? then init + [last.value] else init
  }

  // ----- which entries are accepted -----

  /**
    The way an accepted entry is written: a code of two or three letters, in any case,
    perhaps subtags after a hyphen, perhaps parameters, and blanks around the tag.
   */
  datatype Form = Form(before: string, code: string, subtags: string, after: string, parameters: string)
  {
    predicate Valid() {
      && AllBlank(before, AllWhiteSpace) && AllBlank(after, AllWhiteSpace)
      && IsLanguageCode(LowerLetters(code))
      && (subtags != [] ==> subtags[0] == '-' && !IsSpace(subtags[|subtags| - 1])) && ';' !in subtags
      && (parameters != [] ==> parameters[0] == ';')
    }

    function Text(): string {
      before + (code + subtags + after) + parameters
    }
  }

  lemma {:induction false} CodeCharacters(code: string)
    requires forall i :: 0 <= i < |LowerLetters(code)| ==> 'a' <= LowerLetters(code)[i] <= 'z'
    ensures |LowerLetters(code)| == |code|
    ensures forall i :: 0 <= i < |code| ==> code[i] != '-' && code[i] != ';' && !IsSpace(code[i])
  {
    if code != [] {
      var rest := LowerLetters(code[1..]);
      forall i | 0 <= i < |rest| ensures 'a' <= rest[i] <= 'z' { assert LowerLetters(code)[i + 1] == rest[i]; }
      assert 'a' <= LowerLetters(code)[0] <= 'z';
      CodeCharacters(code[1..]);
    }
  }

  predicate IsLatinLetter(c: char) {
    'a' <= c <= 'z' || IsCapital(c)
  }

  lemma {:induction false} LowerLettersAt(code: string)
    ensures |LowerLetters(code)| == |code|
    ensures forall i :: 0 <= i < |code| ==>
              LowerLetters(code)[i] == if code[i] == KELVIN_SIGN then 'k' else LowerChar(code[i])
  {
    if code != [] {
      LowerLettersAt(code[1..]);
    }
  }

  /** What counts as a code: two or three letters, in either case, or the Kelvin sign in place of a `k`. */
  lemma {:induction false} IsCodeIff(code: string)
    ensures IsLanguageCode(LowerLetters(code)) <==>
            2 <= |code| <= 3 && forall i :: 0 <= i < |code| ==> IsLatinLetter(code[i]) || code[i] == KELVIN_SIGN
    ensures |LowerLetters(code)| == |code|
    ensures forall i :: 0 <= i < |code| ==>
              || (code[i] == KELVIN_SIGN && LowerLetters(code)[i] == 'k')
              || SameLetter(code[i], LowerLetters(code)[i])
  {
    LowerLettersAt(code);
    forall i | 0 <= i < |code|
      ensures 'a' <= LowerLetters(code)[i] <= 'z' <==> IsLatinLetter(code[i]) || code[i] == KELVIN_SIGN
      ensures code[i] == KELVIN_SIGN || SameLetter(code[i], LowerLetters(code)[i])
    {
      LowerCharIff(code[i], code[i]);
    }
  }

  lemma {:induction false} TagIsTrimmed(f: Form)
    requires f.Valid()
    ensures var tag := f.code + f.subtags;
            IsTrimmed(tag, AllWhiteSpace) && ';' !in tag && ';' !in tag + f.after && Split(tag, '-')[0] == f.code
  {
    var tag := f.code + f.subtags;
    CodeCharacters(f.code);
    assert tag[0] == f.code[0];
    assert tag[|tag| - 1] == if f.subtags == [] then f.code[|f.code| - 1] else f.subtags[|f.subtags| - 1];
    if f.subtags == [] {
      assert tag == f.code;
      SplitWithout(f.code, '-');
    } else {
      assert tag == f.code + ['-'] + f.subtags[1..];
      SplitFirst(f.code, f.subtags[1..], '-');
    }
  }

  /** An entry so written states its code, and quality 1 when it has no parameters. */
  lemma {:induction false} FormIsRead(f: Form)
    requires f.Valid()
    ensures var p := ParseEntry(f.Text());
            p.Some? && p.value.language == LowerLetters(f.code) && (f.parameters == [] ==> p.value.quality == 1.0)
  {
    var tag := f.code + f.subtags;
    TagIsTrimmed(f);
    CodeCharacters(f.code);
    if f.parameters == [] {
      assert f.Text() == f.before + tag + f.after;
      TrimIsUnique(f.before, tag, f.after, AllWhiteSpace);
      SplitWithout(tag, ';');
      TrimOfTrimmed(tag, AllWhiteSpace);
    } else {
      assert f.parameters == [';'] + f.parameters[1..];
      EntrySplits(f, f.parameters[1..]);
      assert [] + tag + f.after == tag + f.after;
      TrimIsUnique([], tag, f.after, AllWhiteSpace);
    }
  }

  /** The tag stands before the first semicolon of an entry, the parameters after it. */
  lemma {:induction false} EntrySplits(f: Form, parameters: string)
    requires f.Valid() && f.parameters == [';'] + parameters
    ensures Split(Trim(f.Text(), AllWhiteSpace), ';')
         == [f.code + f.subtags + f.after] + Split(TrimEnd(parameters, AllWhiteSpace), ';')
  {
    var tag := f.code + f.subtags;
    TagIsTrimmed(f);
    CodeCharacters(f.code);
    var end := EndSplits(parameters, AllWhiteSpace);
    var kept := TrimEnd(parameters, AllWhiteSpace);
    var trimmed := (tag + f.after) + [';'] + kept;
    assert f.Text() == f.before + trimmed + end by {
      assert f.parameters == [';'] + (kept + end);
    }
    TrimEndProperties(parameters, AllWhiteSpace);
    assert trimmed[0] == tag[0] && trimmed[|trimmed| - 1] == if kept == [] then ';' else kept[|kept| - 1];
    TrimIsUnique(f.before, trimmed, end, AllWhiteSpace);
    SplitFirst(tag + f.after, kept, ';');
  }

  /** With parameters, the first of them alone decides the quality. */
  lemma {:induction false} FirstParameterDecides(f: Form, first: string, more: string)
    requires f.Valid() && f.parameters == [';'] + (first + more)
    requires ';' !in first && (more != [] ==> more[0] == ';')
    ensures ParseEntry(f.Text()).Some? && ParseEntry(f.Text()).value.quality == StatedQuality(first)
  {
    FormIsRead(f);
    EntrySplits(f, first + more);
    KeptParameter(first, more);
  }

  /** Blanks at the end of an entry are blanks at the end of its last parameter. */
  lemma {:induction false} KeptParameter(first: string, more: string)
    requires ';' !in first && (more != [] ==> more[0] == ';')
    ensures Trim(Split(TrimEnd(first + more, AllWhiteSpace), ';')[0], AllWhiteSpace) == Trim(first, AllWhiteSpace)
  {
    if more == [] {
      assert first + more == first;
      var kept := TrimEnd(first, AllWhiteSpace);
      var end := EndSplits(first, AllWhiteSpace);
      SplitWithout(kept, ';');
      TrimOfPart(kept, end);
    } else {
      var end := EndSplits(more, AllWhiteSpace);
      var kept := TrimEnd(more, AllWhiteSpace);
      TrimEndProperties(more, AllWhiteSpace);
      assert kept != [] && kept[0] == ';' by { assert more[0] == ';'; }
      assert first + more == (first + kept) + end;
      TrimEndBlank(first + kept, end, AllWhiteSpace);
      assert (first + kept)[|first + kept| - 1] == kept[|kept| - 1];
      assert TrimEnd(first + kept, AllWhiteSpace) == first + kept;
      assert first + kept == first + [';'] + kept[1..];
      SplitFirst(first, kept[1..], ';');
    }
  }

  lemma {:induction false} TrimOfPart(s: string, end: string)
    requires AllBlank(end, AllWhiteSpace)
    ensures Trim(s + end, AllWhiteSpace) == Trim(s, AllWhiteSpace)
  {
    var before, after := TrimSplits(s, AllWhiteSpace);
    TrimIsTrimmed(s, AllWhiteSpace);
    assert s + end == before + Trim(s, AllWhiteSpace) + (after + end);
    TrimIsUnique(before, Trim(s, AllWhiteSpace), after + end, AllWhiteSpace);
  }

  /** How a quality is written: the letter, an equals sign and a number, with blanks around each of them. */
  datatype Spelling = Spelling(before: string, letter: char, gap: string, space: string,
                               whole: string, point: bool, fraction: string, after: string)
  {
    predicate Valid() {
      && AllBlank(before, AllWhiteSpace) && Blank(gap) && Blank(space) && AllBlank(after, AllWhiteSpace)
      && LowerChar(letter) == 'q' && AllDigits(whole) && AllDigits(fraction)
      && if point then fraction != [] else fraction == [] && whole != []
    }

    function Number(): string {
      if point then whole + ['.'] + fraction else whole
    }

    function Core(): string {
      [letter] + gap + ['='] + space + Number()
    }

    function Text(): string {
      before + Core() + after
    }

    function Value(): real
      requires Valid()
    {
      DecimalValue(whole, fraction)
    }
  }

  lemma {:induction false} NumberIsRead(sp: Spelling)
    requires sp.Valid()
    ensures ParseNumber(sp.Number()) == Some(sp.Value())
    ensures sp.Number() != [] && !IsSpace(sp.Number()[0]) && !IsSpace(sp.Number()[|sp.Number()| - 1])
  {
    var number := sp.Number();
    if sp.point {
      NumberWithFraction(sp.whole, sp.fraction);
      assert number[|number| - 1] == sp.fraction[|sp.fraction| - 1];
      assert number[0] == if sp.whole == [] then '.' else sp.whole[0];
    } else {
      SplitWithout(number, '.');
      assert IsDigit(number[0]) && IsDigit(number[|number| - 1]);
    }
  }

  lemma {:induction false} LetterIsNoSpace(c: char)
    requires LowerChar(c) == 'q'
    ensures !IsSpace(c)
  {}

  lemma {:induction false} LetterFollows(letter: char, gap: string, space: string, number: string)
    requires LowerChar(letter) == 'q' && Blank(gap) && Blank(space) && number != [] && !IsSpace(number[0])
    ensures MatchQuality([letter] + gap + ['='] + space + number) == ParseNumber(number)
  {
    var rest := ['='] + (space + number);
    SkipSpaceOver(gap, rest);
    SkipSpaceOver(space, number);
    assert [letter] + gap + ['='] + space + number == [letter] + (gap + rest);
  }

  lemma {:induction false} CoreIsRead(sp: Spelling)
    requires sp.Valid()
    ensures MatchQuality(sp.Core()) == Some(sp.Value())
  {
    NumberIsRead(sp);
    LetterFollows(sp.letter, sp.gap, sp.space, sp.Number());
  }

  lemma {:induction false} SpellingIsTrimmed(sp: Spelling)
    requires sp.Valid()
    ensures Trim(sp.Text(), AllWhiteSpace) == sp.Core()
  {
    var core := sp.Core();
    NumberIsRead(sp);
    LetterIsNoSpace(sp.letter);
    assert core[0] == sp.letter && core[|core| - 1] == sp.Number()[|sp.Number()| - 1];
    TrimIsUnique(sp.before, core, sp.after, AllWhiteSpace);
  }

  lemma {:induction false} ValueIsPositive(sp: Spelling)
    requires sp.Valid()
    ensures sp.Value() >= 0.0
  {}

  /** A quality so written states its value, or 1 when that is above 1. */
  lemma {:induction false} SpellingIsRead(sp: Spelling)
    requires sp.Valid()
    ensures StatedQuality(sp.Text()) == if sp.Value() <= 1.0 then sp.Value() else 1.0
  {
    SpellingIsTrimmed(sp);
    CoreIsRead(sp);
    ValueIsPositive(sp);
  }

  /** Any other first parameter counts as 1. */
  lemma {:induction false} OtherParametersCountAsOne(parameter: string)
    requires forall sp: Spelling :: sp.Valid() ==> sp.Text() != parameter
    ensures StatedQuality(parameter) == 1.0
  {
    if MatchQuality(Trim(parameter, AllWhiteSpace)).Some? {
      var sp := ReadIsSpelled(parameter);
    }
  }

  lemma {:induction false} MatchIsSpelled(s: string) returns (gap: string, space: string, number: string)
    requires MatchQuality(s).Some?
    ensures s == [s[0]] + gap + ['='] + space + number && Blank(gap) && Blank(space)
    ensures ParseNumber(number).Some?
  {
    gap := SkipSpaceSplits(s[1..]);
    var u := SkipSpace(s[1..]);
    space := SkipSpaceSplits(u[1..]);
    number := SkipSpace(u[1..]);
    Rejoin(s, gap, u, space, number);
  }

  lemma {:induction false} Rejoin(s: string, gap: string, u: string, space: string, number: string)
    requires s != [] && s[1..] == gap + u && u != [] && u[0] == '=' && u[1..] == space + number
    ensures s == [s[0]] + gap + ['='] + space + number
  {
    assert u == ['='] + (space + number);
    assert s == [s[0]] + (gap + u);
  }

  lemma {:induction false} ReadIsSpelled(parameter: string) returns (sp: Spelling)
    requires MatchQuality(Trim(parameter, AllWhiteSpace)).Some?
    ensures sp.Valid() && sp.Text() == parameter
  {
    var core := Trim(parameter, AllWhiteSpace);
    var before, after := TrimSplits(parameter, AllWhiteSpace);
    var gap, space, number := MatchIsSpelled(core);
    var whole, point, fraction := NumberIsSpelled(number);
    sp := Spelling(before, core[0], gap, space, whole, point, fraction, after);
    assert sp.Number() == number;
  }

  lemma {:induction false} NumberIsSpelled(s: string) returns (whole: string, point: bool, fraction: string)
    requires ParseNumber(s).Some?
    ensures AllDigits(whole) && AllDigits(fraction) && if point then fraction != [] else fraction == [] && whole != []
    ensures s == if point then whole + ['.'] + fraction else whole
  {
    var rest := SplitHead(s, '.');
    whole := Split(s, '.')[0];
    if rest == [] {
      point, fraction := false, [];
      SplitWithout(s, '.');
    } else {
      var tail := SplitHead(rest[1..], '.');
      point, fraction := true, Split(rest[1..], '.')[0];
      assert s == whole + ['.'] + rest[1..];
      SplitFirst(whole, rest[1..], '.');
      if tail != [] {
        assert rest[1..] == fraction + ['.'] + tail[1..];
        SplitFirst(fraction, tail[1..], '.');
      }
    }
  }

  lemma {:induction false} HeadHasForm(head: string)
      returns (before: string, code: string, subtags: string, after: string)
    requires ';' !in head
    ensures head == before + (code + subtags) + after && code == Split(Trim(head, AllWhiteSpace), '-')[0]
    ensures AllBlank(before, AllWhiteSpace) && AllBlank(after, AllWhiteSpace) && ';' !in subtags
    ensures subtags != [] ==> subtags[0] == '-' && !IsSpace(subtags[|subtags| - 1])
  {
    var tag := Trim(head, AllWhiteSpace);
    before, after := TrimSplits(head, AllWhiteSpace);
    TrimIsTrimmed(head, AllWhiteSpace);
    subtags := SplitHead(tag, '-');
    code := Split(tag, '-')[0];
    assert forall i :: 0 <= i < |subtags| ==> subtags[i] == tag[|code| + i] == head[|before| + |code| + i];
  }

  /** And no entry is accepted that is not so written. */
  lemma {:induction false} AcceptedEntryHasForm(entry: string) returns (f: Form)
    requires ParseEntry(entry).Some?
    ensures f.Valid() && f.Text() == entry && LowerLetters(f.code) == ParseEntry(entry).value.language
  {
    var trimmed := Trim(entry, AllWhiteSpace);
    var start, end := TrimSplits(entry, AllWhiteSpace);
    var rest := SplitHead(trimmed, ';');
    var before, code, subtags, after := HeadHasForm(Split(trimmed, ';')[0]);
    if rest == [] {
      f := Form(start + before, code, subtags, after + end, []);
    } else {
      f := Form(start + before, code, subtags, after, rest + end);
    }
    Regroup(start, before, code + subtags, after, rest, end);
  }

  lemma {:induction false} Regroup(start: string, before: string, tag: string, after: string, rest: string, end: string)
    ensures start + ((before + tag + after) + rest) + end == (start + before) + (tag + after) + (rest + end)
    ensures start + ((before + tag + after) + []) + end == (start + before) + (tag + (after + end)) + []
  {}

  // ----- what the digits of a quality mean -----

  lemma {:induction false} DigitsStep(s: string, n: nat)
    requires AllDigits(s) && n < 10
    ensures AllDigits(s + [Digit(n)]) && DigitsValue(s + [Digit(n)]) == 10 * DigitsValue(s) + n
  {
    assert (s + [Digit(n)])[..|s|] == s;
  }

  /** Digits written before others count for as many powers of ten as there are others. */
  lemma {:induction false} DigitsAppend(s: string, t: string)
    requires AllDigits(s) && AllDigits(t)
    ensures AllDigits(s + t) && DigitsValue(s + t) == DigitsValue(s) * Pow10(|t|) + DigitsValue(t)
  {
    if t == [] {
      assert s + t == s;
    } else {
      var init := t[..|t| - 1];
      DigitsAppend(s, init);
      assert (s + t)[..|s + t| - 1] == s + init;
      TimesTen(DigitsValue(s), Pow10(|init|));
    }
  }

  lemma {:induction false} TimesTen(a: nat, p: nat)
    ensures 10 * (a * p) == a * (10 * p)
  {}

  lemma {:induction false} OneAndZeros(n: nat)
    ensures PrintDigits(Pow10(n), n + 1) == ['1'] + PrintDigits(0, n)
  {
    if n == 0 {
      assert PrintDigits(0, 0) == [];
    } else {
      OneAndZeros(n - 1);
      var p := Pow10(n - 1);
      assert Pow10(n) / 10 == p && Pow10(n) % 10 == 0;
      assert PrintDigits(Pow10(n), n + 1) == PrintDigits(p, n) + [Digit(0)];
    }
  }

  /** The powers of ten are written as a one and zeros. */
  lemma {:induction false} PowerIsWritten(n: nat)
    ensures AllDigits(['1'] + PrintDigits(0, n)) && DigitsValue(['1'] + PrintDigits(0, n)) == Pow10(n)
  {
    OneAndZeros(n);
    PrintedDigitsRead(Pow10(n), n + 1);
  }

  lemma {:induction false} DigitsAreBelow(s: string)
    requires AllDigits(s)
    ensures DigitsValue(s) < Pow10(|s|)
  {
    if s != [] {
      DigitsAreBelow(s[..|s| - 1]);
    }
  }

  /** `v` is `n` units, of which `p` make one. */
  predicate IsQuotient(v: real, n: nat, p: nat) {
    v * p as real == n as real
  }

  lemma {:induction false} ScaleDecimal(v: real, whole: nat, frac: nat, p: nat, all: nat)
    requires p > 0 && v == whole as real + frac as real / p as real && all == whole * p + frac
    ensures IsQuotient(v, all, p)
  {
    assert (frac as real / p as real) * p as real == frac as real;
    assert whole as real * p as real == (whole * p) as real;
  }

  /** A decimal, times the power of ten that clears its fraction, is the number of all its digits. */
  lemma {:induction false} DecimalLaw(whole: string, frac: string)
    requires AllDigits(whole) && AllDigits(frac)
    ensures AllDigits(whole + frac)
    ensures IsQuotient(DecimalValue(whole, frac), DigitsValue(whole + frac), Pow10(|frac|))
  {
    DigitsAppend(whole, frac);
    ScaleDecimal(DecimalValue(whole, frac), DigitsValue(whole), DigitsValue(frac), Pow10(|frac|),
                 DigitsValue(whole + frac));
  }

  /** The number of a quality: all its digits, over the power of ten that its fraction has. 1 when that is above 1. */
  lemma {:induction false} SpellingStates(sp: Spelling)
    requires sp.Valid()
    ensures AllDigits(sp.whole + sp.fraction)
    ensures var n, p := DigitsValue(sp.whole + sp.fraction), Pow10(|sp.fraction|);
            IsQuotient(StatedQuality(sp.Text()), if n <= p then n else p, p)
  {
    SpellingIsRead(sp);
    DecimalLaw(sp.whole, sp.fraction);
    ClampQuotient(sp.Value(), DigitsValue(sp.whole + sp.fraction), Pow10(|sp.fraction|));
  }

  lemma {:induction false} ClampQuotient(v: real, n: nat, p: nat)
    requires p > 0 && IsQuotient(v, n, p)
    ensures v <= 1.0 <==> n <= p
    ensures IsQuotient(1.0, p, p)
  {
    Products(v, p as real);
    Quotient(v, n, p);
  }

  lemma {:induction false} Quotient(v: real, k: nat, p: nat)
    requires p > 0 && IsQuotient(v, k, p)
    ensures v == k as real / p as real
    ensures k <= p ==> 0.0 <= v <= 1.0
  {
    DivisionUndone(v, p as real);
    Products(v, p as real);
  }

  lemma {:induction false} DivisionUndone(v: real, q: real)
    requires q > 0.0
    ensures v * q / q == v
  {}

  lemma {:induction false} Products(v: real, q: real)
    requires q > 0.0
    ensures v < 0.0 ==> v * q < 0.0
    ensures v > 1.0 ==> v * q > q
  {
    if v > 1.0 {
      assert (v - 1.0) * q > 0.0;
    }
  }

  /** The qualities of section 5.3.1 of RFC 7231, with any number of digits after the point. */
  predicate IsQvalue(whole: string, point: bool, fraction: string) {
    && AllDigits(fraction) && (!point ==> fraction == [])
    && (whole == ['0'] || (whole == ['1'] && forall i :: 0 <= i < |fraction| ==> fraction[i] == '0'))
  }

  lemma {:induction false} ZerosCountNothing(s: string)
    requires forall i :: 0 <= i < |s| ==> s[i] == '0'
    ensures AllDigits(s) && DigitsValue(s) == 0
  {
    if s != [] {
      ZerosCountNothing(s[..|s| - 1]);
    }
  }

  lemma {:induction false} OneDigit(s: string)
    requires |s| == 1 && IsDigit(s[0])
    ensures AllDigits(s) && DigitsValue(s) == s[0] as int - '0' as int
  {
    assert s[..0] == [];
  }

  lemma {:induction false} QvalueIsInRange(whole: string, point: bool, fraction: string)
    requires IsQvalue(whole, point, fraction)
    ensures AllDigits(whole) && 0.0 <= DecimalValue(whole, fraction) <= 1.0
    ensures fraction == [] ==> DecimalValue(whole, fraction) == if whole == ['1'] then 1.0 else 0.0
  {
    var p := Pow10(|fraction|);
    OneDigit(whole);
    DigitsAreBelow(fraction);
    if whole == ['1'] {
      ZerosCountNothing(fraction);
    }
    var w, f := DigitsValue(whole), DigitsValue(fraction);
    assert w * p + f <= p;
    ScaleDecimal(DecimalValue(whole, fraction), w, f, p, w * p + f);
    Quotient(DecimalValue(whole, fraction), w * p + f, p);
  }

  lemma {:induction false} PointNeedsDigits(whole: string)
    requires AllDigits(whole)
    ensures StatedQuality(['q', '='] + (whole + ['.'])) == 1.0
  {
    var number := whole + ['.'];
    assert number == whole + ['.'] + [];
    SplitFirst(whole, [], '.');
    assert Split(number, '.') == [whole, []];
    assert number[0] == if whole == [] then '.' else whole[0];
    MatchOfNumber(number);
    TrimOfTrimmed(['q', '='] + number, AllWhiteSpace);
  }

  lemma {:induction false} PlainSpelling(whole: string, point: bool, fraction: string)
    requires AllDigits(whole) && AllDigits(fraction) && DecimalValue(whole, fraction) <= 1.0
    requires if point then fraction != [] else fraction == [] && whole != []
    ensures StatedQuality(['q', '='] + QvalueText(whole, point, fraction)) == DecimalValue(whole, fraction)
  {
    var sp := Spelling([], 'q', [], [], whole, point, fraction, []);
    SpellingIsRead(sp);
    NoBlanks(QvalueText(whole, point, fraction));
  }

  lemma {:induction false} NoBlanks(number: string)
    ensures [] + (['q'] + [] + ['='] + [] + number) + [] == ['q', '='] + number
  {}

  function QvalueText(whole: string, point: bool, fraction: string): string {
    if point then whole + ['.'] + fraction else whole
  }

  /**
    A quality of the standard's grammar counts as the number that it states, except for
    `0.`: a zero with a point and no digits counts as 1.
   */
  lemma {:induction false} QvalueIsReadIff(whole: string, point: bool, fraction: string)
    requires IsQvalue(whole, point, fraction)
    ensures AllDigits(whole)
    ensures StatedQuality(['q', '='] + QvalueText(whole, point, fraction)) == DecimalValue(whole, fraction)
            <==> QvalueText(whole, point, fraction) != ['0', '.']
  {
    QvalueIsInRange(whole, point, fraction);
    if point && fraction == [] {
      assert QvalueText(whole, point, fraction) == whole + ['.'];
      PointNeedsDigits(whole);
    } else {
      PlainSpelling(whole, point, fraction);
      assert point ==> |QvalueText(whole, point, fraction)| > 2;
    }
  }

  // ----- sorting -----

  predicate Descending(s: seq<Preference>) {
    forall i, j :: 0 <= i < j < |s| ==> s[i].quality >= s[j].quality
  }

  /** The entries of one quality, in their order. */
  function WithQuality(s: seq<Preference>, q: real): seq<Preference> {
    if s == [] then [] else (if s[0].quality == q then [s[0]] else []) + WithQuality(s[1..], q)
  }

  /** A rearrangement that moves no entry past another of the same quality. */
  ghost predicate StableRearrangement(s: seq<Preference>, t: seq<Preference>) {
    forall q :: WithQuality(s, q) == WithQuality(t, q)
  }

  function Insert(p: Preference, sorted: seq<Preference>): seq<Preference> {
    if sorted == [] || p.quality >= sorted[0].quality then [p] + sorted else [sorted[0]] + Insert(p, sorted[1..])
  }

  function Sort(s: seq<Preference>): seq<Preference> {
    if s == [] then [] else Insert(s[0], Sort(s[1..]))
  }

  lemma {:induction false} InsertSorts(p: Preference, sorted: seq<Preference>)
    requires Descending(sorted)
    ensures Descending(Insert(p, sorted))
    ensures forall x :: x in Insert(p, sorted) <==> x == p || x in sorted
  {
    if sorted != [] && p.quality < sorted[0].quality {
      InsertSorts(p, sorted[1..]);
      var rest := Insert(p, sorted[1..]);
      assert forall i :: 0 <= i < |rest| ==> rest[i] in rest;
      assert sorted == [sorted[0]] + sorted[1..];
    }
  }

  lemma {:induction false} InsertIsStable(p: Preference, sorted: seq<Preference>, q: real)
    ensures WithQuality(Insert(p, sorted), q) == WithQuality([p] + sorted, q)
  {
    assert ([p] + sorted)[1..] == sorted;
    if sorted != [] && p.quality < sorted[0].quality {
      InsertIsStable(p, sorted[1..], q);
      assert ([p] + sorted[1..])[1..] == sorted[1..];
    }
  }

  /** The library's sort by descending quality: sorted, and stable. */
  lemma {:induction false} SortIsStable(s: seq<Preference>)
    ensures Descending(Sort(s)) && StableRearrangement(Sort(s), s)
  {
    if s != [] {
      SortIsStable(s[1..]);
      InsertSorts(s[0], Sort(s[1..]));
      forall q ensures WithQuality(Sort(s), q) == WithQuality(s, q) {
        InsertIsStable(s[0], Sort(s[1..]), q);
        assert ([s[0]] + Sort(s[1..]))[1..] == Sort(s[1..]);
      }
    }
  }

  lemma {:induction false} FirstOfQuality(s: seq<Preference>, x: Preference)
    requires x in WithQuality(s, x.quality)
    ensures x in s
  {
    if s != [] && s[0] != x {
      FirstOfQuality(s[1..], x);
    }
  }

  /** There is only one stable, descending arrangement of a list. */
  lemma {:induction false} StableArrangementIsUnique(s: seq<Preference>, t: seq<Preference>)
    requires Descending(s) && Descending(t) && StableRearrangement(s, t)
    ensures s == t
    decreases |s|
  {
    if s != [] {
      assert WithQuality(s, s[0].quality) == WithQuality(t, s[0].quality);
      FirstOfQuality(t, s[0]);
      assert WithQuality(s, t[0].quality) == WithQuality(t, t[0].quality);
      FirstOfQuality(s, t[0]);
      assert s[0].quality == t[0].quality;
      assert s[0] == WithQuality(s, s[0].quality)[0] == WithQuality(t, s[0].quality)[0] == t[0];
      forall q ensures WithQuality(s[1..], q) == WithQuality(t[1..], q) {
        assert WithQuality(s, q) == WithQuality(t, q);
        assert WithQuality(s[1..], q) == WithQuality(s, q)[if s[0].quality == q then 1 else 0..];
      }
      StableArrangementIsUnique(s[1..], t[1..]);
    }
  }

  // ----- the parser -----

  /** `header` is None for null and undefined. There is one such list: `StableArrangementIsUnique`. */
  ghost predicate States(header: Option<string>, preferences: seq<Preference>) {
    if header.None? || Trim(header.value, AllWhiteSpace) == [] then preferences == []
    else Descending(preferences) && StableRearrangement(preferences, Accepted(Split(header.value, ',')))
  }

  method ParseAcceptLanguage(header: Option<string>) returns (preferences: seq<Preference>)
    ensures States(header, preferences)
    ensures forall p :: p in preferences ==> IsLanguageCode(p.language) && 0.0 <= p.quality <= 1.0
  {
    preferences := [];
    if header.None? || Trim(header.value, AllWhiteSpace) == [] {
      return;
    }
    var entries := Split(header.value, ',');
    for i := 0 to |entries|
      invariant preferences == Accepted(entries[..i])
      invariant forall p :: p in preferences ==> IsLanguageCode(p.language) && 0.0 <= p.quality <= 1.0
    {
      assert entries[..i + 1][..i] == entries[..i];
      var parsed := ParseEntry(entries[i]);
      if parsed.None? {
        continue;
      }
      preferences := preferences + [parsed.value];
    }
    assert entries[..|entries|] == entries;
    SortIsStable(preferences);
    SortKeepsMembers(preferences);
    preferences := Sort(preferences);
  }

  lemma {:induction false} SortKeepsMembers(s: seq<Preference>)
    ensures forall x :: x in Sort(s) <==> x in s
  {
    if s != [] {
      SortKeepsMembers(s[1..]);
      SortIsStable(s[1..]);
      InsertSorts(s[0], Sort(s[1..]));
    }
  }

  // ----- round trip -----

  /** A language with a quality: so many tenths, hundredths, thousandths, as the number of digits says. */
  datatype Entry = Entry(language: string, units: nat, digits: nat)

  predicate WellFormed(e: Entry) {
    IsLanguageCode(e.language) && e.units <= Pow10(e.digits)
  }

  function Digit(n: nat): char
    requires n < 10
  {
    (n + '0' as int) as char
  }

  /** The last `n` digits of a number. */
  function PrintDigits(k: nat, n: nat): (s: string)
    ensures |s| == n
  {
    if n == 0 then [] else PrintDigits(k / 10, n - 1) + [Digit(k % 10)]
  }

  lemma {:induction false} PrintedDigitsRead(k: nat, n: nat)
    ensures AllDigits(PrintDigits(k, n))
    ensures k < Pow10(n) ==> DigitsValue(PrintDigits(k, n)) == k
  {
    if n > 0 {
      PrintedDigitsRead(k / 10, n - 1);
      DigitsStep(PrintDigits(k / 10, n - 1), k % 10);
    }
  }

  /** `1` or `0`, `0.d`, `0.dd` or `0.ddd`, and so on: a point only when digits follow. */
  function PrintQuality(units: nat, digits: nat): string {
    var all := PrintDigits(units, digits + 1);
    if digits == 0 then all else all[..1] + ['.'] + all[1..]
  }

  function QualityParameter(units: nat, digits: nat): string {
    ['q', '='] + PrintQuality(units, digits)
  }

  function PrintEntry(e: Entry): string {
    e.language + [';'] + QualityParameter(e.units, e.digits)
  }

  function PrintEntries(es: seq<Entry>): (parts: seq<string>)
    ensures |parts| == |es|
  {
    if es == [] then [] else PrintEntries(es[..|es| - 1]) + [PrintEntry(es[|es| - 1])]
  }

  function Meaning(e: Entry): Preference {
    Preference(e.language, e.units as real / Pow10(e.digits) as real)
  }

  lemma {:induction false} NumberWithFraction(whole: string, frac: string)
    requires AllDigits(whole) && AllDigits(frac) && frac != []
    ensures ParseNumber(whole + ['.'] + frac) == Some(DecimalValue(whole, frac))
  {
    SplitFirst(whole, frac, '.');
    SplitWithout(frac, '.');
    assert Split(whole + ['.'] + frac, '.') == [whole, frac];
  }

  /** A printed quality is read as the number of units that was printed. */
  lemma {:induction false} PrintedQualityIsRead(units: nat, digits: nat)
    requires units <= Pow10(digits)
    ensures ParseNumber(PrintQuality(units, digits)) == Some(units as real / Pow10(digits) as real)
    ensures 0.0 <= units as real / Pow10(digits) as real <= 1.0
  {
    var all := PrintDigits(units, digits + 1);
    PrintedDigitsRead(units, digits + 1);
    PrintedValue(all, units, digits);
    if digits == 0 {
      assert all[..1] == all && all[1..] == [];
      SplitWithout(all, '.');
    } else {
      NumberWithFraction(all[..1], all[1..]);
    }
  }

  lemma {:induction false} PrintedValue(all: string, units: nat, digits: nat)
    requires |all| == digits + 1 && AllDigits(all) && DigitsValue(all) == units <= Pow10(digits)
    ensures DecimalValue(all[..1], all[1..]) == units as real / Pow10(digits) as real
    ensures 0.0 <= units as real / Pow10(digits) as real <= 1.0
  {
    assert all[..1] + all[1..] == all;
    DecimalLaw(all[..1], all[1..]);
    Quotient(DecimalValue(all[..1], all[1..]), units, Pow10(digits));
  }

  lemma {:induction false} MatchOfNumber(number: string)
    requires number != [] && !IsSpace(number[0])
    ensures MatchQuality(['q', '='] + number) == ParseNumber(number)
  {
    var s := ['q', '='] + number;
    assert s[1..] == ['='] + number && (['='] + number)[1..] == number;
  }

  lemma {:induction false} QualityHasNoSeparator(number: string)
    requires forall i :: 0 <= i < |number| ==> IsDigit(number[i]) || number[i] == '.'
    ensures ';' !in ['q', '='] + number && ',' !in ['q', '='] + number
  {}

  lemma {:induction false} QualityText(number: string)
    requires number != [] && IsDigit(number[0]) && IsDigit(number[|number| - 1])
    ensures Trim(['q', '='] + number, AllWhiteSpace) == ['q', '='] + number
  {
    TrimOfTrimmed(['q', '='] + number, AllWhiteSpace);
  }

  lemma {:induction false} PrintedCharacters(units: nat, digits: nat)
    ensures var number := PrintQuality(units, digits);
            && number != [] && IsDigit(number[0]) && IsDigit(number[|number| - 1])
            && forall i :: 0 <= i < |number| ==> IsDigit(number[i]) || number[i] == '.'
  {
    PrintedDigitsRead(units, digits + 1);
  }

  lemma {:induction false} PrintedQuality(units: nat, digits: nat)
    requires units <= Pow10(digits)
    ensures var quality := QualityParameter(units, digits);
            Trim(quality, AllWhiteSpace) == quality && ';' !in quality && ',' !in quality
            && MatchQuality(quality) == Some(units as real / Pow10(digits) as real)
  {
    var number := PrintQuality(units, digits);
    PrintedCharacters(units, digits);
    PrintedQualityIsRead(units, digits);
    QualityHasNoSeparator(number);
    QualityText(number);
    MatchOfNumber(number);
  }

  lemma {:induction false} CodeStaysLower(s: string)
    requires forall i :: 0 <= i < |s| ==> 'a' <= s[i] <= 'z'
    ensures LowerLetters(s) == s
  {
    if s != [] {
      CodeStaysLower(s[1..]);
    }
  }

  lemma {:induction false} CodeParses(code: string)
    requires IsLanguageCode(code)
    ensures Trim(code, AllWhiteSpace) == code && LowerLetters(Split(code, '-')[0]) == code && ';' !in code
            && ',' !in code
  {
    TrimOfTrimmed(code, AllWhiteSpace);
    SplitWithout(code, '-');
    CodeStaysLower(code);
  }

  lemma {:induction false} EntryParses(language: string, quality: string)
    requires IsLanguageCode(language) && quality != [] && ';' !in quality
    requires Trim(quality, AllWhiteSpace) == quality
    ensures ParseEntry(language + [';'] + quality) == Some(Preference(language, QualityOf([language, quality])))
  {
    var printed := language + [';'] + quality;
    CodeParses(language);
    TrimOfTrimmed(quality, AllWhiteSpace);
    assert printed[0] == language[0] && printed[|printed| - 1] == quality[|quality| - 1];
    TrimOfTrimmed(printed, AllWhiteSpace);
    SplitFirst(language, quality, ';');
    SplitWithout(quality, ';');
    assert Split(printed, ';') == [language, quality];
  }

  lemma {:induction false} QualityParses(language: string, quality: string, v: real)
    requires IsLanguageCode(language) && quality != [] && ';' !in quality
    requires Trim(quality, AllWhiteSpace) == quality
    requires MatchQuality(quality).Some? && MatchQuality(quality).value == v && 0.0 <= v <= 1.0
    ensures ParseEntry(language + [';'] + quality) == Some(Preference(language, v))
  {
    EntryParses(language, quality);
  }

  /** Round trip: a code printed with a quality of any number of digits is read as that code and that quality. */
  lemma {:induction false} EntryRoundTrip(e: Entry)
    requires WellFormed(e)
    ensures ParseEntry(PrintEntry(e)) == Some(Meaning(e))
  {
    PrintedQuality(e.units, e.digits);
    PrintedQualityIsRead(e.units, e.digits);
    QualityParses(e.language, QualityParameter(e.units, e.digits), Meaning(e).quality);
  }

  function Meanings(es: seq<Entry>): seq<Preference> {
    if es == [] then [] else Meanings(es[..|es| - 1]) + [Meaning(es[|es| - 1])]
  }

  lemma {:induction false} MeaningsAt(es: seq<Entry>)
    ensures |Meanings(es)| == |es| && forall i :: 0 <= i < |es| ==> Meanings(es)[i] == Meaning(es[i])
  {
    if es != [] {
      MeaningsAt(es[..|es| - 1]);
    }
  }

  predicate IsPart(part: string) {
    part != [] && ',' !in part && !IsSpace(part[0])
  }

  lemma {:induction false} PrintedParts(es: seq<Entry>)
    requires forall i :: 0 <= i < |es| ==> WellFormed(es[i])
    ensures forall i :: 0 <= i < |es| ==> IsPart(PrintEntries(es)[i])
  {
    if es != [] {
      PrintedParts(es[..|es| - 1]);
      PrintedEntryText(es[|es| - 1]);
    }
  }

  lemma {:induction false} EntriesRoundTrip(es: seq<Entry>)
    requires forall i :: 0 <= i < |es| ==> WellFormed(es[i])
    ensures Accepted(PrintEntries(es)) == Meanings(es)
  {
    if es != [] {
      var init, last := es[..|es| - 1], es[|es| - 1];
      EntriesRoundTrip(init);
      EntryIsAccepted(PrintEntries(init), last);
    }
  }

  lemma {:induction false} EntryIsAccepted(entries: seq<string>, e: Entry)
    requires WellFormed(e)
    ensures Accepted(entries + [PrintEntry(e)]) == Accepted(entries) + [Meaning(e)]
  {
    EntryRoundTrip(e);
  }

  function PrintHeader(es: seq<Entry>): string {
    Join(PrintEntries(es), ',')
  }

  /** Round trip: what parsing returns for the printed form of a well-formed, descending list is that list. */
  lemma {:induction false} HeaderRoundTrip(es: seq<Entry>, preferences: seq<Preference>)
    requires forall i :: 0 <= i < |es| ==> WellFormed(es[i])
    requires forall i, j :: 0 <= i < j < |es| ==> Meaning(es[i]).quality >= Meaning(es[j]).quality
    requires States(Some(PrintHeader(es)), preferences)
    ensures preferences == Meanings(es)
  {
    if es != [] {
      EntriesRoundTrip(es);
      PrintedHeaderParts(es);
      MeaningsDescend(es);
      StableArrangementIsUnique(preferences, Meanings(es));
    }
  }

  lemma {:induction false} MeaningsDescend(es: seq<Entry>)
    requires forall i, j :: 0 <= i < j < |es| ==> Meaning(es[i]).quality >= Meaning(es[j]).quality
    ensures Descending(Meanings(es))
  {
    MeaningsAt(es);
    forall i, j | 0 <= i < j < |es| ensures Meanings(es)[i].quality >= Meanings(es)[j].quality {}
  }

  lemma {:induction false} PrintedHeaderParts(es: seq<Entry>)
    requires es != [] && forall i :: 0 <= i < |es| ==> WellFormed(es[i])
    ensures Split(PrintHeader(es), ',') == PrintEntries(es)
    ensures Trim(PrintHeader(es), AllWhiteSpace) != []
  {
    var parts := PrintEntries(es);
    PrintedParts(es);
    SplitJoin(parts, ',');
    JoinBegins(parts);
    StartsWithText(Join(parts, ','));
  }

  lemma {:induction false} PrintedEntryText(e: Entry)
    requires WellFormed(e)
    ensures IsPart(PrintEntry(e))
  {
    PrintedQuality(e.units, e.digits);
    assert PrintEntry(e)[0] == e.language[0];
  }

  lemma {:induction false} JoinBegins(parts: seq<string>)
    requires parts != [] && parts[0] != []
    ensures Join(parts, ',') != [] && Join(parts, ',')[0] == parts[0][0]
  {}

  lemma {:induction false} StartsWithText(s: string)
    requires s != [] && !IsSpace(s[0])
    ensures Trim(s, AllWhiteSpace) != []
  {
    var before, after := TrimSplits(s, AllWhiteSpace);
  }
}
