/**
  The `i18n:` display-name tokens: parsed by `useNotificationDisplay.ts` on the
  client, printed by `anonymize-flag-actor.ts` on the server for the hosts that
  `ap-actor-uri.ts` lets through.
 */
module TokenGrammar {
  import opened Wrappers
  import opened Text

  datatype Token = Token(name: string, params: map<string, string>)

  /** The position of the first occurrence, or None. */
  function IndexOf(s: string, c: char): (at: Option<nat>)
    ensures at.Some? ==> at.value < |s| && s[at.value] == c && c !in s[..at.value]
    ensures at.None? <==> c !in s
  {
    if s == [] then None
    else if s[0] == c then Some(0)
    else
      var rest := IndexOf(s[1..], c);
      if rest.None? then None else
        assert s[..rest.value + 1] == [s[0]] + s[1..][..rest.value];
        Some(rest.value + 1)
  }

  // ----- parsing -----

  /** Assigning a string to `__proto__` of a plain object leaves the object unchanged. */
  function SetParam(params: map<string, string>, key: string, value: string): map<string, string> {
    if key == "__proto__" then params else params[key := value]
  }

  /** A pair needs a colon, with a key in front of it. */
  predicate Malformed(pair: string) {
    ':' !in pair || pair[0] == ':'
  }

  function AddPair(params: map<string, string>, pair: string): map<string, string>
    requires !Malformed(pair)
  {
    var sep := IndexOf(pair, ':').value;
    SetParam(params, pair[..sep], pair[sep + 1..])
  }

  function ParsePairs(pairs: seq<string>): Option<map<string, string>> {
    if pairs == [] then Some(map[]) else
      var before := ParsePairs(pairs[..|pairs| - 1]);
      var last := pairs[|pairs| - 1];
      if before.None? || Malformed(last) then None else Some(AddPair(before.value, last))
  }

  predicate HasBlock(body: string) {
    '{' in body
  }

  /** What stands between the first brace and the final character. */
  function BlockOf(body: string): string
    requires HasBlock(body) && body[|body| - 1] == '}'
  {
    body[IndexOf(body, '{').value + 1..|body| - 1]
  }

  function Parse(body: string): Option<Token> {
    if !HasBlock(body) then Some(Token(body, map[]))
    else if body[|body| - 1] != '}' then None
    else
      var name := body[..IndexOf(body, '{').value];
      var block := BlockOf(body);
      var params := if block == [] then Some(map[]) else ParsePairs(Split(block, ','));
      if params.None? then None else Some(Token(name, params.value))
  }

  method ParseTokenBody(body: string) returns (token: Option<Token>)
    ensures token == Parse(body)
  {
    var paramsStart := IndexOf(body, '{');
    if paramsStart.None? {
      return Some(Token(body, map[]));
    }
    if body[|body| - 1] != '}' {
      return None;
    }
    var name := body[..paramsStart.value];
    var paramsBody := body[paramsStart.value + 1..|body| - 1];
    var params: map<string, string> := map[];
    if |paramsBody| > 0 {
      var pairs := Split(paramsBody, ',');
      for i := 0 to |pairs|
        invariant ParsePairs(pairs[..i]) == Some(params)
      {
        assert pairs[..i + 1][..i] == pairs[..i];
        var pair := pairs[i];
        var sep := IndexOf(pair, ':');
        if sep.None? || sep.value == 0 {
          MalformedPairSpoils(pairs, i);
          return None;
        }
        params := SetParam(params, pair[..sep.value], pair[sep.value + 1..]);
      }
      assert pairs[..|pairs|] == pairs;
    }
    return Some(Token(name, params));
  }

  lemma {:induction false} ParsePairsIff(pairs: seq<string>)
    ensures ParsePairs(pairs).None? <==> exists i :: 0 <= i < |pairs| && Malformed(pairs[i])
  {
    if pairs != [] {
      var init := pairs[..|pairs| - 1];
      ParsePairsIff(init);
      assert forall i :: 0 <= i < |init| ==> init[i] == pairs[i];
    }
  }

  lemma {:induction false} MalformedPairSpoils(pairs: seq<string>, i: nat)
    requires i < |pairs| && Malformed(pairs[i])
    ensures ParsePairs(pairs).None?
  {
    ParsePairsIff(pairs);
  }

  /** Parsing fails exactly on a block that is not closed or holds a malformed pair. */
  lemma {:induction false} ParseFailsIff(body: string)
    ensures Parse(body).None? <==>
            HasBlock(body) && (body[|body| - 1] != '}' ||
                               (BlockOf(body) != [] &&
                                exists pair :: pair in Split(BlockOf(body), ',') && Malformed(pair)))
  {
    if HasBlock(body) && body[|body| - 1] == '}' {
      ParsePairsIff(Split(BlockOf(body), ','));
    }
  }

  // ----- printing, and the round trip -----

  datatype Param = Param(key: string, value: string)

  predicate Printable(p: Param) {
    p.key != [] && ':' !in p.key && ',' !in p.key && ',' !in p.value
  }

  function PrintParam(p: Param): string {
    p.key + [':'] + p.value
  }

  function PrintParams(ps: seq<Param>): (pairs: seq<string>)
    ensures |pairs| == |ps|
  {
    if ps == [] then [] else PrintParams(ps[..|ps| - 1]) + [PrintParam(ps[|ps| - 1])]
  }

  function Print(name: string, ps: seq<Param>): string {
    if ps == [] then name else Body(name, Join(PrintParams(ps), ','))
  }

  /** The parameters as a map; of a repeated key the last value counts. */
  function ToMap(ps: seq<Param>): map<string, string> {
    if ps == [] then map[] else
      var last := ps[|ps| - 1];
      ToMap(ps[..|ps| - 1])[last.key := last.value]
  }

  lemma {:induction false} IndexOfAfter(prefix: string, c: char, rest: string)
    requires c !in prefix
    ensures IndexOf(prefix + [c] + rest, c) == Some(|prefix|)
  {
    if prefix != [] {
      assert (prefix + [c] + rest)[1..] == prefix[1..] + [c] + rest;
      IndexOfAfter(prefix[1..], c, rest);
    }
  }

  lemma {:induction false} PairRoundTrip(p: Param, params: map<string, string>)
    requires Printable(p)
    ensures !Malformed(PrintParam(p)) && AddPair(params, PrintParam(p)) == SetParam(params, p.key, p.value)
    ensures ',' !in PrintParam(p) && PrintParam(p) != []
  {
    var pair := PrintParam(p);
    IndexOfAfter(p.key, ':', p.value);
    assert pair[..|p.key|] == p.key && pair[|p.key| + 1..] == p.value;
    assert pair[0] == p.key[0] && p.key[0] != ':';
  }

  /** Dropping `__proto__` afterwards is never having stored it. */
  lemma {:induction false} DropProto(params: map<string, string>, key: string, value: string)
    ensures SetParam(params - {"__proto__"}, key, value) == params[key := value] - {"__proto__"}
  {}

  lemma {:induction false} PairsRoundTrip(ps: seq<Param>)
    requires forall i :: 0 <= i < |ps| ==> Printable(ps[i])
    ensures ParsePairs(PrintParams(ps)) == Some(ToMap(ps) - {"__proto__"})
    ensures forall i :: 0 <= i < |ps| ==> ',' !in PrintParams(ps)[i] && PrintParams(ps)[i] != []
  {
    if ps == [] {
      assert ToMap(ps) - {"__proto__"} == ToMap(ps);
    } else {
      var init, last := ps[..|ps| - 1], ps[|ps| - 1];
      PairsRoundTrip(init);
      PairRoundTrip(last, ToMap(init) - {"__proto__"});
      DropProto(ToMap(init), last.key, last.value);
      assert PrintParams(ps)[..|ps| - 1] == PrintParams(init);
    }
  }

  function Body(name: string, block: string): string {
    name + ['{'] + (block + ['}'])
  }

  lemma {:induction false} BlockIsFound(name: string, block: string)
    requires '{' !in name
    ensures var body := Body(name, block);
            && HasBlock(body) && body[|body| - 1] == '}'
            && IndexOf(body, '{').value == |name| && BlockOf(body) == block && body[..|name|] == name
  {
    IndexOfAfter(name, '{', block + ['}']);
    assert Body(name, block)[|name|] == '{';
    assert Body(name, block)[|name| + 1..|name| + 1 + |block|] == block;
  }

  lemma {:induction false} ParseOfBody(name: string, block: string)
    requires '{' !in name && block != []
    ensures var params := ParsePairs(Split(block, ','));
            Parse(Body(name, block)) == if params.None? then None else Some(Token(name, params.value))
  {
    BlockIsFound(name, block);
  }

  lemma {:induction false} PrintedTokenParses(name: string, ps: seq<Param>)
    requires '{' !in name && ps != [] && forall i :: 0 <= i < |ps| ==> Printable(ps[i])
    ensures Parse(Body(name, Join(PrintParams(ps), ','))) == Some(Token(name, ToMap(ps) - {"__proto__"}))
  {
    var pairs := PrintParams(ps);
    PairsRoundTrip(ps);
    SplitJoin(pairs, ',');
    ParseOfBody(name, Join(pairs, ','));
  }

  lemma {:induction false} DropsNothingIff(params: map<string, string>)
    ensures params - {"__proto__"} == params <==> "__proto__" !in params
  {
    assert "__proto__" !in params - {"__proto__"};
  }

  /**
    Round trip: printing and parsing gives the name and the parameters back, but for a
    parameter called `__proto__`.
   */
  lemma {:induction false} TokenRoundTrip(name: string, ps: seq<Param>)
    requires '{' !in name && forall i :: 0 <= i < |ps| ==> Printable(ps[i])
    ensures Parse(Print(name, ps)) == Some(Token(name, ToMap(ps) - {"__proto__"}))
    ensures Parse(Print(name, ps)) == Some(Token(name, ToMap(ps))) <==> "__proto__" !in ToMap(ps)
  {
    DropsNothingIff(ToMap(ps));
    if ps != [] {
      PrintedTokenParses(name, ps);
    }
  }

  /** A parameter called `__proto__` is lost, whatever its value: `a{__proto__:b}` parses to `a` without parameters. */
  lemma {:induction false} ProtoIsLost(name: string, value: string)
    requires '{' !in name && ',' !in value
    ensures var ps := [Param("__proto__", value)];
            Parse(Print(name, ps)) == Some(Token(name, map[])) && ToMap(ps) == map["__proto__" := value]
  {
    var p := Param("__proto__", value);
    assert [p][..0] == [];
    assert ToMap([p]) == map["__proto__" := value];
    TokenRoundTrip(name, [p]);
    assert map["__proto__" := value] - {"__proto__"} == map[];
  }

  // ----- display names -----

  const I18N_TOKEN_PREFIX := "i18n:"

  datatype Display = Raw(text: string) | Translated(name: string, params: map<string, string>)

  function ResolveActorDisplayName(displayName: string): Display {
    if !(I18N_TOKEN_PREFIX <= displayName) then Raw(displayName) else
      var parsed := Parse(displayName[|I18N_TOKEN_PREFIX|..]);
      if parsed.None? then Raw(displayName)
      else if parsed.value.name !in {"flag_actor_anonymous", "flag_actor_remote"} then Raw(displayName)
      else if parsed.value.name == "flag_actor_remote" && parsed.value.params == map[] then Raw(displayName)
      else Translated(parsed.value.name, parsed.value.params)
  }

  predicate AllPrintable(ps: seq<Param>) {
    forall i :: 0 <= i < |ps| ==> Printable(ps[i])
  }

  lemma {:induction false} PairIsPrinted(pair: string) returns (p: Param)
    requires !Malformed(pair) && ',' !in pair
    ensures Printable(p) && PrintParam(p) == pair
  {
    var sep := IndexOf(pair, ':').value;
    p := Param(pair[..sep], pair[sep + 1..]);
    assert pair == pair[..sep] + [':'] + pair[sep + 1..];
  }

  lemma {:induction false} PairsArePrinted(pairs: seq<string>) returns (ps: seq<Param>)
    requires ParsePairs(pairs).Some? && forall i :: 0 <= i < |pairs| ==> ',' !in pairs[i]
    ensures AllPrintable(ps) && PrintParams(ps) == pairs
  {
    ps := [];
    if pairs != [] {
      var init, last := pairs[..|pairs| - 1], pairs[|pairs| - 1];
      var before := PairsArePrinted(init);
      var p := PairIsPrinted(last);
      ps := before + [p];
      assert ps[..|ps| - 1] == before;
    }
  }

  /** What parses was printed, or is a name with an empty block. */
  lemma {:induction false} ParsedIsPrinted(body: string) returns (ps: seq<Param>)
    requires Parse(body).Some?
    ensures var name := Parse(body).value.name;
            && '{' !in name && AllPrintable(ps)
            && (body == Print(name, ps) || (ps == [] && body == Body(name, [])))
  {
    ps := [];
    if HasBlock(body) {
      var at := IndexOf(body, '{').value;
      var block := BlockOf(body);
      assert body == body[..at] + ['{'] + (block + ['}']);
      if block != [] {
        SplitParts(block, ',');
        ps := PairsArePrinted(Split(block, ','));
        JoinSplit(block, ',');
      }
    }
  }

  /**
    A name is translated exactly when it is the printed form of one of the two tokens,
    the remote one with a parameter to show; any other name is shown unaltered.
   */
  lemma {:induction false} PrintedNameIsTranslatedIff(name: string, ps: seq<Param>)
    requires '{' !in name && AllPrintable(ps)
    ensures var displayName := I18N_TOKEN_PREFIX + Print(name, ps);
            var params := ToMap(ps) - {"__proto__"};
            ResolveActorDisplayName(displayName) ==
            if name == "flag_actor_anonymous" || (name == "flag_actor_remote" && params != map[])
            then Translated(name, params) else Raw(displayName)
  {
    TokenRoundTrip(name, ps);
    assert (I18N_TOKEN_PREFIX + Print(name, ps))[|I18N_TOKEN_PREFIX|..] == Print(name, ps);
  }

  /** And with an empty block, as without one. */
  lemma {:induction false} EmptyBlockName(name: string)
    requires '{' !in name
    ensures var displayName := I18N_TOKEN_PREFIX + Body(name, []);
            ResolveActorDisplayName(displayName) ==
            if name == "flag_actor_anonymous" then Translated(name, map[]) else Raw(displayName)
  {
    BlockIsFound(name, []);
    assert (I18N_TOKEN_PREFIX + Body(name, []))[|I18N_TOKEN_PREFIX|..] == Body(name, []);
  }

  /** No other name is translated, and a name that is not is shown unaltered. */
  lemma {:induction false} TranslatedNameIsPrinted(displayName: string) returns (ps: seq<Param>)
    ensures var shown := ResolveActorDisplayName(displayName);
            if shown.Raw? then shown == Raw(displayName)
            else && '{' !in shown.name && AllPrintable(ps)
                 && (|| displayName == I18N_TOKEN_PREFIX + Print(shown.name, ps)
                     || (ps == [] && displayName == I18N_TOKEN_PREFIX + Body(shown.name, [])))
  {
    ps := [];
    if ResolveActorDisplayName(displayName).Translated? {
      var body := displayName[|I18N_TOKEN_PREFIX|..];
      ps := ParsedIsPrinted(body);
      assert displayName == I18N_TOKEN_PREFIX + body;
    }
  }

  /** The server's token for a remote instance. */
  function RemoteToken(host: string): string {
    I18N_TOKEN_PREFIX + Body("flag_actor_remote", "host" + [':'] + host)
  }

  lemma {:induction false} ValuesComeFromPairs(pairs: seq<string>, key: string)
    requires forall i :: 0 <= i < |pairs| ==> ',' !in pairs[i]
    ensures ParsePairs(pairs).Some? && key in ParsePairs(pairs).value ==> ',' !in ParsePairs(pairs).value[key]
  {
    if pairs != [] {
      ValuesComeFromPairs(pairs[..|pairs| - 1], key);
    }
  }

  lemma {:induction false} OneParameterToken(name: string, key: string, value: string)
    requires '{' !in name && key != [] && ':' !in key && ',' !in key && key != "__proto__"
    ensures Parse(Body(name, key + [':'] + value)) == Some(Token(name, map[key := value])) <==> ',' !in value
  {
    var block := key + [':'] + value;
    ParseOfBody(name, block);
    if ',' !in value {
      PairRoundTrip(Param(key, value), map[]);
      SplitWithout(block, ',');
      assert [block][..0] == [];
    } else {
      SplitParts(block, ',');
      ValuesComeFromPairs(Split(block, ','), key);
      var params := ParsePairs(Split(block, ','));
      assert params != Some(map[key := value]) by {
        assert key in map[key := value] && map[key := value][key] == value;
      }
    }
  }

  /** A stored token shows its host, unaltered, exactly when the host has no comma. */
  lemma {:induction false} RemoteTokenResolvesIff(host: string)
    ensures ResolveActorDisplayName(RemoteToken(host)) == Translated("flag_actor_remote", map["host" := host])
            <==> ',' !in host
  {
    var body := Body("flag_actor_remote", "host" + [':'] + host);
    assert RemoteToken(host)[|I18N_TOKEN_PREFIX|..] == body;
    OneParameterToken("flag_actor_remote", "host", host);
    assert map["host" := host] != map[] by { assert "host" in map["host" := host]; }
  }

  // ----- the hosts that reach a token -----

  /**
    The parts of an actor URI that parsed; None when it did not. `normalized` is the
    host name after Unicode normalisation and lower-casing.
   */
  datatype ParsedUrl = ParsedUrl(
    protocol: string, username: string, password: string, hostname: string, normalized: string)

  predicate IsDigit(c: char) {
    '0' <= c <= '9'
  }

  /** `^(\d{1,3}\.){3}\d{1,3}$` */
  predicate IsIpv4(s: string) {
    var parts := Split(s, '.');
    && |parts| == 4
    && (forall i :: 0 <= i < 4 ==> 1 <= |parts[i]| <= 3)
    && (forall i, j :: 0 <= i < 4 && 0 <= j < |parts[i]| ==> IsDigit(parts[i][j]))
  }

  predicate IsAlphanumeric(c: char) {
    'a' <= c <= 'z' || IsDigit(c)
  }

  /** `[a-z0-9](?:[a-z0-9-]{0,61}[a-z0-9])?` */
  predicate IsLabel(s: string) {
    && 1 <= |s| <= 63
    && IsAlphanumeric(s[0]) && IsAlphanumeric(s[|s| - 1])
    && forall i :: 0 <= i < |s| ==> IsAlphanumeric(s[i]) || s[i] == '-'
  }

  /** `RFC_1123_HOSTNAME_RE`: labels joined by dots. */
  predicate IsHostname(s: string) {
    forall part :: part in Split(s, '.') ==> IsLabel(part)
  }

  function ValidateApActorUri(url: Option<ParsedUrl>): Option<string> {
    if url.None? || url.value.protocol != "https:" then None
    else if url.value.username != "" || url.value.password != "" then None
    else if ':' in url.value.hostname || IsIpv4(url.value.hostname) then None
    else if IsIpv4(url.value.normalized) || url.value.normalized == "" then None
    else if !IsHostname(url.value.normalized) then None
    else Some(url.value.normalized)
  }

  /** Four runs of one to three digits. */
  predicate IsQuad(parts: seq<string>) {
    && |parts| == 4
    && forall part :: part in parts ==> 1 <= |part| <= 3 && forall i :: 0 <= i < |part| ==> IsDigit(part[i])
  }

  /** What stands between the dots of a text. */
  predicate Dotted(s: string, parts: seq<string>) {
    parts != [] && s == Join(parts, '.') && forall i :: 0 <= i < |parts| ==> '.' !in parts[i]
  }

  /** A host is let through exactly when it comes by https, without credentials, is no IP address, and has labels. */
  lemma {:induction false} HostIsAcceptedIff(url: ParsedUrl, raw: seq<string>, labels: seq<string>)
    requires Dotted(url.hostname, raw) && Dotted(url.normalized, labels)
    ensures ValidateApActorUri(Some(url)) ==
            if && url.protocol == "https:" && url.username == [] && url.password == []
               && ':' !in url.hostname && !IsQuad(raw) && !IsQuad(labels)
               && forall part :: part in labels ==> IsLabel(part)
            then Some(url.normalized) else None
  {
    SplitJoin(raw, '.');
    SplitJoin(labels, '.');
    QuadIff(raw);
    QuadIff(labels);
    if url.normalized == [] {
      assert labels[0] == [] && !IsLabel(labels[0]) && labels[0] in labels;
    }
  }

  lemma {:induction false} QuadIff(parts: seq<string>)
    requires Split(Join(parts, '.'), '.') == parts
    ensures IsIpv4(Join(parts, '.')) <==> IsQuad(parts)
  {
    if IsQuad(parts) {
      forall i | 0 <= i < 4 ensures parts[i] in parts {}
    }
  }

  datatype FlagActor = Account | RemoteActor(url: Option<ParsedUrl>) | AnonymousWeb

  const ANONYMOUS_TOKEN := "i18n:flag_actor_anonymous"

  function AnonymizeFlagActor(actor: FlagActor): string {
    if actor.RemoteActor? && ValidateApActorUri(actor.url).Some? then RemoteToken(ValidateApActorUri(actor.url).value)
    else ANONYMOUS_TOKEN
  }

  /** A host name holds letters, digits, hyphens and dots only. */
  lemma {:induction false} HostnameCharacters(s: string, c: char)
    requires IsHostname(s) && c in s
    ensures IsAlphanumeric(c) || c == '-' || c == '.'
  {
    if c != '.' {
      SplitKeepsOthers(s, '.', c);
    }
  }

  /** Every host that the validator returns is shown unaltered. */
  lemma {:induction false} ValidatedHostResolves(url: Option<ParsedUrl>)
    requires ValidateApActorUri(url).Some?
    ensures var host := ValidateApActorUri(url).value;
            ResolveActorDisplayName(RemoteToken(host)) == Translated("flag_actor_remote", map["host" := host])
  {
    var host := ValidateApActorUri(url).value;
    if ',' in host {
      HostnameCharacters(host, ',');
    }
    RemoteTokenResolvesIff(host);
  }

  /**
    No stored name is ever shown raw: a reporter is shown as anonymous or, if a host was
    let through, as coming from exactly that host.
   */
  lemma {:induction false} StoredNamesAreTranslated(actor: FlagActor)
    ensures ResolveActorDisplayName(AnonymizeFlagActor(actor)) ==
            if actor.RemoteActor? && ValidateApActorUri(actor.url).Some?
            then Translated("flag_actor_remote", map["host" := ValidateApActorUri(actor.url).value])
            else Translated("flag_actor_anonymous", map[])
  {
    if actor.RemoteActor? && ValidateApActorUri(actor.url).Some? {
      ValidatedHostResolves(actor.url);
    } else {
      var body := ANONYMOUS_TOKEN[|I18N_TOKEN_PREFIX|..];
      assert body == "flag_actor_anonymous";
      assert '{' !in body;
    }
  }
}
