/**
  Locale prefixes of URL paths: `src/common/i18n/locale-url.ts`, their uses in
  `src/server/app_routes.ts`, the hreflang links and the redirect to the canonical URL,
  and the language in which `src/server/common/middleware/locale.ts` has a page answered.
 */
module LocaleUrl {
  import opened Wrappers
  import opened Text

  const AVAILABLE_LANGUAGES := ["en", "es", "fr"]

  predicate IsValidLanguageCode(code: string) {
    code in AVAILABLE_LANGUAGES
  }

  // ----- the pattern -----

  predicate IsLetter(c: char) {
    'a' <= c <= 'z' || 'A' <= c <= 'Z'
  }

  /** The text before the first slash. */
  function FirstSegment(s: string): (segment: string)
    ensures segment <= s && '/' !in segment
    ensures |segment| < |s| ==> s[|segment|] == '/'
  {
    if s == [] || s[0] == '/' then [] else [s[0]] + FirstSegment(s[1..])
  }

  function Normalize(path: string): string {
    if "/" <= path then path else ['/'] + path
  }

  /** `^\/([a-z]{2,8})(\/.*)?$`, in either case: the segment, and the rest when there is one. */
  function MatchLocale(path: string): Option<(string, string)> {
    if !("/" <= path) then None else
      var segment := FirstSegment(path[1..]);
      var rest := path[1 + |segment|..];
      if 2 <= |segment| <= 8 && (forall i :: 0 <= i < |segment| ==> IsLetter(segment[i])) && OneLine(rest)
      then Some((segment, rest)) else None
  }

  datatype Stripped = Stripped(locale: Option<string>, path: string)

  function StripLocalePrefix(path: string): Stripped {
    var normalizedPath := Normalize(path);
    var m := MatchLocale(normalizedPath);
    if m.None? then Stripped(None, normalizedPath) else
      var potentialLocale := Lower(m.value.0);
      var remainingPath := if m.value.1 == [] then "/" else m.value.1;
      if !IsValidLanguageCode(potentialLocale) then Stripped(None, normalizedPath)
      else Stripped(Some(potentialLocale), remainingPath)
  }

  function AddLocalePrefix(path: string, locale: string, defaultLocale: string): string {
    if locale == defaultLocale then path else
      var normalizedPath := Normalize(path);
      if StripLocalePrefix(normalizedPath).locale == Some(locale) then normalizedPath
      else if normalizedPath == "/" then ['/'] + locale
      else ['/'] + locale + normalizedPath
  }

  // ----- adding and stripping -----

  lemma {:induction false} SegmentOf(code: string, rest: string)
    requires '/' !in code && (rest != [] ==> rest[0] == '/')
    ensures FirstSegment(code + rest) == code
  {
    if code == [] {
      assert code + rest == rest;
    } else {
      assert (code + rest)[1..] == code[1..] + rest;
      SegmentOf(code[1..], rest);
    }
  }

  lemma {:induction false} CodeFacts(code: string)
    requires IsValidLanguageCode(code)
    ensures |code| == 2 && '/' !in code && Lower(code) == code
    ensures IsLetter(code[0]) && IsLetter(code[1])
  {}

  /** A path that starts with a valid code and then ends or goes on with a slash. */
  lemma {:induction false} PrefixIsFound(code: string, rest: string)
    requires IsValidLanguageCode(code) && (rest != [] ==> rest[0] == '/')
    ensures StripLocalePrefix(['/'] + code + rest)
         == if OneLine(rest) then Stripped(Some(code), if rest == [] then "/" else rest)
            else Stripped(None, ['/'] + code + rest)
  {
    var path := ['/'] + code + rest;
    CodeFacts(code);
    SegmentOf(code, rest);
    assert path[1..] == code + rest && path[1 + |code|..] == rest;
  }

  /** A rooted path is its first segment and the rest, if any, from the next slash on. */
  predicate Carries(path: string, segment: string, rest: string) {
    path == ['/'] + segment + rest && '/' !in segment && (rest != [] ==> rest[0] == '/')
  }

  lemma {:induction false} EveryPathCarries(path: string) returns (segment: string, rest: string)
    ensures Carries(Normalize(path), segment, rest)
  {
    var p := Normalize(path);
    segment := FirstSegment(p[1..]);
    rest := p[1 + |segment|..];
    assert p == [p[0]] + (p[1..][..|segment|] + rest);
  }

  lemma {:induction false} CarriedSegment(path: string, segment: string, rest: string)
    requires Carries(path, segment, rest)
    ensures "/" <= path && FirstSegment(path[1..]) == segment && path[1 + |segment|..] == rest
  {
    SegmentOf(segment, rest);
    assert path[1..] == segment + rest;
  }

  lemma {:induction false} VariantOfCode(segment: string, code: string)
    requires IsValidLanguageCode(code)
    ensures Lower(segment) == code <==> CaseVariants(segment, code)
    ensures CaseVariants(segment, code) ==> |segment| == 2 && IsLetter(segment[0]) && IsLetter(segment[1])
  {
    CodeFacts(code);
    LowerIff(segment, code);
  }

  /**
    A language is found in a path exactly when the first segment is its code, in either
    case, and the rest is on one line; what is left is then the rest, and otherwise the
    path itself.
   */
  lemma {:induction false} LocaleIsFoundIff(path: string, segment: string, rest: string, code: string)
    requires Carries(Normalize(path), segment, rest)
    ensures StripLocalePrefix(path).locale == Some(code)
            <==> code in AVAILABLE_LANGUAGES && CaseVariants(segment, code) && OneLine(rest)
    ensures StripLocalePrefix(path).path
            == if StripLocalePrefix(path).locale.None? then Normalize(path) else if rest == [] then "/" else rest
  {
    CarriedSegment(Normalize(path), segment, rest);
    if code in AVAILABLE_LANGUAGES {
      VariantOfCode(segment, code);
    }
  }

  lemma {:induction false} NormalizeFacts(path: string)
    ensures OneLine(Normalize(path)) <==> OneLine(path)
    ensures Normalize(Normalize(path)) == Normalize(path)
  {
    if !("/" <= path) {
      forall i | 0 <= i < |path| ensures path[i] == Normalize(path)[i + 1] {}
    }
  }

  /** The prefix added to a path is found again exactly when the path is on one line. */
  lemma {:induction false} AddedPrefixIsFoundIff(path: string, locale: string, defaultLocale: string)
    requires IsValidLanguageCode(locale) && locale != defaultLocale
    ensures StripLocalePrefix(AddLocalePrefix(path, locale, defaultLocale)).locale == Some(locale) <==> OneLine(path)
  {
    var p := Normalize(path);
    NormalizeFacts(path);
    if StripLocalePrefix(p).locale != Some(locale) {
      PrefixIsFound(locale, if p == "/" then [] else p);
      assert ['/'] + locale + [] == ['/'] + locale;
    }
  }

  /** Stripping gives the path back, except that a prefix it already carried goes too. */
  lemma {:induction false} StrippingUndoesAdding(path: string, locale: string, defaultLocale: string)
    requires IsValidLanguageCode(locale) && locale != defaultLocale && OneLine(path)
    ensures StripLocalePrefix(AddLocalePrefix(path, locale, defaultLocale)).path
         == if StripLocalePrefix(path).locale == Some(locale) then StripLocalePrefix(path).path else Normalize(path)
  {
    var p := Normalize(path);
    NormalizeFacts(path);
    if StripLocalePrefix(p).locale != Some(locale) {
      PrefixIsFound(locale, if p == "/" then [] else p);
      assert ['/'] + locale + [] == ['/'] + locale;
    }
  }

  /** Adding twice is adding once, exactly on the paths where the prefix is found again. */
  lemma {:induction false} AddingIsIdempotentIff(path: string, locale: string, defaultLocale: string)
    requires IsValidLanguageCode(locale)
    ensures AddLocalePrefix(AddLocalePrefix(path, locale, defaultLocale), locale, defaultLocale)
              == AddLocalePrefix(path, locale, defaultLocale)
            <==> locale == defaultLocale || OneLine(path)
  {
    if locale != defaultLocale {
      var added := AddLocalePrefix(path, locale, defaultLocale);
      AddedPrefixIsFoundIff(path, locale, defaultLocale);
      assert "/" <= added && Normalize(added) == added && added != "/";
      if StripLocalePrefix(added).locale != Some(locale) {
        assert |AddLocalePrefix(added, locale, defaultLocale)| == |added| + 1 + |locale|;
      }
    }
  }

  // ----- hreflang links -----

  /** A path as the router hands it on: rooted, on one line, without a locale. */
  predicate Canonical(path: string) {
    "/" <= path && OneLine(path) && StripLocalePrefix(path).locale.None?
  }

  /** `^\/view(\/.*)?$`, in either case: `/view` and everything below it. */
  predicate IsViewPath(path: string) {
    "/" <= path && Lower(FirstSegment(path[1..])) == "view" && OneLine(path)
  }

  lemma {:induction false} ViewPathsAreCanonical(path: string)
    requires IsViewPath(path)
    ensures Canonical(path)
  {
    assert |Lower(FirstSegment(path[1..]))| == 4;
  }

  lemma {:induction false} ViewPathIff(path: string, segment: string, rest: string)
    requires Carries(path, segment, rest)
    ensures IsViewPath(path) <==> CaseVariants(segment, "view") && OneLine(path)
  {
    CarriedSegment(path, segment, rest);
    LowerIff(segment, "view");
    LowerOfView();
  }

  lemma {:induction false} LowerOfView()
    ensures Lower("view") == "view"
  {}

  datatype Link = Link(hreflang: string, href: string)

  function LinkTo(code: string, baseUrl: string, canonicalPath: string, defaultLocale: string): Link {
    Link(code, baseUrl + AddLocalePrefix(canonicalPath, code, defaultLocale))
  }

  /** The links of a page: one for each language, and the default one. */
  predicate AreHreflangLinks(links: seq<Link>, baseUrl: string, canonicalPath: string, defaultLocale: string) {
    && |links| == |AVAILABLE_LANGUAGES| + 1
    && (forall i :: 0 <= i < |AVAILABLE_LANGUAGES| ==>
          links[i] == LinkTo(AVAILABLE_LANGUAGES[i], baseUrl, canonicalPath, defaultLocale))
    && links[|AVAILABLE_LANGUAGES|] == Link("x-default", baseUrl + canonicalPath)
  }

  method BuildHreflangLinks(baseUrl: string, canonicalPath: string, defaultLocale: string) returns (links: seq<Link>)
    ensures AreHreflangLinks(links, baseUrl, canonicalPath, defaultLocale)
  {
    links := [];
    for i := 0 to |AVAILABLE_LANGUAGES|
      invariant |links| == i
      invariant forall k :: 0 <= k < i ==>
                  links[k] == LinkTo(AVAILABLE_LANGUAGES[k], baseUrl, canonicalPath, defaultLocale)
    {
      links := links + [LinkTo(AVAILABLE_LANGUAGES[i], baseUrl, canonicalPath, defaultLocale)];
    }
    links := links + [Link("x-default", baseUrl + AddLocalePrefix(canonicalPath, defaultLocale, defaultLocale))];
  }

  /** A prefixed canonical path strips to its own language, and to the one path. */
  lemma {:induction false} PrefixStripsBack(path: string, code: string, defaultLocale: string)
    requires Canonical(path) && IsValidLanguageCode(code)
    ensures StripLocalePrefix(AddLocalePrefix(path, code, defaultLocale))
         == Stripped(if code == defaultLocale then None else Some(code), path)
  {
    if code != defaultLocale {
      AddedPrefixIsFoundIff(path, code, defaultLocale);
      StrippingUndoesAdding(path, code, defaultLocale);
    } else {
    }
  }

  /** Every link of the list strips back to the one canonical path, and all but the default one to their language. */
  lemma {:induction false} LinksStripBack(links: seq<Link>, baseUrl: string, path: string, defaultLocale: string,
      i: nat)
    requires AreHreflangLinks(links, baseUrl, path, defaultLocale) && Canonical(path) && i < |links|
    ensures baseUrl <= links[i].href
    ensures StripLocalePrefix(links[i].href[|baseUrl|..]) ==
            Stripped(if links[i].hreflang in {defaultLocale, "x-default"} then None else Some(links[i].hreflang), path)
  {
    if i < |AVAILABLE_LANGUAGES| {
      assert links[i].href[|baseUrl|..] == AddLocalePrefix(path, AVAILABLE_LANGUAGES[i], defaultLocale);
      PrefixStripsBack(path, AVAILABLE_LANGUAGES[i], defaultLocale);
    } else {
      assert links[i].href[|baseUrl|..] == path;
    }
  }

  /**
    Two entries of the list share an address exactly when both mean the default
    language: its own entry, if it has one, and the `x-default` entry.
   */
  lemma {:induction false} LinksAreDistinctIff(links: seq<Link>, baseUrl: string, path: string, defaultLocale: string,
      i: nat, j: nat)
    requires AreHreflangLinks(links, baseUrl, path, defaultLocale) && Canonical(path) && i < j < |links|
    ensures links[i].href == links[j].href <==> links[i].hreflang == defaultLocale && links[j].hreflang == "x-default"
  {
    LinksStripBack(links, baseUrl, path, defaultLocale, i);
    LinksStripBack(links, baseUrl, path, defaultLocale, j);
    HreflangsDiffer(links, baseUrl, path, defaultLocale, i, j);
    UnprefixedHref(links, baseUrl, path, defaultLocale, i);
    UnprefixedHref(links, baseUrl, path, defaultLocale, j);
  }

  lemma {:induction false} HreflangsDiffer(links: seq<Link>, baseUrl: string, path: string, defaultLocale: string,
      i: nat, j: nat)
    requires AreHreflangLinks(links, baseUrl, path, defaultLocale) && i < j < |links|
    ensures links[i].hreflang != links[j].hreflang && links[i].hreflang != "x-default"
  {
    LanguagesDiffer(i, j);
  }

  lemma {:induction false} UnprefixedHref(links: seq<Link>, baseUrl: string, path: string, defaultLocale: string,
      i: nat)
    requires AreHreflangLinks(links, baseUrl, path, defaultLocale) && i < |links|
    ensures links[i].hreflang == defaultLocale || i == |AVAILABLE_LANGUAGES| ==> links[i].href == baseUrl + path
    ensures links[i].hreflang == "x-default" ==> i == |AVAILABLE_LANGUAGES|
  {
    if i < |AVAILABLE_LANGUAGES| {
      LanguagesDiffer(i, |AVAILABLE_LANGUAGES|);
    }
  }

  lemma {:induction false} LanguagesDiffer(i: nat, j: nat)
    requires i < j <= |AVAILABLE_LANGUAGES|
    ensures AVAILABLE_LANGUAGES[i] != "x-default"
    ensures j < |AVAILABLE_LANGUAGES| ==> AVAILABLE_LANGUAGES[i] != AVAILABLE_LANGUAGES[j]
  {
    assert |AVAILABLE_LANGUAGES[i]| == 2;
    assert AVAILABLE_LANGUAGES[0][0] == 'e' && AVAILABLE_LANGUAGES[1][1] == 's' && AVAILABLE_LANGUAGES[2][0] == 'f';
  }

  // ----- the language of a request -----

  /** What the administrator has set; `configured` is the default language. */
  datatype Settings = Settings(force: Option<string>, enabled: seq<string>, configured: string)

  /** What a request says about its sender: account, cookie, and the languages accepted, best first. */
  datatype Visitor = Visitor(account: Option<string>, cookie: Option<string>, accepted: seq<string>)

  /** `resolveInstanceDefaultLanguage` */
  function DefaultLanguage(settings: Settings): string {
    if IsValidLanguageCode(settings.configured) then settings.configured else "en"
  }

  function Forced(settings: Settings): Option<string> {
    if settings.force.Some? && IsValidLanguageCode(settings.force.value) then settings.force else None
  }

  predicate Usable(code: Option<string>, settings: Settings) {
    code.Some? && IsValidLanguageCode(code.value) && code.value in settings.enabled
  }

  function FirstSupported(accepted: seq<string>): Option<string> {
    if accepted == [] then None
    else if IsValidLanguageCode(accepted[0]) then Some(accepted[0])
    else FirstSupported(accepted[1..])
  }

  method ResolveFromAcceptLanguage(accepted: seq<string>) returns (code: Option<string>)
    ensures code == FirstSupported(accepted)
    ensures code.None? ==> forall i :: 0 <= i < |accepted| ==> !IsValidLanguageCode(accepted[i])
    ensures code.Some? ==> IsValidLanguageCode(code.value)
    ensures code.Some? ==> exists i :: 0 <= i < |accepted| && accepted[i] == code.value
                                       && forall j :: 0 <= j < i ==> !IsValidLanguageCode(accepted[j])
  {
    for i := 0 to |accepted|
      invariant forall j :: 0 <= j < i ==> !IsValidLanguageCode(accepted[j])
      invariant FirstSupported(accepted) == FirstSupported(accepted[i..])
    {
      assert accepted[i..][0] == accepted[i] && accepted[i..][1..] == accepted[i + 1..];
      if IsValidLanguageCode(accepted[i]) {
        return Some(accepted[i]);
      }
    }
    return None;
  }

  /** The end of the chain, when no language is forced and the URL names none that is enabled. */
  function PersonalLocale(settings: Settings, visitor: Visitor): string {
    if Usable(visitor.account, settings) then visitor.account.value
    else if Usable(visitor.cookie, settings) then visitor.cookie.value
    else if Usable(FirstSupported(visitor.accepted), settings) then FirstSupported(visitor.accepted).value
    else settings.configured
  }

  /** `req.locale`, as the middleware resolves it. */
  function RequestLocale(path: string, settings: Settings, visitor: Visitor): string {
    var urlLocale := StripLocalePrefix(path).locale;
    if Forced(settings).Some? then Forced(settings).value
    else if Usable(urlLocale, settings) then urlLocale.value
    else PersonalLocale(settings, visitor)
  }

  /** Where the language of a request may be named, in the order in which it is asked. */
  function Sources(path: string, settings: Settings, visitor: Visitor): seq<Option<string>> {
    [settings.force, StripLocalePrefix(path).locale, visitor.account, visitor.cookie, FirstSupported(visitor.accepted)]
  }

  /** The source numbered `k` names a language of the instance; all but the administrator's must be enabled. */
  predicate Names(sources: seq<Option<string>>, k: nat, code: string, settings: Settings) {
    && k < |sources| && sources[k] == Some(code)
    && code in AVAILABLE_LANGUAGES && (k > 0 ==> code in settings.enabled)
  }

  /**
    The language of a request is the first one that its sources name, whatever the later
    ones say, and the configured one when none names any.
   */
  lemma {:induction false} FirstSourceDecides(path: string, settings: Settings, visitor: Visitor, k: nat)
    requires var sources := Sources(path, settings, visitor);
             k <= |sources| && forall j, code :: 0 <= j < k ==> !Names(sources, j, code, settings)
    ensures var sources := Sources(path, settings, visitor);
            if k == |sources| then RequestLocale(path, settings, visitor) == settings.configured
            else forall code :: Names(sources, k, code, settings) ==> RequestLocale(path, settings, visitor) == code
  {
    var sources := Sources(path, settings, visitor);
    assert k > 0 && settings.force.Some? ==> !Names(sources, 0, settings.force.value, settings);
    forall j | 1 <= j < k ensures !Usable(sources[j], settings) {
      if sources[j].Some? {
        assert !Names(sources, j, sources[j].value, settings);
      }
    }
    assert k > 1 ==> !Usable(sources[1], settings);
    assert k > 2 ==> !Usable(sources[2], settings);
    assert k > 3 ==> !Usable(sources[3], settings);
    assert k > 4 ==> !Usable(sources[4], settings);
  }

  // ----- the pages -----

  /** A page is in one language, and its meta tags are in one that may be another. */
  datatype Response = RedirectTo(path: string) | Page(lang: string, metaLang: string, canonicalPath: string)

  function SiteIndex(path: string, settings: Settings, visitor: Visitor): Response {
    var lang := RequestLocale(path, settings, visitor);
    Page(lang, lang, StripLocalePrefix(path).path)
  }

  /** `locale_prefixed_site`, without the query string. */
  function LocalePrefixedSite(path: string, settings: Settings, visitor: Visitor): Response {
    var stripped := StripLocalePrefix(path);
    if stripped.locale.None? then SiteIndex(path, settings, visitor)
    else if stripped.locale.value == DefaultLanguage(settings) then RedirectTo(stripped.path)
    else Page(RequestLocale(path, settings, visitor), stripped.locale.value, stripped.path)
  }

  /** `^\/[a-z]{2,8}\/view(\/.*)?$`, in either case. */
  predicate RouteMatches(path: string) {
    var m := MatchLocale(path);
    m.Some? && m.value.1 != [] && Lower(FirstSegment(m.value.1[1..])) == "view"
  }

  /** How the router answers a path at or below `/view`, with a prefix or without. */
  function Answer(path: string, settings: Settings, visitor: Visitor): Response {
    if RouteMatches(path) then LocalePrefixedSite(path, settings, visitor) else SiteIndex(path, settings, visitor)
  }

  /** A redirect leads to a page: the path it names is not redirected again, whatever the settings are by then. */
  lemma {:induction false} RedirectsOnce(path: string, settings: Settings, visitor: Visitor, later: Settings,
      again: Visitor)
    requires Answer(path, settings, visitor).RedirectTo?
    ensures var target := Answer(path, settings, visitor).path;
            && IsViewPath(target) && Answer(target, later, again).Page?
            && Answer(target, later, again).canonicalPath == target
  {
    var target := MatchLocale(path).value.1;
    assert "/" <= target && Normalize(path) == path && Normalize(target) == target;
    ViewPathsAreCanonical(target);
  }

  /** The redirected paths are those of the default language, its code in either case, and they lose its prefix. */
  lemma {:induction false} RedirectedIff(path: string, segment: string, rest: string, settings: Settings,
      visitor: Visitor)
    requires Carries(path, segment, rest)
    ensures Answer(path, settings, visitor).RedirectTo?
            <==> CaseVariants(segment, DefaultLanguage(settings)) && IsViewPath(rest)
    ensures Answer(path, settings, visitor).RedirectTo? ==> Answer(path, settings, visitor).path == rest
  {
    CarriedSegment(path, segment, rest);
    LocaleIsFoundIff(path, segment, rest, DefaultLanguage(settings));
    VariantOfCode(segment, DefaultLanguage(settings));
  }

  function LinkPath(path: string, code: string, settings: Settings): string {
    AddLocalePrefix(path, code, DefaultLanguage(settings))
  }

  /**
    Each link is answered by a page for the path it was made from, with meta tags in
    its own language if it has a prefix.
   */
  lemma {:induction false} LinkIsAnswered(path: string, code: string, settings: Settings, visitor: Visitor)
    requires IsViewPath(path) && IsValidLanguageCode(code)
    ensures var link := LinkPath(path, code, settings);
            var lang := RequestLocale(link, settings, visitor);
            Answer(link, settings, visitor)
            == Page(lang, if code == DefaultLanguage(settings) then lang else code, path)
  {
    var link := LinkPath(path, code, settings);
    ViewPathsAreCanonical(path);
    PrefixStripsBack(path, code, DefaultLanguage(settings));
    if code != DefaultLanguage(settings) {
      PrefixedViewMatches(path, code);
      assert Normalize(path) == path && path != "/";
    }
  }

  /** The one link without a prefix is that of the configured language, or English when the instance lacks that. */
  lemma {:induction false} UnprefixedLinkIff(path: string, code: string, settings: Settings)
    requires IsViewPath(path) && IsValidLanguageCode(code)
    ensures LinkPath(path, code, settings) == path <==>
            code == settings.configured || (settings.configured !in AVAILABLE_LANGUAGES && code == "en")
  {
    ViewPathsAreCanonical(path);
    PrefixStripsBack(path, code, DefaultLanguage(settings));
  }

  lemma {:induction false} PrefixedViewMatches(path: string, code: string)
    requires IsViewPath(path) && IsValidLanguageCode(code)
    ensures RouteMatches(['/'] + code + path)
  {
    var link := ['/'] + code + path;
    CodeFacts(code);
    SegmentOf(code, path);
    assert link[1..] == code + path && link[1 + |code|..] == path;
  }

  /**
    A link is answered in its own language if and only if that language is forced, or
    none is and the link's prefix is an enabled language or the visitor's own
    preferences end there.
   */
  lemma {:induction false} LinkLanguageIff(path: string, code: string, settings: Settings, visitor: Visitor)
    requires IsViewPath(path) && IsValidLanguageCode(code)
    ensures Answer(LinkPath(path, code, settings), settings, visitor).Page?
    ensures Answer(LinkPath(path, code, settings), settings, visitor).lang == code <==>
            if Forced(settings).Some? then Forced(settings).value == code
            else || (code != DefaultLanguage(settings) && code in settings.enabled)
                 || PersonalLocale(settings, visitor) == code
  {
    LinkIsAnswered(path, code, settings, visitor);
    ViewPathsAreCanonical(path);
    PrefixStripsBack(path, code, DefaultLanguage(settings));
  }

  /**
    An alternate link is answered in its language for every visitor exactly when that
    language is forced, or enabled and none is.
   */
  lemma {:induction false} AlternateLinkForEveryoneIff(path: string, code: string, settings: Settings)
    requires IsViewPath(path) && IsValidLanguageCode(code) && code != DefaultLanguage(settings)
    ensures (forall visitor :: Answer(LinkPath(path, code, settings), settings, visitor).Page?
                               && Answer(LinkPath(path, code, settings), settings, visitor).lang == code)
            <==> if Forced(settings).Some? then Forced(settings).value == code else code in settings.enabled
  {
    forall visitor
      ensures Answer(LinkPath(path, code, settings), settings, visitor).Page?
      ensures Answer(LinkPath(path, code, settings), settings, visitor).lang == code <==>
              if Forced(settings).Some? then Forced(settings).value == code
              else code in settings.enabled || PersonalLocale(settings, visitor) == code
    {
      LinkLanguageIff(path, code, settings, visitor);
    }
    assert PersonalLocale(settings, Visitor(None, None, [])) == settings.configured;
  }

  /**
    The default language's own link carries no prefix: it is answered in that language
    for every visitor exactly when it is forced, or none is, it is the configured one
    and no other is enabled.
   */
  lemma {:induction false} DefaultLinkForEveryoneIff(path: string, settings: Settings)
    requires IsViewPath(path)
    ensures (forall visitor :: Answer(path, settings, visitor).Page?
                               && Answer(path, settings, visitor).lang == DefaultLanguage(settings))
            <==> if Forced(settings).Some? then Forced(settings).value == DefaultLanguage(settings)
                 else && settings.configured == DefaultLanguage(settings)
                      && forall code :: code in settings.enabled && IsValidLanguageCode(code) ==>
                           code == DefaultLanguage(settings)
  {
    var code := DefaultLanguage(settings);
    forall visitor
      ensures Answer(path, settings, visitor).Page?
      ensures Answer(path, settings, visitor).lang == code <==>
              if Forced(settings).Some? then Forced(settings).value == code
              else PersonalLocale(settings, visitor) == code
    {
      LinkLanguageIff(path, code, settings, visitor);
    }
    assert PersonalLocale(settings, Visitor(None, None, [])) == settings.configured;
    forall other | other in settings.enabled && IsValidLanguageCode(other)
      ensures PersonalLocale(settings, Visitor(Some(other), None, [])) == other
    {}
  }

  /** With French forced, the Spanish link of `/view` is answered in French, with Spanish meta tags. */
  lemma {:induction false} ForcedLanguageAnswersOtherLinks(visitor: Visitor)
    ensures var settings := Settings(Some("fr"), AVAILABLE_LANGUAGES, "en");
            Answer(LinkPath("/view", "es", settings), settings, visitor) == Page("fr", "es", "/view")
  {
    var settings := Settings(Some("fr"), AVAILABLE_LANGUAGES, "en");
    assert AVAILABLE_LANGUAGES == ["en", "es", "fr"];
    assert IsViewPath("/view") by { SegmentOf("view", []); assert "view" + [] == "view" && "/view"[1..] == "view"; }
    LinkIsAnswered("/view", "es", settings, visitor);
  }
}
