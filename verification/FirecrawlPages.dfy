// What a fetch returns and why it fails, in terms of what the web and the pages themselves say.
module FirecrawlPages {
  import opened Wrappers
  import opened Sequences
  import opened Domain
  import opened Gate
  import opened Firecrawl
  import opened FirecrawlLaws
  import opened Regex
  import opened RegexSteps
  import opened RegexFacts
  import P = PageTime

  // ---- one request ----

  ghost predicate Blank(s: string) { forall i :: 0 <= i < |s| ==> IsSpace(s[i]) }

  lemma {:induction false} StripsToNothing(s: string)
    ensures P.Strip(s) == "" <==> Blank(s)
    decreases |s|
  {
    if s != "" && IsSpace(s[0]) {
      StripsToNothing(s[1..]);
      assert Blank(s) <==> Blank(s[1..]) by {
        if Blank(s[1..]) {
          forall i | 0 <= i < |s| ensures IsSpace(s[i]) {
            assert i == 0 || s[i] == s[1..][i - 1];
          }
        }
      }
    } else if s != "" && IsSpace(s[|s| - 1]) {
      StripsToNothing(s[..|s| - 1]);
      assert s[..|s| - 1] != "" ==> s[..|s| - 1][0] == s[0];
    }
  }

  // The page an answer carries: what it returned, unless that is blank.
  ghost predicate Carried(page: Page, r: Page) {
    && r.status == page.status
    && (page.document.Some? && !Blank(page.document.value) ==> r.document == page.document)
    && (page.document.None? || Blank(page.document.value) ==> r.document == None)
  }

  ghost predicate WireTrouble(wire: Wire, e: ApplicationError) {
    match wire
    case NoConnection => e == ApplicationError(Unavailable, "source_provider.firecrawl_unreachable", true)
    case Answer(code, payload) =>
      && (code == 401 ==> e == ApplicationError(Unauthorized, "source_provider.firecrawl_unauthorized", false))
      && (code in {402, 429} ==> e == ApplicationError(Unavailable, "source_provider.firecrawl_budget", true))
      && (code >= 500 ==> e == ApplicationError(Unavailable, "source_provider.firecrawl_unavailable", true))
      && (code == 200 ==>
            payload == None && e == ApplicationError(Unavailable, "source_provider.firecrawl_malformed", true))
      && (code < 500 && code !in {200, 401, 402, 429} ==>
            e == ApplicationError(Unavailable, "source_provider.firecrawl_rejected", false))
  }

  // A request gives the page exactly when the service answered 200 with a readable body.
  lemma FetchedExactly(wire: Wire)
    ensures Fetched(wire).Success? <==> wire.Answer? && wire.code == 200 && wire.payload.Some?
    ensures Fetched(wire).Success? ==> Carried(wire.payload.value, Fetched(wire).value)
    ensures Fetched(wire).Failure? ==> WireTrouble(wire, Fetched(wire).error)
  {
    if wire.Answer? && wire.payload.Some? && wire.payload.value.document.Some? {
      StripsToNothing(wire.payload.value.document.value);
    }
  }

  // ---- the schedule's name ----

  ghost predicate BlankFrom(s: string, i: nat, j: nat) { i <= j <= |s| && forall k :: i <= k < j ==> IsSpace(s[k]) }

  // "72", blanks, at most one hyphen, blanks, and "hr" or "hour", in any case.
  ghost predicate Names72Hours(s: string, i: nat, a: nat, b: nat, c: nat) {
    && StandsAt(s, i, "72") && BlankFrom(s, i + 2, a)
    && (b == a || (b == a + 1 && a < |s| && s[a] == '-')) && BlankFrom(s, b, c)
    && (StandsAt(s, c, "hr") || StandsAt(s, c, "hour"))
  }

  lemma {:induction false} WordDescribes(w: string, t: string, i: nat, g: Groups)
    requires StandsAt(t, i, w)
    ensures Describes(Word(w), t, i, i + |w|, g, g)
  {
    if w != "" {
      assert StandsAt(t, i + 1, w[1..]);
      WordDescribes(w[1..], t, i + 1, g);
      assert Describes(Lit(w[0]), t, i, i + 1, g, g);
    }
  }

  lemma HyphenIsItself(c: char)
    ensures Lower(c) == '-' <==> c == '-'
  {
  }

  function HourPart(): Re { Group(1, Alt(Word("hr"), Word("hour"))) }
  function AfterHyphen(): Re { Cat(Star(SpaceKind), HourPart()) }
  function AfterBlanks(): Re { Cat(Opt(Lit('-')), AfterHyphen()) }
  function AfterNumber(): Re { Cat(Star(SpaceKind), AfterBlanks()) }

  lemma CatJoins(a: Re, b: Re, t: string, i: nat, m: nat, j: nat, g: Groups, after: Groups)
    requires Describes(a, t, i, m, g, g) && Describes(b, t, m, j, g, after)
    ensures Describes(Cat(a, b), t, i, j, g, after)
  {
  }

  lemma BlanksDescribed(s: string, i: nat, j: nat, g: Groups)
    requires BlankFrom(s, i, j)
    ensures Describes(Star(SpaceKind), s, i, j, g, g)
  {
  }

  lemma ChoiceDescribes(left: Re, right: Re, s: string, c: nat, e: nat, g: Groups)
    requires Describes(left, s, c, e, g, g) || Describes(right, s, c, e, g, g)
    ensures Describes(Group(1, Alt(left, right)), s, c, e, g, g[1 := s[c..e]])
  {
    assert Describes(Alt(left, right), s, c, e, g, g);
  }

  lemma HourDescribes(s: string, c: nat, g: Groups) returns (e: nat, after: Groups)
    requires StandsAt(s, c, "hr") || StandsAt(s, c, "hour")
    ensures Describes(HourPart(), s, c, e, g, after)
  {
    if StandsAt(s, c, "hr") {
      e := c + 2;
      WordDescribes("hr", s, c, g);
    } else {
      e := c + 4;
      WordDescribes("hour", s, c, g);
    }
    after := g[1 := s[c..e]];
    ChoiceDescribes(Word("hr"), Word("hour"), s, c, e, g);
  }

  lemma RestIsDescribed(hour: Re, s: string, i: nat, a: nat, b: nat, c: nat, e: nat, g: Groups, after: Groups)
    requires BlankFrom(s, i, a) && BlankFrom(s, b, c) && Describes(hour, s, c, e, g, after)
    requires b == a || (b == a + 1 && a < |s| && s[a] == '-')
    ensures Describes(Cat(Star(SpaceKind), Cat(Opt(Lit('-')), Cat(Star(SpaceKind), hour))), s, i, e, g, after)
  {
    BlanksDescribed(s, b, c, g);
    CatJoins(Star(SpaceKind), hour, s, b, c, e, g, after);
    OptDescribed(Lit('-'), s, a, b, g, g);
    CatJoins(Opt(Lit('-')), Cat(Star(SpaceKind), hour), s, a, b, e, g, after);
    BlanksDescribed(s, i, a, g);
    CatJoins(Star(SpaceKind), Cat(Opt(Lit('-')), Cat(Star(SpaceKind), hour)), s, i, a, e, g, after);
  }

  lemma NameIsDescribed(s: string, i: nat, a: nat, b: nat, c: nat)
    requires Names72Hours(s, i, a, b, c)
    ensures SomeDescription(ArtifactName(), s, i)
  {
    var e, after := HourDescribes(s, c, NoGroups());
    NumberDescribes(s, i);
    PartsDescribe(Word("72"), HourPart(), s, i, a, b, c, e, after);
    NumberComesFirst();
  }

  lemma PartsDescribe(number: Re, hour: Re, s: string, i: nat, a: nat, b: nat, c: nat, e: nat, after: Groups)
    requires Describes(number, s, i, i + 2, NoGroups(), NoGroups()) && Describes(hour, s, c, e, NoGroups(), after)
    requires BlankFrom(s, i + 2, a) && BlankFrom(s, b, c)
    requires b == a || (b == a + 1 && a < |s| && s[a] == '-')
    ensures SomeDescription(Cat(number, Cat(Star(SpaceKind), Cat(Opt(Lit('-')), Cat(Star(SpaceKind), hour)))), s, i)
  {
    RestIsDescribed(hour, s, i + 2, a, b, c, e, NoGroups(), after);
    SomeJoined(number, Cat(Star(SpaceKind), Cat(Opt(Lit('-')), Cat(Star(SpaceKind), hour))), s, i, i + 2, e, after);
  }

  lemma NumberDescribes(s: string, i: nat)
    requires StandsAt(s, i, "72")
    ensures Describes(Word("72"), s, i, i + 2, NoGroups(), NoGroups())
  {
    WordDescribes("72", s, i, NoGroups());
  }

  lemma NumberComesFirst()
    ensures ArtifactName() == Cat(Word("72"), AfterNumber())
  {
  }

  lemma SomeJoined(a: Re, b: Re, t: string, i: nat, m: nat, j: nat, after: Groups)
    requires Describes(a, t, i, m, NoGroups(), NoGroups()) && Describes(b, t, m, j, NoGroups(), after)
    ensures SomeDescription(Cat(a, b), t, i)
  {
    CatJoins(a, b, t, i, m, j, NoGroups(), after);
  }

  lemma RestSplits(hour: Re, s: string, i: nat, e: nat, before: Groups, after: Groups)
    returns (a: nat, b: nat, c: nat, g: Groups)
    requires Describes(Cat(Star(SpaceKind), Cat(Opt(Lit('-')), Cat(Star(SpaceKind), hour))), s, i, e, before, after)
    ensures BlankFrom(s, i, a) && (b == a || (b == a + 1 && a < |s| && s[a] == '-')) && BlankFrom(s, b, c)
    ensures Describes(hour, s, c, e, g, after)
  {
    var second := Cat(Star(SpaceKind), hour);
    var first := Cat(Opt(Lit('-')), second);
    var g1, g2;
    a, g1 := CatDescribed(Star(SpaceKind), first, s, i, e, before, after);
    b, g2 := CatDescribed(Opt(Lit('-')), second, s, a, e, g1, after);
    OptDescribed(Lit('-'), s, a, b, g1, g2);
    c, g := CatDescribed(Star(SpaceKind), hour, s, b, e, g2, after);
    if a < |s| {
      HyphenIsItself(s[a]);
    }
  }

  lemma DescribedNames(s: string, i: nat, e: nat, after: Groups) returns (a: nat, b: nat, c: nat)
    requires Describes(ArtifactName(), s, i, e, NoGroups(), after)
    ensures Names72Hours(s, i, a, b, c)
  {
    NumberComesFirst();
    var n, g := CatDescribed(Word("72"), AfterNumber(), s, i, e, NoGroups(), after);
    WordDescribed("72", s, i, n, NoGroups(), g);
    a, b, c, g := RestSplits(HourPart(), s, n, e, g, after);
    HourDescribed(s, c, e, g, after);
  }

  lemma HourDescribed(s: string, c: nat, e: nat, before: Groups, after: Groups)
    requires Describes(HourPart(), s, c, e, before, after)
    ensures StandsAt(s, c, "hr") || StandsAt(s, c, "hour")
  {
    var mid: Groups :| Describes(Alt(Word("hr"), Word("hour")), s, c, e, before, mid) && after == mid[1 := s[c..e]];
    if Describes(Word("hr"), s, c, e, before, mid) {
      WordDescribed("hr", s, c, e, before, mid);
    } else {
      WordDescribed("hour", s, c, e, before, mid);
    }
  }

  // The file name of a schedule is found by exactly its words.
  lemma ScheduleNamed(s: string)
    ensures Search(ArtifactName(), s).Some? <==> exists i: nat, a: nat, b: nat, c: nat :: Names72Hours(s, i, a, b, c)
  {
    SearchIsLeftmost(ArtifactName(), s, 0);
    if Search(ArtifactName(), s).Some? {
      var i := Search(ArtifactName(), s).value.0;
      MatchIsDescription(ArtifactName(), s, i);
      var found := MatchAt(ArtifactName(), s, i).value;
      var a, b, c := DescribedNames(s, i, found.end, found.groups);
    }
    if i: nat, a: nat, b: nat, c: nat :| Names72Hours(s, i, a, b, c) {
      NameIsDescribed(s, i, a, b, c);
      MatchIsDescription(ArtifactName(), s, i);
    }
  }

  // ---- the links that lead to a schedule ----

  // The rest of the link up to its query.
  ghost predicate NamePart(href: Url, folder: Url, cut: nat) {
    && |folder| <= cut <= |href| && (cut == |href| || href[cut] == '?')
    && forall k :: |folder| <= k < cut ==> href[k] != '?'
  }

  ghost predicate TwoDots(name: string, i: int) { 0 <= i < |name| - 1 && name[i] == '.' && name[i + 1] == '.' }

  ghost predicate SchedulesName(name: string) {
    && '/' !in name && '\\' !in name && (forall i :: !TwoDots(name, i))
    && exists i: nat, a: nat, b: nat, c: nat :: Names72Hours(name, i, a, b, c)
  }

  // The link begins with the folder, in any case, and what follows it, decoded, is a schedule's file name.
  ghost predicate LinksSchedule(href: Url, folder: Url, unquote: string -> string) {
    && |folder| <= |href| && (forall k :: 0 <= k < |folder| ==> Lower(href[k]) == Lower(folder[k]))
    && exists cut: nat :: NamePart(href, folder, cut) && SchedulesName(unquote(href[|folder|..cut]))
  }

  lemma {:induction false} BeforeIsUpTo(s: string, c: char) returns (cut: nat)
    ensures cut <= |s| && Before(s, c) == s[..cut] && (cut == |s| || s[cut] == c)
    ensures forall k :: 0 <= k < cut ==> s[k] != c
  {
    cut := 0;
    if s != "" && s[0] != c {
      var rest := BeforeIsUpTo(s[1..], c);
      cut := rest + 1;
      assert s[..cut] == [s[0]] + s[1..][..rest];
      forall k | 0 <= k < cut ensures s[k] != c {
        assert k == 0 || s[k] == s[1..][k - 1];
      }
    }
  }

  lemma FolderLetters(href: Url, folder: Url)
    ensures UnderFolder(href, folder) <==>
            |folder| <= |href| && forall k :: 0 <= k < |folder| ==> Lower(href[k]) == Lower(folder[k])
  {
    if |folder| <= |href| {
      var mine, theirs := P.LowerText(href)[..|folder|], P.LowerText(folder);
      assert forall k :: 0 <= k < |folder| ==> mine[k] == Lower(href[k]) && theirs[k] == Lower(folder[k]);
      assert mine == theirs <==> forall k :: 0 <= k < |folder| ==> mine[k] == theirs[k];
    }
  }

  lemma NameOfLink(href: Url, folder: Url, unquote: string -> string, cut: nat)
    requires UnderFolder(href, folder) && NamePart(href, folder, cut)
    ensures FileName(href, folder, unquote) == unquote(href[|folder|..cut])
  {
    var rest := href[|folder|..];
    var at := BeforeIsUpTo(rest, '?');
    assert forall k :: 0 <= k < |rest| ==> rest[k] == href[|folder| + k];
    assert at == cut - |folder|;
    assert rest[..at] == href[|folder|..cut];
  }

  lemma LinkHasAName(href: Url, folder: Url) returns (cut: nat)
    requires |folder| <= |href|
    ensures NamePart(href, folder, cut)
  {
    var rest := href[|folder|..];
    var at := BeforeIsUpTo(rest, '?');
    assert forall k :: 0 <= k < |rest| ==> rest[k] == href[|folder| + k];
    cut := |folder| + at;
    forall k | |folder| <= k < cut ensures href[k] != '?' {
      assert href[k] == rest[k - |folder|];
    }
  }

  lemma StaysInFolder(name: string)
    ensures LeavesFolder(name) <==> '/' in name || '\\' in name || exists i :: TwoDots(name, i)
  {
    if i :| TwoDots(name, i) {
      assert name[i] == '.' && name[i + 1] == '.';
    }
    if !('/' in name || '\\' in name) && LeavesFolder(name) {
      var i :| 0 <= i < |name| - 1 && name[i] == '.' && name[i + 1] == '.';
      assert TwoDots(name, i);
    }
  }

  lemma ArtifactExactly(href: Url, folder: Url, unquote: string -> string)
    ensures IsArtifact(href, folder, unquote) <==> LinksSchedule(href, folder, unquote)
  {
    FolderLetters(href, folder);
    if UnderFolder(href, folder) {
      var cut := LinkHasAName(href, folder);
      NameIsTheFiles(href, folder, unquote, cut);
      if at: nat :| NamePart(href, folder, at) && SchedulesName(unquote(href[|folder|..at])) {
        NameIsTheFiles(href, folder, unquote, at);
      }
    }
  }

  lemma NameIsTheFiles(href: Url, folder: Url, unquote: string -> string, cut: nat)
    requires UnderFolder(href, folder) && NamePart(href, folder, cut)
    ensures IsArtifact(href, folder, unquote) <==> SchedulesName(unquote(href[|folder|..cut]))
  {
    NameOfLink(href, folder, unquote, cut);
    StaysInFolder(FileName(href, folder, unquote));
    ScheduleNamed(FileName(href, folder, unquote));
  }

  // ---- a whole fetch ----

  // What one request says.
  ghost predicate Says(wire: Wire, r: Result<Page>) {
    && (r.Success? <==> wire.Answer? && wire.code == 200 && wire.payload.Some?)
    && (r.Success? ==> Carried(wire.payload.value, r.value))
    && (r.Failure? ==> WireTrouble(wire, r.error))
  }

  lemma FetchedSays(wire: Wire)
    ensures Says(wire, Fetched(wire))
  {
    FetchedExactly(wire);
  }

  ghost predicate FirstSchedule(hrefs: seq<Url>, folder: Url, unquote: string -> string, k: int) {
    && 0 <= k < |hrefs| && LinksSchedule(hrefs[k], folder, unquote)
    && forall j :: 0 <= j < k ==> !LinksSchedule(hrefs[j], folder, unquote)
  }

  lemma {:induction false} FirstIsFirst(hrefs: seq<Url>, folder: Url, unquote: string -> string)
    ensures FirstArtifact(hrefs, folder, unquote).None? <==>
            forall j :: 0 <= j < |hrefs| ==> !LinksSchedule(hrefs[j], folder, unquote)
    ensures forall k :: FirstSchedule(hrefs, folder, unquote, k) ==>
              FirstArtifact(hrefs, folder, unquote) == Some(hrefs[k])
  {
    if hrefs != [] {
      ArtifactExactly(hrefs[0], folder, unquote);
      FirstIsFirst(hrefs[1..], folder, unquote);
      forall k | FirstSchedule(hrefs, folder, unquote, k)
        ensures FirstArtifact(hrefs, folder, unquote) == Some(hrefs[k])
      {
        assert k > 0 ==> FirstSchedule(hrefs[1..], folder, unquote, k - 1);
      }
    }
  }

  // What is answered for an artifact, given what was read of its terminal's page.
  ghost predicate SaysBehind(page: Result<Page>, pageUrl: Url, artifact: Source, outside: Outside, r: Result<Page>) {
    match page
    case Failure(e) => r == Failure(e)
    case Success(p) =>
      if p.status < 200 || p.status >= 300 || p.document == None then
        r == Failure(ApplicationError(Unavailable, "source_provider.artifact_parent_unreachable", true))
      else
        var hrefs := outside.links(p.document.value, pageUrl);
        && ((forall j :: 0 <= j < |hrefs| ==> !LinksSchedule(hrefs[j], artifact.identity.url, outside.unquote)) ==>
              r == Failure(ApplicationError(Unavailable, "source_provider.artifact_not_linked", true)))
        && forall k :: FirstSchedule(hrefs, artifact.identity.url, outside.unquote, k) ==>
             Says(outside.web(hrefs[k], Markdown), r)
  }

  lemma BehindAPage(page: Result<Page>, pageUrl: Url, artifact: Source, outside: Outside)
    ensures SaysBehind(page, pageUrl, artifact, outside, ArtifactBehind(page, pageUrl, artifact, outside))
  {
    if page.Success? && 200 <= page.value.status < 300 && page.value.document.Some? {
      var hrefs := outside.links(page.value.document.value, pageUrl);
      FirstIsFirst(hrefs, artifact.identity.url, outside.unquote);
      forall k | FirstSchedule(hrefs, artifact.identity.url, outside.unquote, k)
        ensures Says(outside.web(hrefs[k], Markdown), ArtifactBehind(page, pageUrl, artifact, outside))
      {
        FetchedSays(outside.web(hrefs[k], Markdown));
      }
    }
  }

  // A terminal page of the artifact's terminal that may be retrieved.
  ghost predicate MayLead(s: Source, artifact: Source, switches: seq<KillSwitch>) {
    s.kind == TerminalPage && s.terminalId == artifact.terminalId && Granted(s, Retrieve, switches)
  }

  ghost predicate FirstLead(sources: seq<Source>, artifact: Source, switches: seq<KillSwitch>, k: int) {
    && 0 <= k < |sources| && MayLead(sources[k], artifact, switches)
    && forall j :: 0 <= j < k ==> !MayLead(sources[j], artifact, switches)
  }

  lemma {:induction false} ParentIsFirstLead(sources: seq<Source>, artifact: Source, switches: seq<KillSwitch>)
    ensures ParentPage(sources, artifact, switches).None? <==>
            forall j :: 0 <= j < |sources| ==> !MayLead(sources[j], artifact, switches)
    ensures forall k :: FirstLead(sources, artifact, switches, k) ==>
              ParentPage(sources, artifact, switches) == Some(sources[k])
  {
    if sources != [] {
      AuthorizedExactly(sources[0], Retrieve, switches);
      ParentIsFirstLead(sources[1..], artifact, switches);
      forall k | FirstLead(sources, artifact, switches, k)
        ensures ParentPage(sources, artifact, switches) == Some(sources[k])
      {
        assert k > 0 ==> FirstLead(sources[1..], artifact, switches, k - 1);
      }
    }
  }

  // A fetch asks for the source's own page as HTML; for a schedule artifact it asks for the first terminal
  // page of its terminal that may be retrieved, and then for the text of the first schedule linked there.
  ghost predicate FetchSays(sources: seq<Source>, switches: seq<KillSwitch>, source: Source, outside: Outside,
                            r: Result<Page>) {
    if !Granted(source, Retrieve, switches) then
      r == Failure(ApplicationError(InvalidInput, "source_provider.not_authorized", false))
    else if source.kind != ScheduleArtifact then Says(outside.web(source.identity.url, RawHtml), r)
    else
      && ((forall j :: 0 <= j < |sources| ==> !MayLead(sources[j], source, switches)) ==>
            r == Failure(ApplicationError(InvalidInput, "source_provider.artifact_parent_missing", false)))
      && forall k :: FirstLead(sources, source, switches, k) ==>
           exists page :: Says(outside.web(sources[k].identity.url, RawHtml), page)
                          && SaysBehind(page, sources[k].identity.url, source, outside, r)
  }

  lemma FetchExactly(sources: seq<Source>, switches: seq<KillSwitch>, source: Source, outside: Outside)
    ensures FetchSays(sources, switches, source, outside, FetchUncached(sources, switches, source, outside))
  {
    AuthorizedExactly(source, Retrieve, switches);
    ParentIsFirstLead(sources, source, switches);
    FetchedSays(outside.web(source.identity.url, RawHtml));
    var r := FetchUncached(sources, switches, source, outside);
    if Granted(source, Retrieve, switches) && source.kind == ScheduleArtifact {
      forall k | FirstLead(sources, source, switches, k)
        ensures exists page :: Says(outside.web(sources[k].identity.url, RawHtml), page)
                               && SaysBehind(page, sources[k].identity.url, source, outside, r)
      {
        var url := sources[k].identity.url;
        FetchedSays(outside.web(url, RawHtml));
        BehindAPage(Fetched(outside.web(url, RawHtml)), url, source, outside);
      }
    }
  }

  // A call about a registered source is answered with its page; a call about any other identity is refused.
  lemma DocumentExactly(sources: seq<Source>, switches: seq<KillSwitch>, source: Source, outside: Outside)
    requires DistinctSources(sources) && source in sources
    ensures FetchSays(sources, switches, source, outside, DocumentUncached(sources, switches, source.identity, outside))
  {
    RegisteredIsItself(sources, source);
    FetchExactly(sources, switches, source, outside);
  }

  lemma UnknownIsRefused(sources: seq<Source>, switches: seq<KillSwitch>, zones: map<Uuid, string>,
                         who: SourceIdentity, at: Time, id: Uuid, outside: Outside)
    requires forall s :: s in sources ==> s.identity != who
    ensures var refusal := ApplicationError(InvalidInput, "source_provider.unknown_source", false);
            && DocumentUncached(sources, switches, who, outside) == Failure(refusal)
            && ObserveUncached(sources, switches, zones, who, at, id, outside) == Failure(refusal)
  {
  }
}
