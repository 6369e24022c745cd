/**
 * The richer server (cmcp.py): the base fetch of one Pokemon with its status
 * mapping, the enhanced fetch that adds a generated description, and the
 * battle, counter and team endpoints that feed the model's replies to the
 * parsers. The upstream data service is the function `respond` from request
 * key to outcome; each language-model call is a function from its inputs to
 * the reply, None when the call raises.
 */
module RichServer {
  import opened Wrappers
  import opened Text
  import opened PokeApi
  import opened LineFields
  import opened BattleParser
  import opened Blocks
  import opened CounterParser
  import opened TeamParser

  const EmptyName := "Pokemon name cannot be empty"

  /** `name.lower().strip()`: the key the upstream request is made for. */
  function Key(name: string): (k: string)
    ensures k == Lower(Strip(name))
    ensures Strip(k) == k
    ensures forall i :: 0 <= i < |k| ==> !IsUpper(k[i])
  {
    var lowered := Lower(name);
    StripIdempotent(lowered);
    StripLower(name);
    Strip(lowered)
  }

  /** Lowering case neither creates nor removes whitespace. */
  lemma LowerKeepsSpace(s: string)
    ensures forall i :: 0 <= i < |s| ==> (IsSpace(Lower(s)[i]) <==> IsSpace(s[i]))
  {
  }

  /** A name is rejected as blank exactly when its key would be empty. */
  lemma BlankIffEmptyKey(name: string)
    ensures Strip(name) == [] <==> Key(name) == []
  {
    LowerKeepsSpace(name);
    StripBlank(name);
    StripBlank(Lower(name));
  }

  /**
   * `_fetch_base_pokemon_data`: a blank name is refused before any request;
   * otherwise the outcome of the request for the key decides. An HTTP error
   * status gives 404 with the name echoed or passes the status through; a
   * body that is not JSON (requests' own JSON error is a RequestException)
   * and every other request failure give 503; a payload that lacks a key
   * raises KeyError, which every caller reports as a 500.
   */
  function FetchBase(name: string, respond: string -> Upstream): (r: Result<Record, Fault>)
    ensures r.Err? ==> RaisesForStatus(r.error.status)
    ensures r.Ok? ==> r.value.description.None?
  {
    if Strip(name) == [] then Err(Fault(400, EmptyName))
    else match respond(Key(name))
      case Responded(status, body) =>
        if RaisesForStatus(status) then
          if status == 404 then Err(Fault(404, "Pokemon '" + name + "' not found"))
          else Err(Fault(status, "PokeAPI error: "))
        else (match body
          case NotJson => Err(Fault(503, "Network error: "))
          case MissingKey => Err(Fault(500, ""))
          case Document(p) => Ok(Normalise(p)))
      case _ => Err(Fault(503, "Network error: "))
  }

  /** Whatever the upstream does, a blank name is refused with 400. */
  lemma BlankNameRefused(name: string, respond: string -> Upstream)
    requires Strip(name) == []
    ensures FetchBase(name, respond) == Err(Fault(400, EmptyName))
  {
  }

  /** A fetch depends on the upstream only through the outcome for the name's key. */
  lemma FetchBaseByKey(name: string, respond: string -> Upstream, other: string -> Upstream)
    requires respond(Key(name)) == other(Key(name))
    ensures FetchBase(name, respond) == FetchBase(name, other)
  {
  }

  /**
   * Two names with the same key fetch the same record; only the 404 detail,
   * which echoes the name as given, tells them apart.
   */
  lemma SameKeySameRecord(a: string, b: string, respond: string -> Upstream)
    requires Key(a) == Key(b)
    ensures FetchBase(a, respond).Ok? <==> FetchBase(b, respond).Ok?
    ensures FetchBase(a, respond).Ok? ==> FetchBase(a, respond).value == FetchBase(b, respond).value
    ensures FetchBase(a, respond).Err? ==> FetchBase(a, respond).error.status == FetchBase(b, respond).error.status
  {
    BlankIffEmptyKey(a);
    BlankIffEmptyKey(b);
    if Strip(a) != [] {
      assert respond(Key(a)) == respond(Key(b));
    }
  }

  /** Upstream 404 becomes 404 with the name echoed; other HTTP errors keep their status. */
  lemma HttpErrorStatuses(name: string, respond: string -> Upstream)
    requires Strip(name) != [] && respond(Key(name)).Responded? && RaisesForStatus(respond(Key(name)).status)
    ensures var s := respond(Key(name)).status;
      FetchBase(name, respond) == if s == 404 then Err(Fault(404, "Pokemon '" + name + "' not found")) else Err(Fault(s, "PokeAPI error: "))
  {
  }

  /**
   * The status of every outcome for a name that is not blank: an HTTP error
   * as above, 503 for every failure of the request itself, a body that is
   * not JSON included, 500 for a payload that lacks a key, and otherwise
   * the normalised record; a blank name gives 400 whatever the outcome.
   */
  lemma FetchStatuses(name: string, respond: string -> Upstream)
    ensures Strip(name) == [] ==> FetchBase(name, respond) == Err(Fault(400, EmptyName))
    ensures Strip(name) != [] ==> match respond(Key(name))
      case Responded(s, body) =>
        if RaisesForStatus(s) then
          FetchBase(name, respond) == if s == 404 then Err(Fault(404, "Pokemon '" + name + "' not found")) else Err(Fault(s, "PokeAPI error: "))
        else if body.Document? then FetchBase(name, respond) == Ok(Normalise(body.payload))
        else if body.NotJson? then FetchBase(name, respond) == Err(Fault(503, "Network error: "))
        else FetchBase(name, respond) == Err(Fault(500, ""))
      case ConnectionFailed => FetchBase(name, respond) == Err(Fault(503, "Network error: "))
      case ConnectTimedOut => FetchBase(name, respond) == Err(Fault(503, "Network error: "))
      case ReadTimedOut => FetchBase(name, respond) == Err(Fault(503, "Network error: "))
      case OtherRequestFailure => FetchBase(name, respond) == Err(Fault(503, "Network error: "))
  {
  }

  /** The secondary lookup of the counter and team parsers: a base fetch whose every failure is swallowed. */
  function Found(n: string, respond: string -> Upstream): Option<Record> {
    Success(FetchBase(n, respond))
  }

  /** The lookup as the function value the parsers receive. */
  function Lookup(respond: string -> Upstream): string -> Option<Record> {
    n => Found(n, respond)
  }

  /**
   * The lookup finds a record exactly when the base fetch of the name
   * succeeds, and then finds that record; a blank name finds nothing.
   */
  lemma LookupSpec(n: string, respond: string -> Upstream)
    ensures Lookup(respond)(n) == Found(n, respond)
    ensures Found(n, respond).Some? <==> FetchBase(n, respond).Ok?
    ensures Found(n, respond).Some? ==> Found(n, respond).value == FetchBase(n, respond).value
    ensures Strip(n) == [] ==> Found(n, respond).None?
  {
  }

  /** For a name the upstream serves, the lookup finds the normalised payload. */
  lemma LookupFinds(n: string, respond: string -> Upstream, status: int, p: Payload)
    requires Strip(n) != [] && respond(Key(n)) == Responded(status, Document(p)) && !RaisesForStatus(status)
    ensures Found(n, respond) == Some(Normalise(p))
  {
    assert FetchBase(n, respond) == Ok(Normalise(p));
  }

  /** `f"{name} is a {'/'.join(types)} type Pokemon."` */
  function FallbackDescription(rec: Record): string {
    rec.name + " is a " + Join(rec.types, "/") + " type Pokemon."
  }

  /**
   * `fetch_enhanced_pokemon_data`: the base record with, on request, the
   * stripped generated description or the fallback sentence. Every failure
   * of the base fetch, the 400 and the 404 included, becomes a 500.
   */
  function FetchEnhanced(name: string, respond: string -> Upstream, includeDescription: bool, describe: Record -> Option<string>): (r: Result<Record, Fault>)
    ensures r.Err? ==> r.error == Fault(500, "Data retrieval failed: ")
    ensures r.Ok? <==> FetchBase(name, respond).Ok?
    ensures r.Ok? ==> r.value == FetchBase(name, respond).value.(description := r.value.description)
    ensures r.Ok? ==> (r.value.description.Some? <==> includeDescription)
    ensures r.Ok? && includeDescription ==> var base := FetchBase(name, respond).value;
      r.value.description == Some(if describe(base).Some? then Strip(describe(base).value) else FallbackDescription(base))
  {
    match FetchBase(name, respond)
    case Err(_) => Err(Fault(500, "Data retrieval failed: "))
    case Ok(base) =>
      if !includeDescription then Ok(base)
      else match describe(base)
        case Some(text) => Ok(base.(description := Some(Strip(text))))
        case None => Ok(base.(description := Some(FallbackDescription(base))))
  }

  /**
   * When the description cannot be generated, the fallback names the
   * Pokemon and its types, which can be read back by cutting at `/`.
   */
  lemma DescriptionFallback(name: string, respond: string -> Upstream, describe: Record -> Option<string>)
    requires FetchBase(name, respond).Ok? && describe(FetchBase(name, respond).value).None?
    requires var ts := FetchBase(name, respond).value.types;
      |ts| >= 1 && forall k :: 0 <= k < |ts| ==> '/' !in ts[k]
    ensures var base := FetchBase(name, respond).value;
      exists middle :: FetchEnhanced(name, respond, true, describe).value.description
        == Some(base.name + " is a " + middle + " type Pokemon.") && Split(middle, '/') == base.types
  {
    var base := FetchBase(name, respond).value;
    SplitJoin(base.types, '/');
    assert Join(base.types, "/") == Join(base.types, ['/']);
  }

  /** `/compare`: two enhanced fetches in order; the first failure is the answer. */
  function Compare(name1: string, name2: string, respond: string -> Upstream, describe: Record -> Option<string>): (r: Result<(Record, Record), Fault>)
    ensures r.Err? ==> r.error == Fault(500, "Data retrieval failed: ")
  {
    match FetchEnhanced(name1, respond, true, describe)
    case Err(e) => Err(e)
    case Ok(first) =>
      match FetchEnhanced(name2, respond, true, describe)
      case Err(e) => Err(e)
      case Ok(second) => Ok((first, second))
  }

  /** The comparison succeeds exactly when both fetches do; it never answers 404. */
  lemma CompareSpec(name1: string, name2: string, respond: string -> Upstream, describe: Record -> Option<string>)
    ensures var r := Compare(name1, name2, respond, describe);
      (r.Ok? <==> FetchBase(name1, respond).Ok? && FetchBase(name2, respond).Ok?)
      && (r.Ok? ==> r.value == (FetchEnhanced(name1, respond, true, describe).value, FetchEnhanced(name2, respond, true, describe).value))
      && (r.Err? ==> r.error.status == 500)
  {
  }

  datatype Battle = Battle(pokemon1: Record, pokemon2: Record, result: Verdict)

  /**
   * `/battle`: two base fetches, whose failures pass through unchanged, then
   * the model's verdict, parsed; a failed model call is a 500.
   */
  method HeadToHead(name1: string, name2: string, respond: string -> Upstream, judge: (Record, Record) -> Option<string>)
    returns (r: Result<Battle, Fault>)
    ensures FetchBase(name1, respond).Err? ==> r == Err(FetchBase(name1, respond).error)
    ensures FetchBase(name1, respond).Ok? && FetchBase(name2, respond).Err? ==> r == Err(FetchBase(name2, respond).error)
    ensures FetchBase(name1, respond).Ok? && FetchBase(name2, respond).Ok? ==>
      var a, b := FetchBase(name1, respond).value, FetchBase(name2, respond).value;
      r == match judge(a, b)
        case None => Err(Fault(500, ""))
        case Some(reply) => Ok(Battle(a, b, VerdictOf(Lines(reply))))
  {
    var first := FetchBase(name1, respond);
    if first.Err? {
      return Err(first.error);
    }
    var second := FetchBase(name2, respond);
    if second.Err? {
      return Err(second.error);
    }
    var reply := judge(first.value, second.value);
    if reply.None? {
      return Err(Fault(500, ""));
    }
    var verdict := ParseVerdict(reply.value);
    r := Ok(Battle(first.value, second.value, verdict));
  }

  datatype Counsel = Counsel(target: Record, counters: seq<Counter>)

  /**
   * `/counters`: the target's base fetch, whose failure passes through, the
   * model's suggestions parsed into blocks, and each block turned into a
   * counter with the sprite of a lookup of its name.
   */
  method SuggestCounters(name: string, respond: string -> Upstream, suggest: Record -> Option<string>)
    returns (r: Result<Counsel, Fault>)
    ensures FetchBase(name, respond).Err? ==> r == Err(FetchBase(name, respond).error)
    ensures FetchBase(name, respond).Ok? ==>
      r == CounselOf(FetchBase(name, respond).value, suggest(FetchBase(name, respond).value), Lookup(respond))
  {
    var target := FetchBase(name, respond);
    if target.Err? {
      return Err(target.error);
    }
    var reply := suggest(target.value);
    if reply.None? {
      return Err(Fault(500, ""));
    }
    NoteMarkers();
    var drafts := ParseBlocks(reply.value, "Reason:");
    var counters := CountersOf(drafts, Lookup(respond));
    if counters.Err? {
      return Err(counters.error);
    }
    r := Ok(Counsel(target.value, counters.value));
  }

  /**
   * The tail of `/counters`: a failed model call is a 500; otherwise the
   * counters built from the blocks of the reply, or the 500 of the first
   * incomplete one.
   */
  function CounselOf(target: Record, reply: Option<string>, lookup: string -> Option<Record>): (r: Result<Counsel, Fault>)
    ensures r.Err? ==> r.error == Fault(500, "")
    ensures r.Ok? ==> r.value.target == target
  {
    match reply
    case None => Err(Fault(500, ""))
    case Some(text) =>
      match CountersOf(CounterBlocks(text), lookup)
      case Err(e) => Err(e)
      case Ok(counters) => Ok(Counsel(target, counters))
  }

  /**
   * The counters response exists exactly when the model answered and every
   * block it emitted has a name, a type and a reason; it then lists one
   * counter per block, for the target that was fetched.
   */
  lemma CounselSpec(target: Record, reply: Option<string>, lookup: string -> Option<Record>)
    ensures var r := CounselOf(target, reply, lookup);
      (r.Ok? <==> reply.Some? && forall d :: d in CounterBlocks(reply.value) ==> Complete(d))
      && (r.Err? ==> r.error.status == 500)
      && (r.Ok? ==> r.value.target == target && |r.value.counters| == |CounterBlocks(reply.value)|)
  {
    if reply.Some? {
      var ds := CounterBlocks(reply.value);
      CountersOfSpec(ds, lookup);
      assert (forall d :: d in ds ==> Complete(d)) <==> (forall k :: 0 <= k < |ds| ==> Complete(ds[k]));
    }
  }

  /** The blocks of a counter reply, whose third field is `Reason:`. */
  function CounterBlocks(reply: string): seq<Draft> {
    NoteMarkers();
    Entries(Lines(reply), "Reason:")
  }

  /** The blocks of a team reply, whose third field is `Role:`. */
  function TeamBlocks(reply: string): seq<Draft> {
    NoteMarkers();
    Entries(Lines(reply), "Role:")
  }

  lemma NoteMarkers()
    ensures NoteMarker("Reason:") && NoteMarker("Role:")
  {
    assert "Reason:"[..6] == "Reason";
    assert "Role:"[..4] == "Role";
  }

  datatype TeamReport = TeamReport(team: seq<Member>, analysis: string, description: string)

  /**
   * The tail of `/team/generate`: the summary of the parsed team decides
   * failure, and the model's analysis of it, or the fallback sentence when
   * that call fails, completes the response.
   */
  function Report(description: string, team: seq<Member>, analyze: (string, string) -> Option<string>): (r: Result<TeamReport, Fault>)
    ensures r.Err? ==> r.error == Fault(500, "")
    ensures r.Ok? ==> r.value.team == team && r.value.description == description
  {
    match Summary(team)
    case Err(e) => Err(e)
    case Ok(summary) =>
      Ok(TeamReport(team, match analyze(description, summary) case None => FallbackAnalysis case Some(a) => a, description))
  }

  /**
   * The team response exists exactly when every member has a name and a
   * role; it keeps the team and the description, and its analysis is the
   * text of the analysis call, or the fallback sentence when that call fails.
   */
  lemma ReportSpec(description: string, team: seq<Member>, analyze: (string, string) -> Option<string>)
    ensures Report(description, team, analyze).Ok? <==> forall k :: 0 <= k < |team| ==> Named(team[k])
    ensures Report(description, team, analyze).Err? ==> Report(description, team, analyze).error.status == 500
    ensures Report(description, team, analyze).Ok? ==>
      var report := Report(description, team, analyze).value;
      report.team == team && report.description == description
      && (analyze(description, Summary(team).value).None? ==> report.analysis == FallbackAnalysis)
      && (analyze(description, Summary(team).value).Some? ==> report.analysis == analyze(description, Summary(team).value).value)
  {
    SummaryDefined(team);
  }

  /**
   * `/team/generate`: the model's team parsed into blocks, each block a
   * member completed by a lookup of its name, then the report on that team.
   * A failed team call is a 500.
   */
  method GenerateTeam(description: string, respond: string -> Upstream, compose: string -> Option<string>, analyze: (string, string) -> Option<string>)
    returns (r: Result<TeamReport, Fault>)
    ensures compose(description).None? ==> r == Err(Fault(500, ""))
    ensures compose(description).Some? ==>
      r == Report(description, TeamOf(TeamBlocks(compose(description).value), Lookup(respond)), analyze)
  {
    var reply := compose(description);
    if reply.None? {
      return Err(Fault(500, ""));
    }
    NoteMarkers();
    var drafts := ParseBlocks(reply.value, "Role:");
    var team := TeamOf(drafts, Lookup(respond));
    r := Report(description, team, analyze);
  }
}
