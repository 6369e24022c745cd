/**
 * The simpler server (nmcp.py): its own fetch of one Pokemon with a finer
 * status mapping, the comparison of two, and the decoding of the language
 * model's replies for teams and counters, which falls back to the greedy
 * `[...]` span of the reply when the reply as a whole is not JSON.
 */
module SimpleServer {
  import opened Wrappers
  import opened Text
  import opened PokeApi
  import RichServer

  const EmptyName := "Pok\U{E9}mon name cannot be empty."
  const Unreachable := "Connection Error: Could not reach PokeAPI. Please check server's internet connection."
  const TooSlow := "Timeout Error: PokeAPI took too long to respond."
  const RequestFailed := "An unexpected error occurred during API request: "
  const Internal := "An internal server error occurred: "

  /**
   * `_fetch_pokemon_data_from_pokeapi`: only the empty name is refused; the
   * request is made for `name.lower()`, untrimmed. An HTTP error status gives
   * 404 with the name echoed or passes the status through; a connection
   * failure (a connect timeout included) gives 503, a read timeout 504, any
   * other request failure (a body that is not JSON included) 500, and a
   * payload that lacks a key 500.
   */
  function Fetch(name: string, respond: string -> Upstream): (r: Result<Record, Fault>)
    ensures r.Err? ==> RaisesForStatus(r.error.status)
    ensures r.Ok? ==> r.value.description.None?
  {
    if name == [] then Err(Fault(400, EmptyName))
    else match respond(Lower(name))
      case Responded(status, body) =>
        if RaisesForStatus(status) then
          if status == 404 then Err(Fault(404, "Pok\U{E9}mon '" + name + "' not found. Please check the spelling."))
          else Err(Fault(status, "HTTP Error: "))
        else (match body
          case NotJson => Err(Fault(500, RequestFailed))
          case MissingKey => Err(Fault(500, Internal))
          case Document(p) => Ok(Normalise(p)))
      case ConnectionFailed => Err(Fault(503, Unreachable))
      case ConnectTimedOut => Err(Fault(503, Unreachable))
      case ReadTimedOut => Err(Fault(504, TooSlow))
      case OtherRequestFailure => Err(Fault(500, RequestFailed))
  }

  /** The empty-name refusal happens exactly for the empty name, whatever the upstream says. */
  lemma OnlyEmptyRefused(name: string, respond: string -> Upstream)
    ensures Fetch(name, respond) == Err(Fault(400, EmptyName)) <==> name == []
  {
    if name != [] {
      assert "HTTP Error: "[0] != EmptyName[0];
    }
  }

  /**
   * The status of every outcome for a non-empty name: 404 with the name
   * echoed or the HTTP error status passed through, 503 for a connection
   * failure or connect timeout, 504 for a read timeout, 500 for any other
   * request failure, a body that is not JSON included, 500 for a payload
   * that lacks a key, and otherwise the normalised record.
   */
  lemma FetchStatuses(name: string, respond: string -> Upstream)
    ensures name == [] ==> Fetch(name, respond) == Err(Fault(400, EmptyName))
    ensures name != [] ==> match respond(Lower(name))
      case Responded(s, body) =>
        if RaisesForStatus(s) then
          Fetch(name, respond) == if s == 404 then Err(Fault(404, "Pok\U{E9}mon '" + name + "' not found. Please check the spelling.")) else Err(Fault(s, "HTTP Error: "))
        else if body.Document? then Fetch(name, respond) == Ok(Normalise(body.payload))
        else if body.NotJson? then Fetch(name, respond) == Err(Fault(500, RequestFailed))
        else Fetch(name, respond) == Err(Fault(500, Internal))
      case ConnectionFailed => Fetch(name, respond) == Err(Fault(503, Unreachable))
      case ConnectTimedOut => Fetch(name, respond) == Err(Fault(503, Unreachable))
      case ReadTimedOut => Fetch(name, respond) == Err(Fault(504, TooSlow))
      case OtherRequestFailure => Fetch(name, respond) == Err(Fault(500, RequestFailed))
  {
  }

  /**
   * For a stripped, non-empty name the two servers fail with the same status
   * except where the simpler one is finer: a read timeout (504 against 503)
   * and any other request failure or a body that is not JSON (500 against
   * 503).
   */
  lemma StatusesCompared(name: string, respond: string -> Upstream)
    requires name != [] && Strip(name) == name
    ensures Fetch(name, respond).Err? <==> RichServer.FetchBase(name, respond).Err?
    ensures var u := respond(Lower(name));
      Fetch(name, respond).Err? ==>
        Fetch(name, respond).error.status ==
          if u.ReadTimedOut? then 504
          else if u.OtherRequestFailure? || (u.Responded? && !RaisesForStatus(u.status) && u.body.NotJson?) then 500
          else RichServer.FetchBase(name, respond).error.status
  {
    ServersAgreeOnRecords(name, respond);
  }

  /** A fetch depends on the upstream only through the outcome for the lowered name. */
  lemma FetchByLowerName(name: string, respond: string -> Upstream, other: string -> Upstream)
    requires respond(Lower(name)) == other(Lower(name))
    ensures Fetch(name, respond) == Fetch(name, other)
  {
  }

  /**
   * A whitespace-only name: the richer server refuses it with 400 before any
   * request, the simpler one requests it unchanged and reports what the
   * upstream answers for it.
   */
  lemma BlankNamesDiffer(name: string, respond: string -> Upstream)
    requires name != [] && Strip(name) == []
    ensures RichServer.FetchBase(name, respond) == Err(Fault(400, RichServer.EmptyName))
    ensures Fetch(name, respond) != Err(Fault(400, EmptyName))
    ensures respond(Lower(name)) == ConnectionFailed ==> Fetch(name, respond) == Err(Fault(503, Unreachable))
  {
    OnlyEmptyRefused(name, respond);
  }

  /**
   * For a stripped, non-empty name both servers request the same key and
   * succeed with the same record, or both fail.
   */
  lemma ServersAgreeOnRecords(name: string, respond: string -> Upstream)
    requires name != [] && Strip(name) == name
    ensures RichServer.Key(name) == Lower(name)
    ensures Fetch(name, respond).Ok? <==> RichServer.FetchBase(name, respond).Ok?
    ensures Fetch(name, respond).Ok? ==> Fetch(name, respond).value == RichServer.FetchBase(name, respond).value
  {
    var lowered := Lower(name);
    assert !IsSpace(name[0]) && !IsSpace(name[|name| - 1]);
    assert lowered[0] == LowerChar(name[0]) && lowered[|lowered| - 1] == LowerChar(name[|name| - 1]);
    StripFixpoint(lowered);
  }

  /** The two servers disagree on a read timeout: 504 here, 503 there. */
  lemma TimeoutStatuses(name: string, respond: string -> Upstream)
    requires Strip(name) != [] && respond(Lower(name)) == ReadTimedOut && respond(RichServer.Key(name)) == ReadTimedOut
    ensures Fetch(name, respond).Err? && Fetch(name, respond).error.status == 504
    ensures RichServer.FetchBase(name, respond).Err? && RichServer.FetchBase(name, respond).error.status == 503
  {
  }

  /** `/compare`: two fetches in order; the first failure is the answer, with its status unchanged. */
  function Compare(name1: string, name2: string, respond: string -> Upstream): (r: Result<(Record, Record), Fault>)
    ensures r.Err? ==> RaisesForStatus(r.error.status)
    ensures r.Ok? ==> r.value.0.description.None? && r.value.1.description.None?
  {
    match Fetch(name1, respond)
    case Err(e) => Err(e)
    case Ok(first) =>
      match Fetch(name2, respond)
      case Err(e) => Err(e)
      case Ok(second) => Ok((first, second))
  }

  /** The comparison holds both records exactly when both fetches succeed, and otherwise the first failure. */
  lemma CompareSpec(name1: string, name2: string, respond: string -> Upstream)
    ensures Compare(name1, name2, respond).Ok? <==> Fetch(name1, respond).Ok? && Fetch(name2, respond).Ok?
    ensures Compare(name1, name2, respond).Ok? ==> Compare(name1, name2, respond).value == (Fetch(name1, respond).value, Fetch(name2, respond).value)
    ensures Fetch(name1, respond).Err? ==> Compare(name1, name2, respond) == Err(Fetch(name1, respond).error)
    ensures Fetch(name1, respond).Ok? && Fetch(name2, respond).Err? ==> Compare(name1, name2, respond) == Err(Fetch(name2, respond).error)
  {
  }

  /** A match of `\[.*\]` with DOTALL: a `[` and a later `]`. */
  predicate Span(text: string, a: int, b: int) {
    0 <= a < b < |text| && text[a] == '[' && text[b] == ']'
  }

  /** The match `re.search` reports: the leftmost start and, from it, the longest (greedy) end. */
  ghost predicate Leftmost(text: string, a: int, b: int) {
    Span(text, a, b) && forall a', b' :: Span(text, a', b') ==> a < a' || (a == a' && b' <= b)
  }

  /** `re.search(r"\[.*\]", text, re.DOTALL)`: from the first `[` to the last `]`, when that `]` comes later. */
  function ExtractArray(text: string): (r: Option<string>)
    ensures r.Some? ==> |r.value| >= 2 && r.value[0] == '[' && r.value[|r.value| - 1] == ']'
  {
    if '[' !in text || ']' !in text then None
    else
      var a := IndexOf(text, '[');
      var b := LastIndexOf(text, ']');
      if a < b then Some(text[a..b + 1]) else None
  }

  /**
   * The extraction is the regular-expression search: nothing exactly when no
   * `[` has a `]` after it, and otherwise the text of the leftmost-longest
   * match, which exists.
   */
  lemma ExtractArraySpec(text: string)
    ensures ExtractArray(text).None? <==> forall a, b :: !Span(text, a, b)
    ensures forall a, b :: Leftmost(text, a, b) ==> ExtractArray(text) == Some(text[a..b + 1])
    ensures ExtractArray(text).Some? ==> exists a, b :: Leftmost(text, a, b)
  {
    if '[' in text && ']' in text {
      var a := IndexOf(text, '[');
      var b := LastIndexOf(text, ']');
      forall a', b' | Span(text, a', b')
        ensures a <= a' && b' <= b
      {
      }
      if a < b {
        assert Leftmost(text, a, b);
        forall a2, b2 | Leftmost(text, a2, b2)
          ensures a2 == a && b2 == b
        {
          assert Span(text, a, b);
        }
      }
    } else {
      forall a, b | Span(text, a, b)
        ensures false
      {
      }
    }
  }

  /** The two model endpoints that decode a JSON list from the reply. */
  datatype Ask = TeamAsk | CounterAsk

  /** The detail prefix of the endpoint's 500. */
  function ErrorPrefix(ask: Ask): string {
    match ask
    case TeamAsk => "Team generation error: "
    case CounterAsk => "Counter suggestion error: "
  }

  /** The message raised when the reply holds no `[...]` span. */
  function NoList(ask: Ask): string {
    match ask
    case TeamAsk => "Could not parse team from Gemini response."
    case CounterAsk => "Could not parse counters from Gemini response."
  }

  /**
   * `generate_team` and `suggest_counters`: the reply decoded as JSON
   * (`load`, None when `json.loads` raises), else its greedy `[...]` span
   * decoded. A failed model call, a failed decoding and a reply without a
   * span are all 500s.
   */
  function Decode<J>(ask: Ask, reply: Option<string>, load: string -> Option<J>): (r: Result<J, Fault>)
    ensures r.Err? ==> r.error.status == 500
  {
    match reply
    case None => Err(Fault(500, ErrorPrefix(ask)))
    case Some(raw) =>
      match load(raw)
      case Some(j) => Ok(j)
      case None =>
        match ExtractArray(raw)
        case None => Err(Fault(500, ErrorPrefix(ask) + NoList(ask)))
        case Some(span) =>
          match load(span)
          case Some(j) => Ok(j)
          case None => Err(Fault(500, ErrorPrefix(ask)))
  }

  /**
   * The whole reply is tried first; the span is used only when it fails; and
   * the no-list error is reported exactly when neither the reply decodes nor
   * any `[` has a `]` after it.
   */
  lemma DecodeSpec<J>(ask: Ask, raw: string, load: string -> Option<J>)
    ensures load(raw).Some? ==> Decode(ask, Some(raw), load) == Ok(load(raw).value)
    ensures load(raw).None? && ExtractArray(raw).Some? ==>
      Decode(ask, Some(raw), load) == (match load(ExtractArray(raw).value) case Some(j) => Ok(j) case None => Err(Fault(500, ErrorPrefix(ask))))
    ensures Decode(ask, Some(raw), load) == Err(Fault(500, ErrorPrefix(ask) + NoList(ask)))
      <==> load(raw).None? && forall a, b :: !Span(raw, a, b)
  {
    ExtractArraySpec(raw);
    assert |ErrorPrefix(ask) + NoList(ask)| != |ErrorPrefix(ask)|;
  }
}
