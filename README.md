# Pokemon MCP servers — a Dafny model of the request handling

The repository holds two FastAPI servers that front the public PokeAPI and a
text-generation model for AI agents:

- `cmcp.py`, the richer server. It serves `/pokemon`, `/compare`, `/battle`,
  `/counters` and `/team/generate`. It fetches and normalises PokeAPI records,
  enriches them with model-written descriptions, and turns the model's
  line-oriented replies into a battle verdict, counter suggestions and a team.
- `nmcp.py`, the simpler server. It serves `/pokemon`, `/compare`,
  `/team/generate` and `/counters`. It has its own fetch with a finer
  failure-to-status mapping. It reads the model's replies as JSON, falling
  back to the greedy `[...]` span of the reply.

This project models that request handling. The network and the model are
inputs:

- The PokeAPI is a function from the lookup key to an `Upstream` outcome.
  The outcome is either a response (status plus a JSON body, a body that is
  not JSON, or one that lacks a key) or one of the `requests` exceptions.
- Each model call is a function that returns `Some(reply)` or `None` when the
  call raises.

The parsing loops of the richer server are methods with `while` loops. Each is
proved equal to a declarative specification:

- `ParseVerdict` (its loop is `ScanVerdict`) is proved against `VerdictOf`,
  which takes the last line per marker.
- `ParseBlocks` (its loop is `ScanLines`) is proved against `Entries`, which
  cuts the lines at blank lines and keeps one dict per non-empty block.
- Each loop body is a small method (`Absorb`, `Flush`) proved against the
  same specification.

The three endpoints of the richer server that call these parsers (`/battle`,
`/counters` and `/team/generate`) are loop-free methods, `HeadToHead`,
`SuggestCounters` and `GenerateTeam`. Each ensures its result equals a
function of its inputs. Everything else is a function.

Modules, one per file:

| file | module | models |
|---|---|---|
| `wrappers.dfy` | `Wrappers` | `Option`, `Result` |
| `text.dfy` | `Text` | the Python `str` operations used: `strip`, `split`, `join`, `startswith`, `replace`, `lower`, `capitalize`, `title` |
| `line_fields.dfy` | `LineFields` | stripped reply lines and the "last line with this marker" field value |
| `poke_api.dfy` | `PokeApi` | upstream outcomes, the payload, and the record normalisation shared by both servers |
| `battle_parser.dfy` | `BattleParser` | the `/battle` verdict parser |
| `blocks.dfy` | `Blocks` | the blank-line block loop shared by the counter and team parsers |
| `counter_parser.dfy` | `CounterParser` | counter validation and sprites |
| `team_parser.dfy` | `TeamParser` | team members, their lookup fallbacks, and the summary string |
| `rich_server.dfy` | `RichServer` | the base and enhanced fetches and the endpoints of `cmcp.py` |
| `simple_server.dfy` | `SimpleServer` | the fetch, compare and JSON-array extraction of `nmcp.py` |

The model follows the code where it behaves differently from what a reader might assume:

- `/pokemon` and `/compare` of `cmcp.py` go through the enhanced fetch. It
  rewrites every failure, 400 and 404 included, to 500 "Data retrieval
  failed". These endpoints never answer 404 (`RichServer.CompareSpec`).
- In `cmcp.py` a failed model call during `/battle` or `/counters` is not
  degraded to a default. It reaches the endpoint's catch-all and becomes a 500.
- A counter block without a name, a type or a reason is not dropped. Building
  `CounterPokemon` raises, and the whole request fails with 500
  (`CounterParser.CountersOfSpec`, `RichServer.CounselSpec`).
- `nmcp.py` refuses only the empty name. A whitespace-only name is looked up
  as it is (`SimpleServer.BlankNamesDiffer`).
- The two servers map a read timeout differently: 504 in `nmcp.py`, 503 in
  `cmcp.py` (`SimpleServer.TimeoutStatuses`).

## Model

| member | source | states |
|---|---|---|
| Text.Strip | cmcp.py:381 | `strip()` leaves no white space at either end |
| Text.StripBlank | cmcp.py:253 | a string strips to empty exactly when every character is white space |
| Text.StripIdempotent | cmcp.py:388 | stripping an already stripped line changes nothing |
| Text.StripFixpoint | cmcp.py:256 | a string without white space at either end is its own strip |
| Text.StripLower | cmcp.py:256 | lowering case and stripping whitespace commute |
| Text.Title | cmcp.py:270 | `str.title()` keeps the length; TitleCharacterised fixes the result |
| Text.TitleCharacterised | cmcp.py:270 | `title()` gives exactly the string with the title shape (a letter upper case iff it starts a word) that equals the input up to letter case |
| Text.TitleShape | cmcp.py:270 | `title()` output has the title shape and equals its input up to letter case |
| Text.TitledUnique | cmcp.py:270 | two strings with the title shape that agree up to letter case are equal |
| Text.TitleIdempotent | cmcp.py:278 | title-casing twice is title-casing once |
| Text.Split | cmcp.py:381 | `split(sep)` gives at least one piece, and no piece holds the separator |
| Text.JoinSplit | cmcp.py:552 | joining the pieces of a split with the separator gives back the text |
| Text.SplitJoin | cmcp.py:242 | splitting a join of separator-free pieces gives back the pieces |
| Text.IndexOf | nmcp.py:136 | the position of the first occurrence: the element is there, and not before it |
| Text.LastIndexOf | nmcp.py:136 | the position of the last occurrence: the element is there, and not after it |
| Text.Replace | cmcp.py:270 | `replace(a, b)` changes exactly the `a` characters, to `b`, and keeps the length |
| Text.Remove | cmcp.py:398 | `replace("-", "")` keeps exactly the characters other than `-`, and never lengthens the text |
| Text.RemoveAppend | cmcp.py:398 | removal works piece by piece: `a + b` loses its hyphens as `a` and `b` do, a single character is dropped exactly when it is the one removed, so the other characters stay in order |
| Text.RemoveJoin | cmcp.py:398 | removing a character equals cutting the text at it and gluing the pieces back without separator |
| LineFields.Lines | cmcp.py:381-388 | the stripped lines of a reply; there is always at least one |
| LineFields.MarkedValue | cmcp.py:389-396 | on a line starting with a marker, the value after the first colon is the stripped text after the marker |
| LineFields.LastValueAbsent | cmcp.py:387-396 | a field stays unset exactly when no line starts with its marker |
| LineFields.LastValueAt | cmcp.py:387-396 | the last line that starts with a marker decides the field's value |
| LineFields.LastValueSkips | cmcp.py:387-396 | a line without the marker leaves the field as it was |
| LineFields.LastValueTakes | cmcp.py:387-396 | a line with the marker sets the field to its value |
| PokeApi.Label | cmcp.py:270 | `replace("-", " ").title()` keeps the length and leaves no hyphen |
| PokeApi.Normalise | cmcp.py:264-282 | the record has one ability per payload ability, one type per payload type and no description yet; NormaliseSpec fixes every field |
| PokeApi.NormaliseSpec | cmcp.py:264-282 | the record keeps the id, height, weight and sprite; name and types are capitalised and equal to the payload's up to case; abilities keep order and count, are title-cased and equal to the payload's with hyphens read as spaces; stat keys are distinct, listed in the order their labels first occur upstream, and each holds the last base stat given for it |
| PokeApi.StatTableLastWins | cmcp.py:277-280 | the stats dict comprehension has distinct keys in the order their labels first occur upstream, and a later duplicate key overwrites an earlier one in place |
| PokeApi.StatKeys | cmcp.py:277-280 | the keys of the stats dict are the labels in order of first occurrence |
| PokeApi.FirstOccurrences | cmcp.py:277-280 | the labels kept are exactly those that occur upstream |
| PokeApi.LastStatPresent | cmcp.py:277-280 | a label has a value exactly when some upstream entry carries it |
| PokeApi.PutGet | cmcp.py:278 | assigning a dict key sets that key, keeps every other key's value and keeps keys distinct; an existing key keeps its place and a new key goes last |
| PokeApi.PutKeys | cmcp.py:278 | assigning a dict key keeps the key order, appending the key when it is new |
| Text.Capitalize | cmcp.py:265 | `str.capitalize()` keeps the length and has the capitalised shape; CapitalizeCharacterised fixes the result |
| PokeApi.CapitalizeCharacterised | cmcp.py:265 | `capitalize()` gives exactly the string of capitalised shape that equals the input up to case |
| PokeApi.LowerCapitalize | cmcp.py:274 | capitalising changes letter case only |
| BattleParser.ParseVerdict | cmcp.py:381-405 | the parsing loop yields the verdict of the last `Winner:`, `Confidence:`, `Reasoning:` and `Key Factors:` lines, each defaulted when it ends up empty |
| BattleParser.ScanVerdict | cmcp.py:387-405 | the loop over the raw lines, each stripped as read, ends with the defaulted verdict of the last line per marker |
| BattleParser.Absorb | cmcp.py:388-398 | one stripped line updates exactly the variable of the marker it starts with, as the last-line specification says |
| BattleParser.KeyFactors | cmcp.py:396-398 | key factors are stripped, non-empty, and hold no comma and no hyphen; KeyFactorsPieces fixes their content and order |
| BattleParser.Factors | cmcp.py:398 | the kept pieces are stripped and non-empty; FactorsAppend fixes their content and order |
| BattleParser.FactorsAvoid | cmcp.py:398 | a character absent from every piece is absent from every factor |
| BattleParser.FactorsAppend | cmcp.py:398 | the comprehension works piece by piece, in order: a piece contributes its stripped text when that is non-empty and nothing otherwise |
| BattleParser.KeyFactorsPieces | cmcp.py:396-398 | the key factors of any text are its comma-separated pieces, each with its hyphens removed, stripped and kept when non-empty (`"a-b, c"` gives `["ab", "c"]`) |
| BattleParser.SplitDehyphen | cmcp.py:398 | removing hyphens before cutting at commas gives the pieces that removing them from each piece after the cut gives |
| BattleParser.KeyFactorsJoin | cmcp.py:396-398 | factors without commas listed as `a, b, c` are read back in order with their hyphens removed (exactly, when they have none), provided each stays non-empty and stripped without its hyphens |
| BattleParser.FactorsOfJoin | cmcp.py:398 | cutting `a, b, c` at commas and stripping gives the pieces back |
| BattleParser.FactorsPadded | cmcp.py:398 | leading space before the list does not change the factors |
| BattleParser.OrDefault | cmcp.py:402-405 | a defaulted field is never empty when its default is not |
| BattleParser.NoFieldsGivesDefaults | cmcp.py:400-405 | a reply with no recognised line gives "Unknown", "Medium", "Analysis unavailable" and ["Type matchup", "Stat comparison"] |
| BattleParser.LastWinnerWins | cmcp.py:389-390 | the last `Winner:` line decides the winner, and an empty one resets it to "Unknown" |
| BattleParser.UnrecognisedLineIgnored | cmcp.py:387-396 | a line matching none of the four markers changes nothing |
| Blocks.ParseBlocks | cmcp.py:435-467 | the parsing loop emits one dict per block of lines between blank lines that has a `Name:`, `Type:` or third-field line, in order, each holding the block's last value per marker |
| Blocks.ScanLines | cmcp.py:438-467 | the loop over the raw lines, each stripped as read, emits exactly the entries of the blank-line blocks of the stripped lines |
| Blocks.Absorb | cmcp.py:453-458 | a non-blank line updates the current dict as its block's last values say |
| Blocks.Flush | cmcp.py:441-450 | finishing a block appends its dict exactly when the dict is non-empty, keeping the entries equal to those of the blocks seen |
| Blocks.Drafts | cmcp.py:441-443 | no emitted dict is empty, and there is at most one per block |
| Blocks.DraftStep | cmcp.py:453-458 | one more line sets exactly the field whose marker it starts with, or nothing |
| Blocks.DraftsAppend | cmcp.py:438-450 | the entries of consecutive blocks are concatenated in order |
| Blocks.EntriesAround | cmcp.py:440-450 | a blank line separates: each side contributes its own entries, in order |
| Blocks.NoLinesNoEntries | cmcp.py:440-442 | no lines emit nothing |
| Blocks.BlankLinesNoEntries | cmcp.py:439-442 | any run of blank lines emits nothing |
| Blocks.BlankReplyNoEntries | cmcp.py:438-442 | an empty or white-space-only reply emits nothing |
| Blocks.TrailingBlankIgnored | cmcp.py:461-467 | the final block needs no trailing blank line: a blank line added at the end changes nothing |
| Blocks.OneBlock | cmcp.py:461-467 | a block without blank lines, the final one included, is emitted exactly when its dict is non-empty |
| Blocks.BlankDraft | cmcp.py:441 | a block's dict is empty exactly when none of its lines starts with one of the three markers |
| Blocks.LastLineDecides | cmcp.py:453-458 | within a block, a repeated marker keeps its last value |
| CounterParser.CountersOf | cmcp.py:443-449 | the counters are one per entry, or the 500 of a failed construction |
| CounterParser.CountersOfSpec | cmcp.py:443-467 | the counters exist exactly when every entry has name, type and reason; the k-th counter carries the k-th entry's fields and the sprite its lookup found, or none |
| CounterParser.LookupFailureHarmless | cmcp.py:444-447 | whether the list succeeds does not depend on the sprite lookups |
| TeamParser.TeamOf | cmcp.py:515-549 | one member per entry, in order, with the entry's name, type and role |
| TeamParser.MemberOf | cmcp.py:513-525 | a member keeps its entry's name, type and role |
| TeamParser.MemberLookup | cmcp.py:517-525 | a successful lookup supplies sprite, stats and types; a failed one gives no sprite, empty stats and `[type]`, or `["Unknown"]` without a `Type:` line |
| TeamParser.Summary | cmcp.py:552 | a member without name or role makes the summary fail with 500 |
| TeamParser.SummaryDefined | cmcp.py:552 | the summary exists exactly when every member has a name and a role |
| TeamParser.SummaryPieces | cmcp.py:552 | the summary is the `", "`-join of `"<name> (<role>)"` in team order: cut at commas it gives each entry back |
| RichServer.Key | cmcp.py:256 | the lookup key is the stripped name lowered (lowering and stripping commute), so it is stripped and has no upper-case letter |
| RichServer.BlankIffEmptyKey | cmcp.py:253-256 | a name is refused as blank exactly when its key would be empty |
| RichServer.FetchBase | cmcp.py:250-289 | a failure carries an HTTP error status; a record has no description yet |
| RichServer.BlankNameRefused | cmcp.py:253-254 | an empty or whitespace-only name gives 400 before any request |
| RichServer.FetchBaseByKey | cmcp.py:256-262 | the outcome depends only on the upstream's answer for the key |
| RichServer.SameKeySameRecord | cmcp.py:256 | names that differ only in case or surrounding space get the same record or the same status |
| RichServer.HttpErrorStatuses | cmcp.py:284-287 | an upstream 404 gives 404 with the name echoed; another error status passes through |
| RichServer.FetchStatuses | cmcp.py:253-289 | a blank name gives 400; otherwise an HTTP error gives 404 with the name echoed or its own status, a payload gives its normalised record, a body that is not JSON and every request failure (connection, either timeout, other) give 503, and a payload without a key gives 500 |
| RichServer.LookupSpec | cmcp.py:444-447 | the secondary lookup finds a record exactly when the base fetch succeeds, never for a blank name |
| RichServer.LookupFinds | cmcp.py:444-445 | a successful upstream answer gives the normalised record |
| RichServer.FetchEnhanced | cmcp.py:224-248 | every failure becomes 500 "Data retrieval failed"; success exactly when the base fetch succeeds, with the same record plus, iff requested, the stripped generated description or else the fallback sentence |
| RichServer.DescriptionFallback | cmcp.py:240-242 | when the description call fails, the description is "<Name> is a <T1>/<T2> type Pokemon.", whose middle cut at `/` gives the types |
| RichServer.Compare | cmcp.py:349-359 | every failure of the comparison is the 500 "Data retrieval failed" |
| RichServer.CompareSpec | cmcp.py:349-359 | the comparison succeeds exactly when both base fetches do, pairs the two enhanced records, and otherwise answers 500, never 404 |
| RichServer.HeadToHead | cmcp.py:362-417 | the first failing fetch's error passes through; a failed model call is 500; otherwise the battle of both records with the verdict parsed from the reply |
| RichServer.SuggestCounters | cmcp.py:420-478 | a failed target fetch passes through; otherwise the counsel built from the model's reply and the lookups |
| RichServer.CounselOf | cmcp.py:435-478 | a failure is a 500 with the exception text as detail; a success keeps the target |
| RichServer.CounselSpec | cmcp.py:435-478 | the counters response exists exactly when the model answered and every block is complete; it keeps the target and lists one counter per block; failures are 500 |
| RichServer.GenerateTeam | cmcp.py:481-571 | a failed team call is 500; otherwise the report on the team parsed from the reply and completed by lookups |
| RichServer.Report | cmcp.py:552-567 | a failure is a 500 with the exception text as detail; a success keeps the team and the description |
| RichServer.ReportSpec | cmcp.py:552-567 | the report exists exactly when every member has a name and a role; it keeps team and description, and its analysis is the analysis call's text, or the fixed fallback sentence when that call fails |
| SimpleServer.Fetch | nmcp.py:45-97 | a failure carries an HTTP error status; a record has no description |
| SimpleServer.FetchStatuses | nmcp.py:45-97 | the empty name gives 400; otherwise an HTTP error gives 404 with the name echoed or its own status, a connection failure or connect timeout 503, a read timeout 504, another request failure or a body that is not JSON 500, a payload without a key 500, and a payload its normalised record |
| SimpleServer.StatusesCompared | nmcp.py:79-97 | for a stripped non-empty name both servers fail together, with the same status except 504 for a read timeout and 500 for another request failure or a non-JSON body, where the richer server says 503 |
| SimpleServer.OnlyEmptyRefused | nmcp.py:46-48 | the 400 "name cannot be empty" answer comes exactly for the empty name |
| SimpleServer.FetchByLowerName | nmcp.py:50-54 | the outcome depends only on the upstream's answer for the lowered, untrimmed name |
| SimpleServer.BlankNamesDiffer | nmcp.py:46-51 | a whitespace-only name is refused by the richer server but looked up by this one |
| SimpleServer.ServersAgreeOnRecords | nmcp.py:50-76 | for a stripped non-empty name both servers use the same key and return the same record, or both fail |
| SimpleServer.TimeoutStatuses | nmcp.py:86-91 | a read timeout gives 504 here and 503 in the richer server |
| SimpleServer.Compare | nmcp.py:105-110 | a failure carries an HTTP error status; both records have no description |
| SimpleServer.CompareSpec | nmcp.py:105-110 | the comparison holds both records in order exactly when both fetches succeed; otherwise the first failure, with its status unchanged |
| SimpleServer.ExtractArray | nmcp.py:136 | an extracted span starts with `[` and ends with `]` |
| SimpleServer.ExtractArraySpec | nmcp.py:136-140 | the extraction is the leftmost-longest match of `\[.*\]`: none exactly when no `]` follows a `[`, and otherwise that match, which exists |
| SimpleServer.Decode | nmcp.py:133-146 | every failure of the team or counter endpoint is a 500 |
| SimpleServer.DecodeSpec | nmcp.py:169-182 | the whole reply is decoded first and the span only when that fails; the "Could not parse" error comes exactly when the reply does not decode and holds no span |

## Left out

- HTTP and model calls are inputs. `requests.get` is a function from the key
  to an `Upstream` outcome, and each model call returns `Some(text)` or
  `None` when it raises. Prompts, the model's settings and its non-determinism
  are not modelled.
- `json.loads` is an abstract parameter of `SimpleServer.Decode` that returns
  `None` when it raises. JSON syntax itself is not modelled.
- Height and weight keep the integer decimetres and hectograms. The float
  division by 10 is left out, because floating point is outside the model.
- `create_mcp_response`, its metadata and its `datetime.now()` timestamp are
  left out: they are clock and presentation, not logic.
- Case mapping covers ASCII letters only. Every other character is treated as
  uncased, where Python's Unicode case mapping would map some of them.
- Error details keep their fixed text only. Where the source appends the text
  of an exception (`f"... {e}"`, `str(e)`), the model stops at the fixed prefix.
  For a bare `str(e)`, the model uses the empty string.
- The pydantic models are reduced to which fields are required.
  `CounterPokemon` needs name, type and reason. The `PokemonData` fields are
  always present.
- `Blocks.ParseBlocks`: the source looks each entry up when the entry is
  flushed, inside the loop. The model parses first and then applies the pure
  lookup to each entry, in order. The lookups are side-effect free here, so
  the results agree, but the interleaving of requests is not modelled.
- The endpoints' routing, CORS, logging, `async`, environment loading and
  the `/health` route are left out. They hold no logic of the core.
- `nstem.py`, the Streamlit front end, is not part of this model. It is
  display code that calls the servers over HTTP.
- Mapping the generated team's or counters' JSON values into records is not
  modelled. `nmcp.py` returns the decoded JSON as it is.
