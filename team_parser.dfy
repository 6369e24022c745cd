/**
 * The generated team of the richer server: every entry the block parser emits
 * (fields `Name:`, `Type:`, `Role:`) becomes a team member dict, completed by
 * a secondary lookup of its name, and the team is summarised as
 * `"<name> (<role>), ..."` for the analysis request.
 */
module TeamParser {
  import opened Wrappers
  import opened Text
  import opened PokeApi
  import opened Blocks

  /**
   * A team member dict: the parsed fields exactly as given (each may be
   * missing), and the sprite, stats and types added when it was emitted.
   */
  datatype Member = Member(
    name: Option<string>,
    kind: Option<string>,
    role: Option<string>,
    sprite: Option<string>,
    stats: seq<(string, int)>,
    types: seq<string>)

  const FallbackAnalysis := "This team provides a balanced combination of Pokemon that work well together to achieve your strategic goals."

  /**
   * The member an entry becomes. A successful lookup of its name supplies
   * sprite, stats and types; a failed one (or a missing name, whose KeyError
   * the same bare `except` swallows) leaves no sprite, empty stats and the
   * given type, or "Unknown" when no `Type:` line was seen.
   */
  function MemberOf(d: Draft, lookup: string -> Option<Record>): (m: Member)
    ensures m.name == d.name && m.kind == d.kind && m.role == d.note
  {
    var found := if d.name.Some? then lookup(d.name.value) else None;
    match found
    case Some(rec) => Member(d.name, d.kind, d.note, rec.sprite, rec.stats, rec.types)
    case None => Member(d.name, d.kind, d.note, None, [], [if d.kind.Some? then d.kind.value else "Unknown"])
  }

  /** The team: one member per emitted entry, in order. */
  function TeamOf(ds: seq<Draft>, lookup: string -> Option<Record>): (team: seq<Member>)
    ensures |team| == |ds|
    ensures forall k :: 0 <= k < |ds| ==>
      team[k].name == ds[k].name && team[k].kind == ds[k].kind && team[k].role == ds[k].note
  {
    seq(|ds|, k requires 0 <= k < |ds| => MemberOf(ds[k], lookup))
  }

  /**
   * What a member holds beyond the parsed fields: the looked-up record's
   * sprite, stats and types, or the fallbacks, whose type list is never empty.
   */
  lemma MemberLookup(d: Draft, lookup: string -> Option<Record>)
    ensures var m := MemberOf(d, lookup);
      if d.name.Some? && lookup(d.name.value).Some? then
        var rec := lookup(d.name.value).value;
        m.sprite == rec.sprite && m.stats == rec.stats && m.types == rec.types
      else
        m.sprite.None? && m.stats == [] && m.types == [if d.kind.Some? then d.kind.value else "Unknown"]
  {
  }

  /** Both fields the summary reads are present. */
  predicate Named(m: Member) {
    m.name.Some? && m.role.Some?
  }

  /** `f"{name} ({role})"` */
  function Entry(m: Member): string
    requires Named(m)
  {
    m.name.value + " (" + m.role.value + ")"
  }

  /**
   * `", ".join(f"{m['name']} ({m['role']})" for m in team)`: a member
   * without a name or a role raises KeyError, which the endpoint reports
   * as a 500 whose detail is the exception text alone.
   */
  function Summary(team: seq<Member>): (r: Result<string, Fault>)
    ensures r.Err? ==> r.error == Fault(500, "")
  {
    if team == [] then Ok("")
    else if !Named(team[0]) then Err(Fault(500, ""))
    else if |team| == 1 then Ok(Entry(team[0]))
    else
      match Summary(team[1..])
      case Err(e) => Err(e)
      case Ok(rest) => Ok(Entry(team[0]) + ", " + rest)
  }

  /** The summary exists exactly when every member has a name and a role. */
  lemma {:induction false} SummaryDefined(team: seq<Member>)
    ensures Summary(team).Ok? <==> forall k :: 0 <= k < |team| ==> Named(team[k])
  {
    if team != [] {
      SummaryDefined(team[1..]);
      assert forall k :: 1 <= k < |team| ==> team[1..][k - 1] == team[k];
    }
  }

  /**
   * When no name or role holds a comma, cutting the summary at its commas
   * gives back every member's entry once, in team order, each after the
   * first preceded by the space of the separator.
   */
  lemma {:induction false} SummaryPieces(team: seq<Member>)
    requires |team| >= 1 && Summary(team).Ok?
    requires forall k :: 0 <= k < |team| ==> Named(team[k]) && ',' !in team[k].name.value && ',' !in team[k].role.value
    ensures |Split(Summary(team).value, ',')| == |team|
    ensures Split(Summary(team).value, ',')[0] == Entry(team[0])
    ensures forall k :: 1 <= k < |team| ==> Split(Summary(team).value, ',')[k] == " " + Entry(team[k])
  {
    var first := Entry(team[0]);
    assert ',' !in first;
    SplitWithout(first, ',');
    if |team| > 1 {
      var tail := team[1..];
      assert forall k :: 0 <= k < |tail| ==> tail[k] == team[k + 1];
      SummaryPieces(tail);
      var rest := Summary(tail).value;
      assert Summary(team).value == first + [','] + (" " + rest);
      SplitAround(first, " " + rest, ',');
      SplitCons(' ', rest, ',');
    }
  }
}
