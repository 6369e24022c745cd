/**
 * The upstream Pokemon data service as both servers see it: the outcome of
 * one GET request, the payload of a successful one, and the flat record both
 * servers build from that payload with the same comprehension.
 */
module PokeApi {
  import opened Wrappers
  import opened Text

  /**
   * An HTTP error response of a server: its status and its `detail` text.
   * Where the server appends the text of a caught exception to the detail,
   * `detail` holds only the fixed part before it.
   */
  datatype Fault = Fault(status: int, detail: string)

  /** One entry of the payload's `stats` list: `stat.name` and `base_stat`. */
  datatype StatEntry = StatEntry(name: string, baseStat: int)

  /**
   * The fields of the payload the servers read: `name`, `id`, `height`,
   * `weight`, `abilities[].ability.name`, `types[].type.name`, `stats` and
   * `sprites.front_default` (which may be null).
   */
  datatype Payload = Payload(
    name: string,
    id: int,
    height: int,
    weight: int,
    abilities: seq<string>,
    types: seq<string>,
    stats: seq<StatEntry>,
    sprite: Option<string>)

  /**
   * The body of a response: not JSON at all, JSON that lacks one of the keys
   * read above (the comprehension then raises KeyError), or a full payload.
   */
  datatype Body = NotJson | MissingKey | Document(payload: Payload)

  /**
   * What one `requests.get` of `pokemon/<key>` ends in: a response with its
   * status, or one of the request exceptions. A connect timeout is both a
   * ConnectionError and a Timeout; a read timeout is a Timeout only.
   */
  datatype Upstream =
    | Responded(status: int, body: Body)
    | ConnectionFailed
    | ConnectTimedOut
    | ReadTimedOut
    | OtherRequestFailure

  /** The statuses for which `raise_for_status()` raises HTTPError. */
  predicate RaisesForStatus(status: int) {
    400 <= status < 600
  }

  /**
   * The record a successful fetch returns. Height and weight keep the
   * upstream integers (decimetres and hectograms). `stats` is an
   * insertion-ordered dictionary: a list of pairs with distinct keys.
   */
  datatype Record = Record(
    name: string,
    id: int,
    heightDm: int,
    weightHg: int,
    abilities: seq<string>,
    types: seq<string>,
    stats: seq<(string, int)>,
    sprite: Option<string>,
    description: Option<string>)

  /** `s.replace("-", " ").title()`, applied to ability names and stat names. */
  function Label(s: string): (r: string)
    ensures |r| == |s| && '-' !in r
  {
    var spaced := Replace(s, '-', ' ');
    var r := Title(spaced);
    assert forall k :: 0 <= k < |r| ==> r[k] != '-' by {
      forall k | 0 <= k < |r| ensures r[k] != '-' {
        TitleAt(spaced, k);
      }
    }
    r
  }

  /** `table[k] = v` on an insertion-ordered dictionary. */
  function Put(table: seq<(string, int)>, k: string, v: int): (r: seq<(string, int)>)
  {
    if table == [] then [(k, v)]
    else if table[0].0 == k then [(k, v)] + table[1..]
    else [table[0]] + Put(table[1..], k, v)
  }

  predicate DistinctKeys(table: seq<(string, int)>) {
    forall i, j :: 0 <= i < j < |table| ==> table[i].0 != table[j].0
  }

  /** The keys of an insertion-ordered dictionary, in order (`list(table)`). */
  function Keys(table: seq<(string, int)>): (ks: seq<string>)
    ensures |ks| == |table|
    ensures forall i :: 0 <= i < |table| ==> ks[i] == table[i].0
  {
    seq(|table|, i requires 0 <= i < |table| => table[i].0)
  }

  /** `table.get(k)` */
  function Get(table: seq<(string, int)>, k: string): Option<int> {
    if table == [] then None
    else if table[0].0 == k then Some(table[0].1)
    else Get(table[1..], k)
  }

  /**
   * After `table[k] = v`, `k` maps to `v`, other keys are untouched and keys
   * stay distinct; an existing key keeps its place, and a new one goes last.
   */
  lemma {:induction false} PutGet(table: seq<(string, int)>, k: string, v: int)
    requires DistinctKeys(table)
    ensures Keys(Put(table, k, v)) == if Get(table, k).Some? then Keys(table) else Keys(table) + [k]
    ensures DistinctKeys(Put(table, k, v))
    ensures Get(Put(table, k, v), k) == Some(v)
    ensures forall k' :: k' != k ==> Get(Put(table, k, v), k') == Get(table, k')
    ensures forall k' :: Get(Put(table, k, v), k').Some? <==> Get(table, k').Some? || k' == k
  {
    PutKeys(table, k, v);
    if table != [] && table[0].0 != k {
      PutGet(table[1..], k, v);
      var r := Put(table, k, v);
      assert r == [table[0]] + Put(table[1..], k, v);
      forall i, j | 0 <= i < j < |r| ensures r[i].0 != r[j].0 {
        if i == 0 {
          KeyOfGet(Put(table[1..], k, v), j - 1);
          GetAbsent(table[1..], table[0].0);
        }
      }
    }
  }

  /** `table[k] = v` leaves every key where it is and adds a new key at the end. */
  lemma {:induction false} PutKeys(table: seq<(string, int)>, k: string, v: int)
    ensures Keys(Put(table, k, v)) == if Get(table, k).Some? then Keys(table) else Keys(table) + [k]
  {
    if table != [] && table[0].0 != k {
      PutKeys(table[1..], k, v);
      assert Keys(table) == [table[0].0] + Keys(table[1..]);
      assert Keys(Put(table, k, v)) == [table[0].0] + Keys(Put(table[1..], k, v));
    } else if table != [] {
      assert Keys(Put(table, k, v)) == Keys(table);
    }
  }

  /** A key that is present can be looked up. */
  lemma {:induction false} KeyOfGet(table: seq<(string, int)>, i: nat)
    requires i < |table|
    ensures Get(table, table[i].0).Some?
  {
    if i > 0 && table[0].0 != table[i].0 {
      KeyOfGet(table[1..], i - 1);
    }
  }

  /** A key that occurs nowhere cannot be looked up. */
  lemma {:induction false} GetAbsent(table: seq<(string, int)>, k: string)
    requires forall i :: 0 <= i < |table| ==> table[i].0 != k
    ensures Get(table, k).None?
  {
    if table != [] {
      GetAbsent(table[1..], k);
    }
  }

  /** `{Label(s.name): s.baseStat for s in entries}` */
  function StatTable(entries: seq<StatEntry>): seq<(string, int)> {
    if entries == [] then []
    else
      var last := entries[|entries| - 1];
      Put(StatTable(entries[..|entries| - 1]), Label(last.name), last.baseStat)
  }

  /** The base stat of the last entry whose label is `k`, if any. */
  function LastStat(entries: seq<StatEntry>, k: string): Option<int> {
    if entries == [] then None
    else if Label(entries[|entries| - 1].name) == k then Some(entries[|entries| - 1].baseStat)
    else LastStat(entries[..|entries| - 1], k)
  }

  /** The labels of the entries, in upstream order. */
  function Labels(entries: seq<StatEntry>): (ls: seq<string>)
    ensures |ls| == |entries|
    ensures forall i :: 0 <= i < |entries| ==> ls[i] == Label(entries[i].name)
  {
    seq(|entries|, i requires 0 <= i < |entries| => Label(entries[i].name))
  }

  /** The distinct elements of `xs` in the order of their first occurrence. */
  function FirstOccurrences(xs: seq<string>): (r: seq<string>)
    ensures forall x :: x in r <==> x in xs
  {
    if xs == [] then []
    else
      var init, x := xs[..|xs| - 1], xs[|xs| - 1];
      if x in init then FirstOccurrences(init) else FirstOccurrences(init) + [x]
  }

  /**
   * The stat table has distinct keys, listed in the order in which their
   * labels first occur upstream, and each key holds the value of the last
   * upstream entry whose label it is: a later duplicate overwrites in place.
   */
  lemma {:induction false} StatTableLastWins(entries: seq<StatEntry>)
    ensures DistinctKeys(StatTable(entries))
    ensures forall k :: Get(StatTable(entries), k) == LastStat(entries, k)
    ensures Keys(StatTable(entries)) == FirstOccurrences(Labels(entries))
    decreases |entries|, 1
  {
    if entries != [] {
      var init := entries[..|entries| - 1];
      StatTableLastWins(init);
      var last := entries[|entries| - 1];
      PutGet(StatTable(init), Label(last.name), last.baseStat);
    }
    StatKeys(entries);
  }

  /** The key-order part of `StatTableLastWins`. */
  lemma {:induction false} StatKeys(entries: seq<StatEntry>)
    ensures Keys(StatTable(entries)) == FirstOccurrences(Labels(entries))
    decreases |entries|, 0
  {
    if entries != [] {
      var init := entries[..|entries| - 1];
      var tag := Label(entries[|entries| - 1].name);
      StatKeys(init);
      StatTableLastWins(init);
      LastStatPresent(init, tag);
      PutKeys(StatTable(init), tag, entries[|entries| - 1].baseStat);
      assert Labels(entries) == Labels(init) + [tag];
      assert Labels(entries)[..|entries| - 1] == Labels(init);
    }
  }

  /** A label has a last stat exactly when some entry carries it. */
  lemma {:induction false} LastStatPresent(entries: seq<StatEntry>, k: string)
    ensures LastStat(entries, k).Some? <==> k in Labels(entries)
  {
    if entries != [] {
      var init := entries[..|entries| - 1];
      LastStatPresent(init, k);
      assert Labels(entries) == Labels(init) + [Label(entries[|entries| - 1].name)];
    }
  }

  /** The record both servers build from a payload. */
  function Normalise(p: Payload): (r: Record)
    ensures |r.abilities| == |p.abilities| && |r.types| == |p.types| && r.description.None?
  {
    Record(
      Capitalize(p.name),
      p.id,
      p.height,
      p.weight,
      seq(|p.abilities|, i requires 0 <= i < |p.abilities| => Label(p.abilities[i])),
      seq(|p.types|, i requires 0 <= i < |p.types| => Capitalize(p.types[i])),
      StatTable(p.stats),
      p.sprite,
      None)
  }

  /**
   * The record keeps the payload's numbers and sprite; its name and types are
   * the payload's capitalised (equal up to case); abilities keep their order
   * and are title-cased with hyphens read as spaces; the stat keys are the
   * labels in order of first occurrence, each holding the last entry's base
   * stat.
   */
  lemma NormaliseSpec(p: Payload)
    ensures var r := Normalise(p);
      && r.id == p.id && r.heightDm == p.height && r.weightHg == p.weight
      && r.sprite == p.sprite && r.description.None?
      && IsCapitalized(r.name) && Lower(r.name) == Lower(p.name)
      && |r.types| == |p.types|
      && (forall i :: 0 <= i < |r.types| ==> IsCapitalized(r.types[i]) && Lower(r.types[i]) == Lower(p.types[i]))
      && |r.abilities| == |p.abilities|
      && (forall i :: 0 <= i < |r.abilities| ==> '-' !in r.abilities[i] && IsTitled(r.abilities[i]))
      && (forall i :: 0 <= i < |r.abilities| ==> Lower(r.abilities[i]) == Lower(Replace(p.abilities[i], '-', ' ')))
      && DistinctKeys(r.stats)
      && Keys(r.stats) == FirstOccurrences(Labels(p.stats))
      && (forall k :: Get(r.stats, k) == LastStat(p.stats, k))
  {
    StatTableLastWins(p.stats);
    var r := Normalise(p);
    forall i | 0 <= i < |p.types|
      ensures Lower(r.types[i]) == Lower(p.types[i])
    {
      LowerCapitalize(p.types[i]);
    }
    LowerCapitalize(p.name);
    forall i | 0 <= i < |p.abilities|
      ensures IsTitled(r.abilities[i]) && Lower(r.abilities[i]) == Lower(Replace(p.abilities[i], '-', ' '))
    {
      TitleCharacterised(Replace(p.abilities[i], '-', ' '), r.abilities[i]);
    }
  }

  /** `capitalize` changes letter case only. */
  lemma LowerCapitalize(s: string)
    ensures Lower(Capitalize(s)) == Lower(s)
  {
    if s != [] {
      var r := Capitalize(s);
      assert forall i :: 0 <= i < |s| ==> LowerChar(r[i]) == LowerChar(s[i]);
    }
  }

  /**
   * `capitalize` as a specification: a string is the capitalisation of `s`
   * exactly when it has the capitalised shape and differs from `s` in letter
   * case only.
   */
  lemma CapitalizeCharacterised(s: string, r: string)
    ensures r == Capitalize(s) <==> IsCapitalized(r) && Lower(r) == Lower(s)
  {
    LowerCapitalize(s);
    if IsCapitalized(r) && Lower(r) == Lower(s) {
      var c := Capitalize(s);
      assert |r| == |s|;
      forall i | 0 <= i < |r| ensures r[i] == c[i] {
        assert LowerChar(r[i]) == LowerChar(s[i]);
      }
    }
  }
}
