/**
 * The counter suggestions of the richer server: every entry the block parser
 * emits (fields `Name:`, `Type:`, `Reason:`) is given the sprite of a
 * secondary lookup of its name, then validated as a counter, which needs a
 * name, a type and a reason.
 */
module CounterParser {
  import opened Wrappers
  import opened PokeApi
  import opened Blocks

  /** A validated counter suggestion; only the sprite is optional. */
  datatype Counter = Counter(name: string, kind: string, reason: string, sprite: Option<string>)

  /** The three fields a counter requires are all present. */
  predicate Complete(d: Draft) {
    d.name.Some? && d.kind.Some? && d.note.Some?
  }

  /**
   * The sprite added when an entry is emitted: that of the record the lookup
   * finds for the entry's name. A failed lookup and an entry without a name
   * (whose KeyError the same bare `except` swallows) both give None.
   */
  function SpriteOf(d: Draft, lookup: string -> Option<Record>): Option<string> {
    if d.name.None? then None
    else match lookup(d.name.value)
      case None => None
      case Some(found) => found.sprite
  }

  /**
   * The counters built from the emitted entries, in order. The first entry
   * that lacks a field makes the counter's construction raise, which the
   * endpoint reports as a 500 whose detail is the exception text alone.
   */
  function CountersOf(ds: seq<Draft>, lookup: string -> Option<Record>): (r: Result<seq<Counter>, Fault>)
    ensures r.Err? ==> r.error == Fault(500, "")
    ensures r.Ok? ==> |r.value| == |ds|
  {
    if ds == [] then Ok([])
    else if !Complete(ds[0]) then Err(Fault(500, ""))
    else
      var d := ds[0];
      match CountersOf(ds[1..], lookup)
      case Err(e) => Err(e)
      case Ok(rest) => Ok([Counter(d.name.value, d.kind.value, d.note.value, SpriteOf(d, lookup))] + rest)
  }

  /**
   * The counters succeed exactly when every entry is complete, and then the
   * k-th counter carries the k-th entry's fields and its lookup's sprite.
   */
  lemma {:induction false} CountersOfSpec(ds: seq<Draft>, lookup: string -> Option<Record>)
    ensures CountersOf(ds, lookup).Ok? <==> forall k :: 0 <= k < |ds| ==> Complete(ds[k])
    ensures CountersOf(ds, lookup).Ok? ==> forall k :: 0 <= k < |ds| ==>
      CountersOf(ds, lookup).value[k] == Counter(ds[k].name.value, ds[k].kind.value, ds[k].note.value, SpriteOf(ds[k], lookup))
  {
    if ds != [] {
      CountersOfSpec(ds[1..], lookup);
      assert forall k :: 1 <= k < |ds| ==> ds[1..][k - 1] == ds[k];
    }
  }

  /**
   * Whether the request fails does not depend on the lookup: a failed sprite
   * lookup never stops the list.
   */
  lemma LookupFailureHarmless(ds: seq<Draft>, lookup: string -> Option<Record>, other: string -> Option<Record>)
    ensures CountersOf(ds, lookup).Ok? <==> CountersOf(ds, other).Ok?
  {
    CountersOfSpec(ds, lookup);
    CountersOfSpec(ds, other);
  }
}
