/**
 * The head-to-head verdict parser of the richer server: a loop over the
 * lines of the model's reply that records the value of the last `Winner:`,
 * `Confidence:`, `Reasoning:` and `Key Factors:` line, followed by defaults
 * for every field that ended up empty.
 */
module BattleParser {
  import opened Wrappers
  import opened Text
  import opened LineFields

  datatype Verdict = Verdict(winner: string, confidence: string, reasoning: string, keyFactors: seq<string>)

  const DefaultWinner := "Unknown"
  const DefaultConfidence := "Medium"
  const DefaultReasoning := "Analysis unavailable"
  const DefaultFactors := ["Type matchup", "Stat comparison"]

  /** No string of `ss` contains `c`. */
  predicate Avoid(ss: seq<string>, c: char) {
    forall k :: 0 <= k < |ss| ==> c !in ss[k]
  }

  /** Every string of `ss` is non-empty and stripped. */
  predicate AllStripped(ss: seq<string>) {
    forall k :: 0 <= k < |ss| ==> ss[k] != [] && Strip(ss[k]) == ss[k]
  }

  /** `[f.strip() for f in pieces if f.strip()]` */
  function Factors(pieces: seq<string>): (r: seq<string>)
    ensures AllStripped(r)
  {
    if pieces == [] then []
    else Kept(pieces[0]) + Factors(pieces[1..])
  }

  /** What one piece contributes: its stripped text, unless that is empty. */
  function Kept(p: string): (r: seq<string>)
    ensures AllStripped(r)
  {
    StripIdempotent(p);
    if Strip(p) == [] then [] else [Strip(p)]
  }

  /** A character absent from every piece is absent from every factor. */
  lemma {:induction false} FactorsAvoid(pieces: seq<string>, c: char)
    requires Avoid(pieces, c)
    ensures Avoid(Factors(pieces), c)
  {
    if pieces != [] {
      FactorsAvoid(pieces[1..], c);
      StripSlice(pieces[0]);
    }
  }

  /** `[f.strip() for f in text.replace("-", "").split(",") if f.strip()]` */
  function KeyFactors(text: string): (r: seq<string>)
    ensures AllStripped(r) && Avoid(r, ',') && Avoid(r, '-')
  {
    var pieces := Split(Remove(text, '-'), ',');
    assert Avoid(pieces, ',');
    assert Avoid(pieces, '-') by {
      forall k | 0 <= k < |pieces| ensures '-' !in pieces[k] {
        SplitPieceInside(Remove(text, '-'), ',', k);
      }
    }
    FactorsAvoid(pieces, ',');
    FactorsAvoid(pieces, '-');
    Factors(pieces)
  }

  /** A field's recorded text, or "" while no line has set it. */
  function TextOf(v: Option<string>): string {
    match v
    case None => ""
    case Some(s) => s
  }

  /** The factors recorded by the last `Key Factors:` line, or [] when there is none. */
  function FactorsOf(v: Option<string>): seq<string> {
    match v
    case None => []
    case Some(s) => KeyFactors(s)
  }

  /** `value or default` */
  function OrDefault<T(==)>(value: seq<T>, default: seq<T>): (r: seq<T>)
    ensures r != [] <== default != []
  {
    if value == [] then default else value
  }

  /**
   * The four variables of the loop after the given lines: the text of the
   * last line per marker ("" while there is none) and the factors of the
   * last `Key Factors:` line ([] while there is none).
   */
  function Recorded(lines: seq<string>): Verdict {
    Markers();
    Verdict(
      TextOf(LastValue(lines, "Winner:")),
      TextOf(LastValue(lines, "Confidence:")),
      TextOf(LastValue(lines, "Reasoning:")),
      FactorsOf(LastValue(lines, "Key Factors:")))
  }

  /** `BattleResult(winner=winner or "Unknown", ...)`: every empty field replaced by its default. */
  function Defaulted(r: Verdict): Verdict {
    Verdict(
      OrDefault(r.winner, DefaultWinner),
      OrDefault(r.confidence, DefaultConfidence),
      OrDefault(r.reasoning, DefaultReasoning),
      OrDefault(r.keyFactors, DefaultFactors))
  }

  /** The verdict the loop below produces for the (stripped) lines of a reply. */
  function VerdictOf(lines: seq<string>): Verdict {
    Defaulted(Recorded(lines))
  }

  lemma Markers()
    ensures IsMarker("Winner:") && IsMarker("Confidence:") && IsMarker("Reasoning:") && IsMarker("Key Factors:")
  {
    assert "Winner:"[..6] == "Winner";
    assert "Confidence:"[..10] == "Confidence";
    assert "Reasoning:"[..9] == "Reasoning";
    assert "Key Factors:"[..11] == "Key Factors";
  }

  /** The parsing of a battle reply: the loop below over the lines of the stripped reply. */
  method ParseVerdict(reply: string) returns (v: Verdict)
    ensures v == VerdictOf(Lines(reply))
  {
    v := ScanVerdict(Split(Strip(reply), '\n'));
  }

  /** The parsing loop of the battle endpoint; each line is stripped as it is read. */
  method ScanVerdict(raw: seq<string>) returns (v: Verdict)
    ensures v == VerdictOf(StripAll(raw))
  {
    ghost var lines := StripAll(raw);
    var winner, confidence, reasoning, factors := "", "", "", [];
    var i := 0;
    while i < |raw|
      invariant 0 <= i <= |raw| == |lines|
      invariant Verdict(winner, confidence, reasoning, factors) == Recorded(lines[..i])
    {
      var line := Strip(raw[i]);
      assert lines[..i + 1] == lines[..i] + [line];
      winner, confidence, reasoning, factors := Absorb(lines[..i], line, winner, confidence, reasoning, factors);
      i := i + 1;
    }
    assert lines[..i] == lines;
    v := Defaulted(Verdict(winner, confidence, reasoning, factors));
  }

  /** The body of the loop: one stripped line updates the variable of its marker. */
  method Absorb(ghost seen: seq<string>, line: string, winner: string, confidence: string, reasoning: string, factors: seq<string>)
    returns (winner': string, confidence': string, reasoning': string, factors': seq<string>)
    requires Verdict(winner, confidence, reasoning, factors) == Recorded(seen)
    ensures Verdict(winner', confidence', reasoning', factors') == Recorded(seen + [line])
  {
    Step(seen, line);
    winner', confidence', reasoning', factors' := winner, confidence, reasoning, factors;
    if StartsWith(line, "Winner:") {
      winner' := FieldValue(line);
    } else if StartsWith(line, "Confidence:") {
      confidence' := FieldValue(line);
    } else if StartsWith(line, "Reasoning:") {
      reasoning' := FieldValue(line);
    } else if StartsWith(line, "Key Factors:") {
      factors' := KeyFactors(FieldValue(line));
    }
  }

  /** One more line updates the variable of the marker it starts with, and no other. */
  lemma Step(lines: seq<string>, line: string)
    ensures var d, e := Recorded(lines), Recorded(lines + [line]);
      if StartsWith(line, "Winner:") then ':' in line && e == d.(winner := FieldValue(line))
      else if StartsWith(line, "Confidence:") then ':' in line && e == d.(confidence := FieldValue(line))
      else if StartsWith(line, "Reasoning:") then ':' in line && e == d.(reasoning := FieldValue(line))
      else if StartsWith(line, "Key Factors:") then ':' in line && e == d.(keyFactors := KeyFactors(FieldValue(line)))
      else e == d
  {
    Markers();
    StartsWithDistinct(line, "Winner:", "Confidence:");
    StartsWithDistinct(line, "Winner:", "Reasoning:");
    StartsWithDistinct(line, "Winner:", "Key Factors:");
    StartsWithDistinct(line, "Confidence:", "Reasoning:");
    StartsWithDistinct(line, "Confidence:", "Key Factors:");
    StartsWithDistinct(line, "Reasoning:", "Key Factors:");
    if StartsWith(line, "Winner:") {
      LastValueTakes(lines, line, "Winner:");
      LastValueSkips(lines, line, "Confidence:");
      LastValueSkips(lines, line, "Reasoning:");
      LastValueSkips(lines, line, "Key Factors:");
    } else if StartsWith(line, "Confidence:") {
      LastValueSkips(lines, line, "Winner:");
      LastValueTakes(lines, line, "Confidence:");
      LastValueSkips(lines, line, "Reasoning:");
      LastValueSkips(lines, line, "Key Factors:");
    } else if StartsWith(line, "Reasoning:") {
      LastValueSkips(lines, line, "Winner:");
      LastValueSkips(lines, line, "Confidence:");
      LastValueTakes(lines, line, "Reasoning:");
      LastValueSkips(lines, line, "Key Factors:");
    } else if StartsWith(line, "Key Factors:") {
      LastValueSkips(lines, line, "Winner:");
      LastValueSkips(lines, line, "Confidence:");
      LastValueSkips(lines, line, "Reasoning:");
      LastValueTakes(lines, line, "Key Factors:");
    } else {
      LastValueSkips(lines, line, "Winner:");
      LastValueSkips(lines, line, "Confidence:");
      LastValueSkips(lines, line, "Reasoning:");
      LastValueSkips(lines, line, "Key Factors:");
    }
  }

  /**
   * The factors of a list of pieces, piece by piece: a piece contributes its
   * stripped text when that is non-empty and nothing otherwise, and the
   * contributions follow the order of the pieces.
   */
  lemma {:induction false} FactorsAppend(a: seq<string>, b: seq<string>)
    ensures Factors(a + b) == Factors(a) + Factors(b)
    ensures forall p :: Factors([p]) == if Strip(p) == [] then [] else [Strip(p)]
  {
    FactorsConcat(a, b);
    forall p
      ensures Factors([p]) == Kept(p)
    {
      assert [p][1..] == [];
    }
  }

  lemma {:induction false} FactorsConcat(a: seq<string>, b: seq<string>)
    ensures Factors(a + b) == Factors(a) + Factors(b)
  {
    FactorsFlat(a + b);
    FactorsFlat(a);
    FactorsFlat(b);
    FlatAppend(Kept, a, b);
  }

  /** The pieces' contributions, concatenated in order. */
  function Flat<T, U>(f: T -> seq<U>, xs: seq<T>): seq<U> {
    if xs == [] then [] else f(xs[0]) + Flat(f, xs[1..])
  }

  lemma {:induction false} FlatAppend<T, U>(f: T -> seq<U>, a: seq<T>, b: seq<T>)
    ensures Flat(f, a + b) == Flat(f, a) + Flat(f, b)
  {
    if a == [] {
      assert a + b == b;
    } else {
      assert (a + b)[1..] == a[1..] + b;
      FlatAppend(f, a[1..], b);
    }
  }

  /** The comprehension is the flattening of the pieces' contributions. */
  lemma {:induction false} FactorsFlat(pieces: seq<string>)
    ensures Factors(pieces) == Flat(Kept, pieces)
  {
    if pieces != [] {
      FactorsFlat(pieces[1..]);
    }
  }

  /** Each factor with its hyphens removed. */
  function Dehyphen(fs: seq<string>): (r: seq<string>)
    ensures |r| == |fs|
    ensures forall k :: 0 <= k < |fs| ==> r[k] == Remove(fs[k], '-')
  {
    seq(|fs|, k requires 0 <= k < |fs| => Remove(fs[k], '-'))
  }

  /**
   * The key factors round trip: factors free of commas, listed as
   * `a, b, c`, are read back in order with their hyphens removed, provided
   * each is still non-empty and stripped once its hyphens are gone; factors
   * without hyphens are read back exactly.
   */
  lemma {:induction false} KeyFactorsJoin(fs: seq<string>)
    requires forall k :: 0 <= k < |fs| ==> ',' !in fs[k] && Remove(fs[k], '-') != [] && Strip(Remove(fs[k], '-')) == Remove(fs[k], '-')
    ensures KeyFactors(Join(fs, ", ")) == Dehyphen(fs)
    ensures (forall k :: 0 <= k < |fs| ==> '-' !in fs[k]) ==> KeyFactors(Join(fs, ", ")) == fs
  {
    RemoveInJoin(fs);
    FactorsOfJoin(Dehyphen(fs));
  }

  /**
   * The key factors of any text: cut at its commas, each piece with its
   * hyphens removed, then stripped and kept when non-empty.
   */
  lemma KeyFactorsPieces(text: string)
    ensures KeyFactors(text) == Factors(Dehyphen(Split(text, ',')))
  {
    SplitDehyphen(text);
  }

  /** Hyphens removed before or after cutting at commas give the same pieces. */
  lemma {:induction false} SplitDehyphen(t: string)
    ensures Split(Remove(t, '-'), ',') == Dehyphen(Split(t, ','))
  {
    if t != [] {
      var x, u := t[0], t[1..];
      assert t == [x] + u;
      SplitDehyphen(u);
      if x == '-' {
        HyphenStep(u);
      } else if x == ',' {
        CommaStep(u);
      } else {
        OtherStep(x, u);
      }
    }
  }

  lemma DehyphenCons(p: string, ps: seq<string>)
    ensures Dehyphen([p] + ps) == [Remove(p, '-')] + Dehyphen(ps)
  {
  }

  lemma HyphenStep(u: string)
    requires Split(Remove(u, '-'), ',') == Dehyphen(Split(u, ','))
    ensures Split(Remove(['-'] + u, '-'), ',') == Dehyphen(Split(['-'] + u, ','))
  {
    var rest := Split(u, ',');
    assert (['-'] + u)[1..] == u;
    assert Remove(['-'] + u, '-') == Remove(u, '-');
    assert Split(['-'] + u, ',') == [['-'] + rest[0]] + rest[1..];
    RemoveAppend(['-'], rest[0], '-');
    DehyphenCons(['-'] + rest[0], rest[1..]);
    DehyphenCons(rest[0], rest[1..]);
    assert rest == [rest[0]] + rest[1..];
  }

  lemma CommaStep(u: string)
    requires Split(Remove(u, '-'), ',') == Dehyphen(Split(u, ','))
    ensures Split(Remove([','] + u, '-'), ',') == Dehyphen(Split([','] + u, ','))
  {
    var rest := Split(u, ',');
    var v := Remove(u, '-');
    assert ([','] + u)[1..] == u;
    assert Remove([','] + u, '-') == [','] + v;
    assert ([','] + v)[1..] == v;
    assert Split([','] + u, ',') == [[]] + rest;
    DehyphenCons([], rest);
  }

  lemma OtherStep(x: char, u: string)
    requires x != '-' && x != ','
    requires Split(Remove(u, '-'), ',') == Dehyphen(Split(u, ','))
    ensures Split(Remove([x] + u, '-'), ',') == Dehyphen(Split([x] + u, ','))
  {
    var rest := Split(u, ',');
    var v := Remove(u, '-');
    assert ([x] + u)[1..] == u;
    assert Remove([x] + u, '-') == [x] + v;
    SplitCons(x, v, ',');
    SplitCons(x, u, ',');
    RemoveAppend([x], rest[0], '-');
    DehyphenCons([x] + rest[0], rest[1..]);
    DehyphenCons(rest[0], rest[1..]);
    assert rest == [rest[0]] + rest[1..];
  }

  /** Removing the hyphens of an `a, b, c` list removes those of each factor. */
  lemma {:induction false} RemoveInJoin(fs: seq<string>)
    ensures Remove(Join(fs, ", "), '-') == Join(Dehyphen(fs), ", ")
  {
    if |fs| > 1 {
      var tail, ds := Join(fs[1..], ", "), Dehyphen(fs);
      RemoveInJoin(fs[1..]);
      assert ds[1..] == Dehyphen(fs[1..]);
      assert Join(fs, ", ") == fs[0] + (", " + tail);
      assert Join(ds, ", ") == ds[0] + (", " + Join(ds[1..], ", "));
      RemoveAppend(fs[0], ", " + tail, '-');
      RemoveSeparator(tail);
    }
  }

  /** The separator `", "` has no hyphen to lose. */
  lemma RemoveSeparator(tail: string)
    ensures Remove(", " + tail, '-') == ", " + Remove(tail, '-')
  {
    RemoveAppend(", ", tail, '-');
    RemoveAppend([','], [' '], '-');
    assert [','] + [' '] == ", ";
  }

  lemma {:induction false} FactorsOfJoin(fs: seq<string>)
    requires forall k :: 0 <= k < |fs| ==> fs[k] != [] && Strip(fs[k]) == fs[k] && ',' !in fs[k]
    ensures Factors(Split(Join(fs, ", "), ',')) == fs
  {
    if |fs| == 0 {
      assert Split("", ',') == [""];
    } else if |fs| == 1 {
      SplitWithout(fs[0], ',');
    } else {
      var tail := Join(fs[1..], ", ");
      assert Join(fs, ", ") == fs[0] + [','] + (" " + tail);
      SplitAround(fs[0], " " + tail, ',');
      SplitWithout(fs[0], ',');
      FactorsOfJoin(fs[1..]);
      FactorsPadded(tail);
      assert Split(Join(fs, ", "), ',') == [fs[0]] + Split(" " + tail, ',');
    }
  }

  /** A space after a comma does not change the factors. */
  lemma FactorsPadded(s: string)
    ensures Factors(Split(" " + s, ',')) == Factors(Split(s, ','))
  {
    var rest := Split(s, ',');
    assert (" " + s)[1..] == s;
    assert Split(" " + s, ',') == [" " + rest[0]] + rest[1..];
    StripLeadingSpace(' ', rest[0]);
    assert rest == [rest[0]] + rest[1..];
  }

  /**
   * A reply with no recognised line yields the full default verdict.
   */
  lemma NoFieldsGivesDefaults(reply: string)
    requires forall i :: 0 <= i < |Lines(reply)| ==>
      !StartsWith(Lines(reply)[i], "Winner:") && !StartsWith(Lines(reply)[i], "Confidence:")
      && !StartsWith(Lines(reply)[i], "Reasoning:") && !StartsWith(Lines(reply)[i], "Key Factors:")
    ensures VerdictOf(Lines(reply)) == Verdict(DefaultWinner, DefaultConfidence, DefaultReasoning, DefaultFactors)
  {
    Markers();
    var lines := Lines(reply);
    LastValueAbsent(lines, "Winner:");
    LastValueAbsent(lines, "Confidence:");
    LastValueAbsent(lines, "Reasoning:");
    LastValueAbsent(lines, "Key Factors:");
  }

  /**
   * The last `Winner:` line decides the winner, even when its value is
   * empty: the default then comes back.
   */
  lemma LastWinnerWins(lines: seq<string>, i: nat)
    requires i < |lines| && StartsWith(lines[i], "Winner:")
    requires forall j :: i < j < |lines| ==> !StartsWith(lines[j], "Winner:")
    ensures VerdictOf(lines).winner == OrDefault(Strip(lines[i][7..]), DefaultWinner)
  {
    Markers();
    LastValueAt(lines, "Winner:", i);
  }

  /** A line that starts with none of the four markers changes nothing. */
  lemma UnrecognisedLineIgnored(lines: seq<string>, line: string)
    requires !StartsWith(line, "Winner:") && !StartsWith(line, "Confidence:")
    requires !StartsWith(line, "Reasoning:") && !StartsWith(line, "Key Factors:")
    ensures VerdictOf(lines + [line]) == VerdictOf(lines)
  {
    Markers();
    Step(lines, line);
  }
}
