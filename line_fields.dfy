/**
 * The line discipline shared by the three parsers of model replies: the reply
 * is stripped and split on line feeds, every line is stripped, and a line
 * that starts with a marker such as `Winner:` carries the value after its
 * first colon, stripped.
 */
module LineFields {
  import opened Wrappers
  import opened Text

  /** `[line.strip() for line in raw]` */
  function StripAll(raw: seq<string>): (ls: seq<string>)
    ensures |ls| == |raw|
    ensures forall i :: 0 <= i < |raw| ==> ls[i] == Strip(raw[i])
  {
    seq(|raw|, i requires 0 <= i < |raw| => Strip(raw[i]))
  }

  /** The lines the parsers read: `text.strip().split('\n')`, each line stripped. */
  function Lines(text: string): (ls: seq<string>)
    ensures |ls| >= 1
  {
    StripAll(Split(Strip(text), '\n'))
  }

  /** A field marker: a name followed by its one colon, as in `Key Factors:`. */
  predicate IsMarker(p: string) {
    |p| > 0 && p[|p| - 1] == ':' && ':' !in p[..|p| - 1]
  }

  /** `line.split(":", 1)[1].strip()`: what follows the first colon, stripped. */
  function FieldValue(line: string): string
    requires ':' in line
  {
    Strip(line[IndexOf(line, ':') + 1..])
  }

  /** On a line that starts with a marker, the first colon is the marker's own. */
  lemma MarkedValue(line: string, p: string)
    requires IsMarker(p) && StartsWith(line, p)
    ensures ':' in line && FieldValue(line) == Strip(line[|p|..])
  {
    var n := |p| - 1;
    assert line[..|p|] == p;
    assert line[n] == ':';
    assert forall k :: 0 <= k < n ==> line[k] == p[..n][k];
    var i := IndexOf(line, ':');
    assert i == n;
  }

  /**
   * The value of the last line that starts with the marker `p`, or None when
   * no line does: the effect of a loop that overwrites a variable on every
   * match.
   */
  function LastValue(lines: seq<string>, p: string): Option<string>
    requires IsMarker(p)
  {
    if lines == [] then None
    else
      var last := lines[|lines| - 1];
      if StartsWith(last, p) then
        MarkedValue(last, p);
        Some(FieldValue(last))
      else
        LastValue(lines[..|lines| - 1], p)
  }

  /** LastValue is None exactly when no line starts with the marker. */
  lemma {:induction false} LastValueAbsent(lines: seq<string>, p: string)
    requires IsMarker(p)
    ensures LastValue(lines, p).None? <==> forall i :: 0 <= i < |lines| ==> !StartsWith(lines[i], p)
  {
    if lines != [] {
      var n := |lines|;
      LastValueAbsent(lines[..n - 1], p);
      assert forall i :: 0 <= i < n - 1 ==> lines[..n - 1][i] == lines[i];
    }
  }

  /**
   * When line `i` is the last one that starts with the marker, LastValue is
   * the stripped text after the marker on that line.
   */
  lemma {:induction false} LastValueAt(lines: seq<string>, p: string, i: nat)
    requires IsMarker(p) && i < |lines| && StartsWith(lines[i], p)
    requires forall j :: i < j < |lines| ==> !StartsWith(lines[j], p)
    ensures LastValue(lines, p) == Some(Strip(lines[i][|p|..]))
  {
    var n := |lines|;
    if i == n - 1 {
      MarkedValue(lines[i], p);
    } else {
      assert !StartsWith(lines[n - 1], p);
      var init := lines[..n - 1];
      assert init[i] == lines[i];
      assert forall j :: i < j < n - 1 ==> init[j] == lines[j];
      LastValueAt(init, p, i);
    }
  }

  /** Appending a line that does not start with the marker leaves its value alone. */
  lemma LastValueSkips(lines: seq<string>, line: string, p: string)
    requires IsMarker(p) && !StartsWith(line, p)
    ensures LastValue(lines + [line], p) == LastValue(lines, p)
  {
    assert (lines + [line])[..|lines|] == lines;
  }

  /** Appending a line that starts with the marker makes its value the field's value. */
  lemma LastValueTakes(lines: seq<string>, line: string, p: string)
    requires IsMarker(p) && StartsWith(line, p)
    ensures ':' in line && LastValue(lines + [line], p) == Some(FieldValue(line))
  {
    MarkedValue(line, p);
  }
}
