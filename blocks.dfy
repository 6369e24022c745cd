/**
 * The block discipline shared by the counter and team parsers of the richer
 * server. The stripped lines of the model's reply fall into blocks separated
 * by blank lines. In each block, the last `Name:`, `Type:` and third-field
 * line (`Reason:` for counters, `Role:` for team members) fill a dict, and a
 * dict that holds at least one field is emitted.
 */
module Blocks {
  import opened Wrappers
  import opened Text
  import opened LineFields

  /**
   * The `current_counter` / `current_member` dict: the values of the `Name:`,
   * `Type:` and third-field lines seen so far in a block. Each is absent
   * until a line sets it.
   */
  datatype Draft = Draft(name: Option<string>, kind: Option<string>, note: Option<string>)

  /** An empty dict, which a blank line or the end of the text does not emit. */
  predicate Blank(d: Draft) {
    d.name.None? && d.kind.None? && d.note.None?
  }

  /** A third-field marker that cannot be confused with `Name:` or `Type:`. */
  predicate NoteMarker(m: string) {
    IsMarker(m) && m[0] != 'N' && m[0] != 'T'
  }

  lemma NameTypeMarkers()
    ensures IsMarker("Name:") && IsMarker("Type:")
  {
    assert "Name:"[..4] == "Name";
    assert "Type:"[..4] == "Type";
  }

  /** The dict one block of lines leaves behind. */
  function DraftOf(block: seq<string>, note: string): Draft
    requires NoteMarker(note)
  {
    NameTypeMarkers();
    Draft(LastValue(block, "Name:"), LastValue(block, "Type:"), LastValue(block, note))
  }

  /** The dicts of the non-empty blocks, in block order. */
  function Drafts(blocks: seq<seq<string>>, note: string): (r: seq<Draft>)
    requires NoteMarker(note)
    ensures |r| <= |blocks|
    ensures forall k :: 0 <= k < |r| ==> !Blank(r[k])
  {
    if blocks == [] then []
    else
      var d := DraftOf(blocks[0], note);
      (if Blank(d) then [] else [d]) + Drafts(blocks[1..], note)
  }

  /** The entries the parsing loop emits for the (stripped) lines of a reply. */
  function Entries(lines: seq<string>, note: string): seq<Draft>
    requires NoteMarker(note)
  {
    Drafts(Split(lines, ""), note)
  }

  /** The parsing of a counter or team reply: the loop below over the lines of the stripped reply. */
  method ParseBlocks(reply: string, note: string) returns (drafts: seq<Draft>)
    requires NoteMarker(note)
    ensures drafts == Entries(Lines(reply), note)
  {
    drafts := ScanLines(Split(Strip(reply), '\n'), note);
  }

  /** The parsing loop shared by the counter and team endpoints; each line is stripped as it is read. */
  method ScanLines(raw: seq<string>, note: string) returns (drafts: seq<Draft>)
    requires NoteMarker(note)
    ensures drafts == Entries(StripAll(raw), note)
  {
    NameTypeMarkers();
    ghost var lines := StripAll(raw);
    ghost var seen: seq<string> := [];
    ghost var blocks: seq<seq<string>> := [];
    ghost var block: seq<string> := [];
    var name, kind, value := None, None, None;
    drafts := [];
    var i := 0;
    while i < |raw|
      invariant 0 <= i <= |raw| == |lines|
      invariant seen == lines[..i]
      invariant Split(seen, "") == blocks + [block]
      invariant drafts == Drafts(blocks, note)
      invariant Draft(name, kind, value) == DraftOf(block, note)
    {
      var line := Strip(raw[i]);
      assert lines[..i + 1] == lines[..i] + [line];
      if line == "" {
        BlockBreak(seen, blocks, block, note);
        drafts := Flush(blocks, block, note, drafts, Draft(name, kind, value));
        blocks := blocks + [block];
        block := [];
        name, kind, value := None, None, None;
      } else {
        BlockGrow(seen, blocks, block, line);
        name, kind, value := Absorb(block, line, note, name, kind, value);
        block := block + [line];
      }
      seen := seen + [line];
      i := i + 1;
    }
    assert seen == lines;
    drafts := Flush(blocks, block, note, drafts, Draft(name, kind, value));
  }

  /** `if current: ...append(current)`: the dict of a finished block is emitted unless it is empty. */
  method Flush(ghost blocks: seq<seq<string>>, ghost block: seq<string>, note: string, drafts: seq<Draft>, d: Draft)
    returns (drafts': seq<Draft>)
    requires NoteMarker(note) && drafts == Drafts(blocks, note) && d == DraftOf(block, note)
    ensures drafts' == Drafts(blocks + [block], note)
  {
    BlockEnd(blocks, block, note);
    drafts' := drafts;
    if !Blank(d) {
      drafts' := drafts + [d];
    }
  }

  /** A non-blank line of a block sets the field of the marker it starts with. */
  method Absorb(ghost block: seq<string>, line: string, note: string, name: Option<string>, kind: Option<string>, value: Option<string>)
    returns (name': Option<string>, kind': Option<string>, value': Option<string>)
    requires NoteMarker(note) && Draft(name, kind, value) == DraftOf(block, note)
    ensures Draft(name', kind', value') == DraftOf(block + [line], note)
  {
    DraftStep(block, line, note);
    name', kind', value' := name, kind, value;
    if StartsWith(line, "Name:") {
      name' := Some(FieldValue(line));
    } else if StartsWith(line, "Type:") {
      kind' := Some(FieldValue(line));
    } else if StartsWith(line, note) {
      value' := Some(FieldValue(line));
    }
  }

  /** A blank line closes the current block and opens an empty one. */
  lemma BlockBreak(prefix: seq<string>, blocks: seq<seq<string>>, block: seq<string>, note: string)
    requires NoteMarker(note) && Split(prefix, "") == blocks + [block]
    ensures Split(prefix + [""], "") == (blocks + [block]) + [[]]
    ensures Drafts(blocks + [block], note) == Drafts(blocks, note) + (if Blank(DraftOf(block, note)) then [] else [DraftOf(block, note)])
  {
    SplitSnoc(prefix, "", "");
    BlockEnd(blocks, block, note);
  }

  /** A non-blank line joins the current block. */
  lemma BlockGrow(prefix: seq<string>, blocks: seq<seq<string>>, block: seq<string>, line: string)
    requires line != "" && Split(prefix, "") == blocks + [block]
    ensures Split(prefix + [line], "") == blocks + [block + [line]]
  {
    SplitSnoc(prefix, line, "");
    assert (blocks + [block])[..|blocks|] == blocks;
  }

  /** The last block's dict follows those of the closed blocks. */
  lemma BlockEnd(blocks: seq<seq<string>>, block: seq<string>, note: string)
    requires NoteMarker(note)
    ensures Drafts(blocks + [block], note) == Drafts(blocks, note) + (if Blank(DraftOf(block, note)) then [] else [DraftOf(block, note)])
  {
    DraftsAppend(blocks, [block], note);
    assert Drafts([block], note) == (if Blank(DraftOf(block, note)) then [] else [DraftOf(block, note)]) + Drafts([], note);
  }

  /** One more non-blank line updates the field whose marker it starts with, and no other. */
  lemma DraftStep(block: seq<string>, line: string, note: string)
    requires NoteMarker(note)
    ensures NoteMarker(note) && IsMarker("Name:") && IsMarker("Type:")
    ensures var d, e := DraftOf(block, note), DraftOf(block + [line], note);
      if StartsWith(line, "Name:") then ':' in line && e == d.(name := Some(FieldValue(line)))
      else if StartsWith(line, "Type:") then ':' in line && e == d.(kind := Some(FieldValue(line)))
      else if StartsWith(line, note) then ':' in line && e == d.(note := Some(FieldValue(line)))
      else e == d
  {
    NameTypeMarkers();
    StartsWithDistinct(line, "Name:", "Type:");
    StartsWithDistinct(line, "Name:", note);
    StartsWithDistinct(line, "Type:", note);
    if StartsWith(line, "Name:") {
      LastValueTakes(block, line, "Name:");
      LastValueSkips(block, line, "Type:");
      LastValueSkips(block, line, note);
    } else if StartsWith(line, "Type:") {
      LastValueSkips(block, line, "Name:");
      LastValueTakes(block, line, "Type:");
      LastValueSkips(block, line, note);
    } else if StartsWith(line, note) {
      LastValueSkips(block, line, "Name:");
      LastValueSkips(block, line, "Type:");
      LastValueTakes(block, line, note);
    } else {
      LastValueSkips(block, line, "Name:");
      LastValueSkips(block, line, "Type:");
      LastValueSkips(block, line, note);
    }
  }

  /** The entries of consecutive runs of blocks are concatenated in order. */
  lemma {:induction false} DraftsAppend(a: seq<seq<string>>, b: seq<seq<string>>, note: string)
    requires NoteMarker(note)
    ensures Drafts(a + b, note) == Drafts(a, note) + Drafts(b, note)
  {
    if a == [] {
      assert a + b == b;
    } else {
      assert (a + b)[0] == a[0];
      assert (a + b)[1..] == a[1..] + b;
      DraftsAppend(a[1..], b, note);
      var d := DraftOf(a[0], note);
      var head := if Blank(d) then [] else [d];
      assert Drafts(a + b, note) == head + Drafts(a[1..] + b, note);
      assert Drafts(a, note) == head + Drafts(a[1..], note);
    }
  }

  /** A blank line separates: the text on each side contributes its own entries, in order. */
  lemma EntriesAround(a: seq<string>, b: seq<string>, note: string)
    requires NoteMarker(note)
    ensures Entries(a + [""] + b, note) == Entries(a, note) + Entries(b, note)
  {
    SplitAround(a, b, "");
    DraftsAppend(Split(a, ""), Split(b, ""), note);
  }

  /** No lines emit nothing. */
  lemma NoLinesNoEntries(note: string)
    requires NoteMarker(note)
    ensures Entries([], note) == []
  {
    NameTypeMarkers();
    var none: seq<string> := [];
    assert Split(none, "") == [[]];
    assert Drafts([none], note) == [] + Drafts([], note);
  }

  /** Blank lines added at the end change nothing. */
  lemma TrailingBlankIgnored(lines: seq<string>, note: string)
    requires NoteMarker(note)
    ensures Entries(lines + [""], note) == Entries(lines, note)
  {
    EntriesAround(lines, [], note);
    assert lines + [""] + [] == lines + [""];
    NoLinesNoEntries(note);
  }

  /** A run of blank lines, however long, emits nothing. */
  lemma {:induction false} BlankLinesNoEntries(lines: seq<string>, note: string)
    requires NoteMarker(note)
    requires forall i :: 0 <= i < |lines| ==> lines[i] == ""
    ensures Entries(lines, note) == []
  {
    if lines == [] {
      NoLinesNoEntries(note);
    } else {
      var init := lines[..|lines| - 1];
      BlankLinesNoEntries(init, note);
      assert lines == init + [""];
      TrailingBlankIgnored(init, note);
    }
  }

  /** A reply that is empty or white space only emits nothing. */
  lemma BlankReplyNoEntries(reply: string, note: string)
    requires NoteMarker(note) && Strip(reply) == []
    ensures Entries(Lines(reply), note) == []
  {
    assert Split(Strip(reply), '\n') == [[]];
    assert Lines(reply) == [""];
    BlankLinesNoEntries(Lines(reply), note);
  }

  /**
   * A block without blank lines, the last block of a text included, emits
   * its dict exactly when the dict is not empty.
   */
  lemma OneBlock(block: seq<string>, note: string)
    requires NoteMarker(note) && "" !in block
    ensures Entries(block, note) == if Blank(DraftOf(block, note)) then [] else [DraftOf(block, note)]
  {
    SplitWithout(block, "");
    BlockEnd([], block, note);
    assert [] + [block] == [block];
  }

  /** A block's dict is empty exactly when none of its lines starts with one of the three markers. */
  lemma BlankDraft(block: seq<string>, note: string)
    requires NoteMarker(note)
    ensures IsMarker("Name:") && IsMarker("Type:")
    ensures Blank(DraftOf(block, note)) <==>
      forall i :: 0 <= i < |block| ==>
        !StartsWith(block[i], "Name:") && !StartsWith(block[i], "Type:") && !StartsWith(block[i], note)
  {
    NameTypeMarkers();
    LastValueAbsent(block, "Name:");
    LastValueAbsent(block, "Type:");
    LastValueAbsent(block, note);
  }

  /** Within a block, the last line with a given marker decides that field. */
  lemma LastLineDecides(block: seq<string>, note: string, p: string, i: nat)
    requires NoteMarker(note) && p in ["Name:", "Type:", note]
    requires i < |block| && StartsWith(block[i], p)
    requires forall j :: i < j < |block| ==> !StartsWith(block[j], p)
    ensures var d, v := DraftOf(block, note), Some(Strip(block[i][|p|..]));
      (p == "Name:" ==> d.name == v) && (p == "Type:" ==> d.kind == v) && (p == note ==> d.note == v)
  {
    NameTypeMarkers();
    LastValueAt(block, p, i);
  }
}
