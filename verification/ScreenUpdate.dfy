/** Frame::update against a full redraw: what the emitted bytes do to a screen, over any run of updates
    and resizes. Models struct Frame of amdgpu_mtop/render.h. */
module ScreenUpdate {
  import opened Words
  import opened Terminal
  import opened Clipping

  const CLEAR_SCREEN: seq<Byte> := [27, 91, 50, 74] // ESC [ 2 J
  const STYLE_RESET: seq<Byte> := [27, 91, 48, 109] // ESC [ 0 m
  const ERASE_LINE: seq<Byte> := [27, 91, 75] // ESC [ K

  function MoveText(i: nat): seq<Byte> {
    [27, 91] + Dec(i + 1) + [59, 49, 72]
  }

  function RowText(i: nat, line: seq<Byte>): seq<Byte> {
    MoveText(i) + line + STYLE_RESET + ERASE_LINE
  }

  function MoveOp(i: nat): Op {
    Csi(Dec(i + 1) + [SEMICOLON] + Dec(1), 72)
  }

  function Tail(): seq<Op> {
    [Csi([48], 109), Csi([], 75)]
  }

  function RowOps(i: nat, line: seq<Op>): seq<Op> {
    [MoveOp(i)] + line + Tail()
  }

  lemma MoveMeans(i: nat, s: Screen)
    ensures OpValid(MoveOp(i)) && EncodeAll([MoveOp(i)]) == MoveText(i) && Exec(s, MoveOp(i)) == s.(r := i, c := 0)
  {
    TwoNumbers(i + 1, 1);
    assert Dec(1) == [49];
    assert [MoveOp(i)][1..] == [];
    assert EncodeAll([MoveOp(i)]) == Encode(MoveOp(i));
  }

  lemma TailMeans()
    ensures AllValid(Tail()) && EncodeAll(Tail()) == STYLE_RESET + ERASE_LINE
  {
    assert Tail()[1..] == [Tail()[1]] && Tail()[1..][1..] == [];
    assert EncodeAll(Tail()[1..]) == Encode(Tail()[1]);
  }

  lemma LineIsValid(line: seq<Op>)
    requires Line(line)
    ensures AllValid(line)
  {
  }

  lemma RowOpsValid(i: nat, line: seq<Op>)
    requires Line(line)
    ensures AllValid(RowOps(i, line)) && EncodeAll(RowOps(i, line)) == RowText(i, EncodeAll(line))
  {
    hide MoveOp, MoveText, Tail, OpValid, Encode;
    LineIsValid(line);
    MoveMeans(i, Blank(0, 0));
    TailMeans();
    EncodeAppend([MoveOp(i)] + line, Tail());
    EncodeAppend([MoveOp(i)], line);
    var text := EncodeAll(line);
    assert MoveText(i) + text + STYLE_RESET + ERASE_LINE == MoveText(i) + text + (STYLE_RESET + ERASE_LINE);
  }

  // ---- What one row does -------------------------------------------------------------------------

  /** A row with glyphs written over it from column c on, as far as it reaches. */
  function Overlay(row: seq<Cell>, c: nat, gs: seq<Cell>): seq<Cell> {
    seq(|row|, j requires 0 <= j < |row| => if c <= j < c + |gs| then gs[j - c] else row[j])
  }

  /** What one operation of a line does. */
  lemma OneOp(s: Screen, op: Op)
    requires LineOp(op) && s.r < |s.cells|
    ensures OpRuns(op)
    ensures op.Csi? ==> Exec(s, op) == s
    ensures op.Glyph? ==>
      && Exec(s, op).cells == s.cells[s.r := Exec(s, op).cells[s.r]] && Exec(s, op).columns == s.columns
      && Exec(s, op).cells[s.r] == (if s.c < |s.cells[s.r]| then s.cells[s.r][s.c := op.bytes] else s.cells[s.r])
      && Exec(s, op).r == s.r && Exec(s, op).c == s.c + 1
  {
  }

  lemma OverlayStep(row: seq<Cell>, c: nat, gs: seq<Cell>)
    ensures gs == [] ==> Overlay(row, c, gs) == row
    ensures gs != [] ==> Overlay(if c < |row| then row[c := gs[0]] else row, c + 1, gs[1..]) == Overlay(row, c, gs)
  {
  }

  lemma {:induction false} ExecLine(s: Screen, line: seq<Op>)
    requires Line(line) && s.r < |s.cells|
    ensures ExecAll(s, line) == s.(cells := s.cells[s.r := Overlay(s.cells[s.r], s.c, Glyphs(line))], c := s.c + |Glyphs(line)|)
    decreases |line|
  {
    hide Overlay, OpValid;
    OverlayStep(s.cells[s.r], s.c, Glyphs(line));
    if line == [] {
      assert s.cells[s.r := s.cells[s.r]] == s.cells;
    } else {
      OneOp(s, line[0]);
      var t := Exec(s, line[0]);
      ExecLine(t, line[1..]);
      if line[0].Glyph? {
        assert Glyphs(line)[1..] == Glyphs(line[1..]);
        var row := Overlay(s.cells[s.r], s.c, Glyphs(line));
        assert s.cells[s.r := t.cells[s.r]][s.r := row] == s.cells[s.r := row];
      }
    }
  }

  /** The cells a line leaves on a row. */
  function Image(line: seq<Op>, columns: nat): seq<Cell> {
    Overlay(BlankRow(columns), 0, Glyphs(line))
  }

  lemma ExecOne(s: Screen, op: Op)
    requires OpValid(op)
    ensures ExecAll(s, [op]) == Exec(s, op)
  {
  }

  lemma OverlayFits(row: seq<Cell>, gs: seq<Cell>)
    ensures |Overlay(row, 0, gs)| == |row|
  {
  }

  lemma ExecTail(s: Screen, i: nat, gs: seq<Cell>, row: seq<Cell>)
    requires i < |s.cells| && s.r == i && s.c == |gs| && s.cells[i] == Overlay(row, 0, gs) && |row| == s.columns
    ensures AllValid(Tail())
    ensures ExecAll(s, Tail()) == s.(cells := s.cells[i := Overlay(BlankRow(s.columns), 0, gs)])
  {
    TailMeans();
    var reset, erase := Tail()[0], Tail()[1];
    assert Tail()[1..] == [erase];
    assert Exec(s, reset) == s;
    ExecOne(s, erase);
    var image := Overlay(BlankRow(s.columns), 0, gs);
    if |gs| <= s.columns {
      assert s.cells[i][..s.c] + BlankRow(|s.cells[i]| - s.c) == image;
    } else {
      assert s.cells[i] == image;
      assert s.cells[i := image] == s.cells;
    }
  }

  /** Drawing a row changes that row alone, to the image of its line, whatever was there before. */
  lemma ExecRow(s: Screen, i: nat, line: seq<Op>)
    requires Line(line) && i < |s.cells| && |s.cells[i]| == s.columns
    ensures AllValid(RowOps(i, line))
    ensures ExecAll(s, RowOps(i, line)).cells == s.cells[i := Image(line, s.columns)] && ExecAll(s, RowOps(i, line)).columns == s.columns
  {
    hide MoveOp, MoveText, Tail, OpValid, OpRuns, Encode, Exec, Overlay;
    RowOpsValid(i, line);
    LineIsValid(line);
    MoveMeans(i, s);
    TailMeans();
    ValidRuns([MoveOp(i)]);
    ValidRuns(line);
    ValidRuns(Tail());
    ExecAppend(s, [MoveOp(i)] + line, Tail());
    ExecAppend(s, [MoveOp(i)], line);
    var moved := Exec(s, MoveOp(i));
    ExecOne(s, MoveOp(i));
    ExecLine(moved, line);
    OverlayFits(s.cells[i], Glyphs(line));
    ExecTail(ExecAll(moved, line), i, Glyphs(line), s.cells[i]);
    assert s.cells[i := Overlay(s.cells[i], 0, Glyphs(line))][i := Image(line, s.columns)] == s.cells[i := Image(line, s.columns)];
  }

  // ---- What an update does -----------------------------------------------------------------------

  /** The screen shows these lines, one a row. */
  ghost predicate Shows(lines: seq<seq<Op>>, s: Screen) {
    |s.cells| == |lines| && forall i :: 0 <= i < |lines| ==> s.cells[i] == Image(lines[i], s.columns)
  }

  predicate Lines(lines: seq<seq<Op>>) {
    forall i :: 0 <= i < |lines| ==> Line(lines[i])
  }

  /** The rows from i on that differ from what was drawn before. */
  function ChangedOps(before: seq<seq<Op>>, after: seq<seq<Op>>, i: nat): seq<Op>
    requires i <= |after|
    decreases |after| - i
  {
    if i == |after| then []
    else (if i < |before| && before[i] == after[i] then [] else RowOps(i, after[i])) + ChangedOps(before, after, i + 1)
  }

  /** Rows above i already show the new lines, the others still the old ones. */
  ghost predicate Halfway(before: seq<seq<Op>>, after: seq<seq<Op>>, i: nat, s: Screen) {
    && |s.cells| == |after| && |before| <= |after| && i <= |after|
    && (forall j :: 0 <= j < |after| ==> |s.cells[j]| == s.columns)
    && (forall j :: 0 <= j < i ==> s.cells[j] == Image(after[j], s.columns))
    && (forall j :: i <= j < |before| ==> s.cells[j] == Image(before[j], s.columns))
  }

  lemma ImageFits(line: seq<Op>, columns: nat)
    ensures |Image(line, columns)| == columns
  {
  }

  lemma {:induction false} ChangesShow(before: seq<seq<Op>>, after: seq<seq<Op>>, i: nat, s: Screen)
    requires Lines(after) && Halfway(before, after, i, s)
    ensures AllValid(ChangedOps(before, after, i))
    ensures var t := ExecAll(s, ChangedOps(before, after, i)); Shows(after, t) && t.columns == s.columns
    decreases |after| - i
  {
    hide Image;
    if i < |after| {
      var rest := ChangedOps(before, after, i + 1);
      if i < |before| && before[i] == after[i] {
        assert [] + rest == rest;
        ChangesShow(before, after, i + 1, s);
      } else {
        ExecRow(s, i, after[i]);
        ImageFits(after[i], s.columns);
        var t := ExecAll(s, RowOps(i, after[i]));
        ChangesShow(before, after, i + 1, t);
        ExecAppend(s, RowOps(i, after[i]), rest);
      }
    }
  }

  // ---- Frame --------------------------------------------------------------------------------------

  function OpsOf(text: seq<Byte>): seq<Op> {
    if Parse(text).Some? then Parse(text).value else []
  }

  function AllOps(texts: seq<seq<Byte>>): seq<seq<Op>> {
    seq(|texts|, i requires 0 <= i < |texts| => OpsOf(texts[i]))
  }

  predicate LineTexts(texts: seq<seq<Byte>>) {
    forall i :: 0 <= i < |texts| ==> LineText(texts[i])
  }

  /** The rows of a frame: each line clipped, empty rows below the last. */
  function Clipped(lines: seq<seq<Byte>>, columns: nat, i: nat): seq<Byte> {
    if i < |lines| then ClipBytes(lines[i], Limit(columns)) else []
  }

  lemma ClippedIsLine(lines: seq<seq<Byte>>, columns: nat, i: nat)
    requires LineTexts(lines)
    ensures LineText(Clipped(lines, columns, i))
    ensures OpsOf(Clipped(lines, columns, i)) == if i < |lines| then ClipOps(OpsOf(lines[i]), Limit(columns)) else []
  {
    if i < |lines| {
      var ops := Parse(lines[i]).value;
      ClipMeansOps(ops, Limit(columns));
      ParseOfEncoded(ClipOps(ops, Limit(columns)));
    }
  }

  /** The text for the rows from i on that differ, as bytes. */
  function ChangedText(before: seq<seq<Byte>>, after: seq<seq<Byte>>, i: nat): seq<Byte>
    requires i <= |after|
    decreases |after| - i
  {
    if i == |after| then []
    else (if i < |before| && before[i] == after[i] then [] else RowText(i, after[i])) + ChangedText(before, after, i + 1)
  }

  lemma ChangedStep(before: seq<seq<Byte>>, after: seq<seq<Byte>>, i: nat, out: seq<Byte>)
    requires i < |after|
    ensures out + ChangedText(before, after, i) ==
            (if i < |before| && before[i] == after[i] then out else out + RowText(i, after[i])) + ChangedText(before, after, i + 1)
  {
    var rest := ChangedText(before, after, i + 1);
    assert [] + rest == rest;
    assert out + (RowText(i, after[i]) + rest) == out + RowText(i, after[i]) + rest;
  }

  lemma ChangedEnds(before: seq<seq<Byte>>, after: seq<seq<Byte>>, out: seq<Byte>)
    ensures out + ChangedText(before, after, |after|) == out
  {
    assert out + [] == out;
  }

  /** Comparing bytes is as good as comparing what they mean. */
  lemma {:induction false} ChangedTextMeans(before: seq<seq<Byte>>, after: seq<seq<Byte>>, i: nat)
    requires i <= |after| && LineTexts(before) && LineTexts(after)
    ensures AllValid(ChangedOps(AllOps(before), AllOps(after), i))
    ensures EncodeAll(ChangedOps(AllOps(before), AllOps(after), i)) == ChangedText(before, after, i)
    decreases |after| - i
  {
    hide RowText, RowOps;
    if i < |after| {
      ChangedTextMeans(before, after, i + 1);
      var ops, rest := AllOps(after), ChangedOps(AllOps(before), AllOps(after), i + 1);
      if i < |before| && before[i] == after[i] {
        assert [] + rest == rest && [] + ChangedText(before, after, i + 1) == ChangedText(before, after, i + 1);
      } else {
        assert i < |before| ==> AllOps(before)[i] != ops[i];
        RowOpsValid(i, ops[i]);
        EncodeAppend(RowOps(i, ops[i]), rest);
      }
    }
  }

  class Frame {
    var width: nat
    var height: nat
    var previous: seq<seq<Byte>>

    ghost predicate Valid()
      reads this
    {
      |previous| == height && LineTexts(previous)
    }

    constructor ()
      ensures Valid() && width == 0 && height == 0
    {
      width, height, previous := 0, 0, [];
    }

    /** Frame::update. */
    method Update(lines: seq<seq<Byte>>, columns: nat, rows: nat) returns (out: seq<Byte>)
      requires Valid() && LineTexts(lines)
      modifies this
      ensures Valid() && width == columns && height == rows
      ensures |previous| == rows && forall i :: 0 <= i < rows ==> previous[i] == Clipped(lines, columns, i)
      ensures var same := old(width) == columns && old(height) == rows;
              out == (if same then [] else CLEAR_SCREEN) + ChangedText(if same then old(previous) else [], previous, 0)
    {
      hide RowText, ClipBytes, LineText, ChangedText;
      out := [];
      if width != columns || height != rows {
        out := CLEAR_SCREEN;
        previous := [];
      }
      ghost var before, start := previous, out;
      ghost var after := seq(rows, i requires 0 <= i < rows => Clipped(lines, columns, i));
      width, height := columns, rows;
      assert start + ChangedText(before, after, 0) == out + ChangedText(before, after, 0);
      for i := 0 to rows
        invariant width == columns && height == rows
        invariant |previous| == if i < |before| then |before| else i
        invariant forall j :: 0 <= j < i ==> previous[j] == after[j]
        invariant forall j :: i <= j < |before| ==> previous[j] == before[j]
        invariant start + ChangedText(before, after, 0) == out + ChangedText(before, after, i)
      {
        var line := [];
        if i < |lines| {
          line := ClipColumns(lines[i], if columns > 1 then columns - 1 else 1);
        }
        assert line == after[i];
        ChangedStep(before, after, i, out);
        if i >= |previous| || line != previous[i] {
          out := out + RowText(i, line);
        }
        if i >= |previous| {
          previous := previous + [line];
        } else {
          previous := previous[i := line];
        }
      }
      assert previous == after;
      ChangedEnds(before, after, out);
      forall i | 0 <= i < rows
        ensures LineText(previous[i])
      {
        ClippedIsLine(lines, columns, i);
      }
    }
  }

  // ---- Runs ---------------------------------------------------------------------------------------

  lemma ClearMeans(s: Screen)
    ensures Parse(CLEAR_SCREEN) == Some([Csi([50], 74)]) && AllValid([Csi([50], 74)]) && EncodeAll([Csi([50], 74)]) == CLEAR_SCREEN
    ensures ExecAll(s, [Csi([50], 74)]) == s.(cells := seq(|s.cells|, _ => BlankRow(s.columns)))
  {
    var op := Csi([50], 74);
    DigitsBeforeIs([50], 1);
    assert ParseNat([50]) == 2 by {
      assert [50][..0] == [];
    }
    assert [op][1..] == [];
    assert EncodeAll([op]) == Encode(op) == CLEAR_SCREEN;
    ParseOfEncoded([op]);
    ExecOne(s, op);
  }

  lemma AllLines(texts: seq<seq<Byte>>)
    requires LineTexts(texts)
    ensures Lines(AllOps(texts))
  {
  }

  lemma StartsHalfway(before: seq<seq<Op>>, after: seq<seq<Op>>, same: bool, s: Screen, t: Screen)
    requires Fits(s, |after|, s.columns) && (if same then Shows(before, s) && t == s else before == [])
    requires !same ==> t == s.(cells := seq(|s.cells|, _ => BlankRow(s.columns)))
    ensures Halfway(before, after, 0, t)
  {
  }

  /** What the emitted bytes do, for a screen that shows the previous rows or is cleared first. */
  lemma UpdateShows(before: seq<seq<Byte>>, after: seq<seq<Byte>>, same: bool, s: Screen)
    requires LineTexts(before) && LineTexts(after) && Fits(s, |after|, s.columns)
    requires if same then Shows(AllOps(before), s) else before == []
    ensures var out := (if same then [] else CLEAR_SCREEN) + ChangedText(before, after, 0);
            && Parse(out).Some? && AllValid(Parse(out).value)
            && Shows(AllOps(after), ExecAll(s, Parse(out).value)) && ExecAll(s, Parse(out).value).columns == s.columns
  {
    hide Shows, ChangedOps, ChangedText;
    var clear: seq<Op> := if same then [] else [Csi([50], 74)];
    var ops := ChangedOps(AllOps(before), AllOps(after), 0);
    ClearMeans(s);
    ChangedTextMeans(before, after, 0);
    EncodeAppend(clear, ops);
    var t := ExecAll(s, clear);
    AllLines(after);
    StartsHalfway(AllOps(before), AllOps(after), same, s, t);
    ChangesShow(AllOps(before), AllOps(after), 0, t);
    ExecAppend(s, clear, ops);
    ParseOfEncoded(clear + ops);
  }

  lemma ShowsRows(texts: seq<seq<Byte>>, s: Screen)
    requires Shows(AllOps(texts), s)
    ensures forall i :: 0 <= i < |texts| ==> s.cells[i] == Image(OpsOf(texts[i]), s.columns)
  {
  }

  /** A terminal and the frame that draws on it. */
  class Session {
    const frame: Frame
    var screen: Screen

    ghost predicate Valid()
      reads this, frame
    {
      frame.Valid() && Fits(screen, frame.height, frame.width) && Shows(AllOps(frame.previous), screen)
    }

    constructor ()
      ensures Valid() && fresh(frame)
    {
      frame := new Frame();
      screen := Blank(0, 0);
    }

    /** One update on a terminal of the given size. When the size changed since the last update the
        terminal shows anything at all before the bytes arrive. */
    method Draw(lines: seq<seq<Byte>>, columns: nat, rows: nat)
      requires Valid() && LineTexts(lines)
      modifies this, frame
      ensures Valid() && frame.width == columns && frame.height == rows
      ensures forall i :: 0 <= i < rows ==> screen.cells[i] == Image(OpsOf(Clipped(lines, columns, i)), columns)
    {
      hide Shows, ChangedText, Clipped, LineText, Image;
      var same := frame.width == columns && frame.height == rows;
      ghost var before := if same then frame.previous else [];
      if !same {
        var anything: nat -> nat -> Cell := *;
        screen := Screen(seq(rows, i requires 0 <= i < rows => seq(columns, j requires 0 <= j < columns => anything(i)(j))), columns, screen.r, screen.c);
      }
      var was := screen;
      var out := frame.Update(lines, columns, rows);
      UpdateShows(before, frame.previous, same, was);
      var ok;
      ok, screen := Interpret(out, was);
      ExecFits(was, Parse(out).value, rows, columns);
      ShowsRows(frame.previous, screen);
    }
  }

  datatype Drawing = Drawing(lines: seq<seq<Byte>>, columns: nat, rows: nat)

  lemma NothingShows(s: Screen)
    ensures |s.cells| == 0 ==> Shows(AllOps([]), s)
  {
  }

  /** Drawing one frame from scratch on a blank terminal. */
  method Redraw(d: Drawing) returns (s: Screen)
    requires LineTexts(d.lines)
    ensures Fits(s, d.rows, d.columns)
    ensures forall i :: 0 <= i < d.rows ==> s.cells[i] == Image(OpsOf(Clipped(d.lines, d.columns, i)), d.columns)
  {
    hide Shows, ChangedText, Clipped, LineText, Image;
    var frame := new Frame();
    ghost var same := d.columns == 0 && d.rows == 0;
    var blank := Blank(d.rows, d.columns);
    var out := frame.Update(d.lines, d.columns, d.rows);
    NothingShows(blank);
    UpdateShows([], frame.previous, same, blank);
    var ok;
    ok, s := Interpret(out, blank);
    ExecFits(blank, Parse(out).value, d.rows, d.columns);
    ShowsRows(frame.previous, s);
  }

  /** After any run of updates and resizes the screen is the one a new frame would draw from scratch on
      a blank terminal of the last size. */
  method Run(drawings: seq<Drawing>) returns (s: Screen, redrawn: Screen)
    requires drawings != [] && forall k :: 0 <= k < |drawings| ==> LineTexts(drawings[k].lines)
    ensures s.cells == redrawn.cells
    ensures var last := drawings[|drawings| - 1];
            |s.cells| == last.rows && forall i :: 0 <= i < last.rows ==> s.cells[i] == Image(OpsOf(Clipped(last.lines, last.columns, i)), last.columns)
  {
    hide LineText, Clipped, Image;
    var session := new Session();
    for k := 0 to |drawings|
      invariant fresh(session) && fresh(session.frame) && session.Valid()
      invariant k > 0 ==> session.frame.width == drawings[k - 1].columns && session.frame.height == drawings[k - 1].rows
      invariant k > 0 ==> forall i :: 0 <= i < drawings[k - 1].rows ==>
                  session.screen.cells[i] == Image(OpsOf(Clipped(drawings[k - 1].lines, drawings[k - 1].columns, i)), drawings[k - 1].columns)
    {
      session.Draw(drawings[k].lines, drawings[k].columns, drawings[k].rows);
    }
    s := session.screen;
    var last := drawings[|drawings| - 1];
    redrawn := Redraw(last);
    assert s.cells == redrawn.cells;
  }
}
