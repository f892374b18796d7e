/** Clipping a line to a number of columns. Models clipColumns of amdgpu_mtop/render.h. */
module Clipping {
  import opened Words
  import opened Terminal

  predicate FinalByte(b: Byte) { 64 <= b <= 126 }

  function ParamBytes(s: seq<Byte>): (k: nat)
    ensures k <= |s| && (forall i :: 0 <= i < k ==> !FinalByte(s[i])) && (k < |s| ==> FinalByte(s[k]))
    decreases |s|
  {
    if s == [] || FinalByte(s[0]) then 0 else 1 + ParamBytes(s[1..])
  }

  /** How many bytes a CSI sequence at the start of the text takes, as clipColumns counts them: up to
      and including the first byte from '@' to '~', or all there is. */
  function CsiLength(text: seq<Byte>): (k: nat)
    requires |text| >= 2
    ensures 2 <= k <= |text|
  {
    var n := ParamBytes(text[2..]);
    if 2 + n < |text| then n + 3 else n + 2
  }

  function ClipBytes(text: seq<Byte>, columns: nat): seq<Byte>
    decreases |text|
  {
    if text == [] || columns == 0 then []
    else if text[0] == ESC && |text| > 1 && text[1] == BRACKET then
      text[..CsiLength(text)] + ClipBytes(text[CsiLength(text)..], columns)
    else if Width(text[0]) > |text| then []
    else text[..Width(text[0])] + ClipBytes(text[Width(text[0])..], columns - 1)
  }

  /** The bytes clipColumns copies next, and how many columns they take; none if a character is cut off. */
  function Piece(text: seq<Byte>): (p: (nat, nat))
    requires text != []
    ensures p.0 <= |text| && p.1 <= 1
  {
    if text[0] == ESC && |text| > 1 && text[1] == BRACKET then (CsiLength(text), 0)
    else if Width(text[0]) > |text| then (0, 1)
    else (Width(text[0]), 1)
  }

  lemma ClipUnfolds(text: seq<Byte>, left: nat)
    requires text != [] && left > 0
    ensures var p := Piece(text);
            ClipBytes(text, left) == if p.0 == 0 then [] else text[..p.0] + ClipBytes(text[p.0..], left - p.1)
  {
  }

  lemma ClipStep(text: seq<Byte>, at: nat, left: nat)
    requires at < |text| && left > 0
    ensures var p := Piece(text[at..]);
            && at + p.0 <= |text| && text[..at] + text[at..at + p.0] == text[..at + p.0]
            && text[..at] + ClipBytes(text[at..], left) == (if p.0 == 0 then text[..at] else text[..at + p.0] + ClipBytes(text[at + p.0..], left - p.1))
  {
    hide CsiLength, Width, ClipBytes, Piece;
    var rest, p := text[at..], Piece(text[at..]);
    ClipUnfolds(rest, left);
    assert rest[..p.0] == text[at..at + p.0] && rest[p.0..] == text[at + p.0..];
    assert text[..at] + text[at..at + p.0] == text[..at + p.0];
    if p.0 == 0 {
      assert text[..at] + [] == text[..at];
    } else {
      var tail := ClipBytes(text[at + p.0..], left - p.1);
      assert text[..at] + (text[at..at + p.0] + tail) == text[..at] + text[at..at + p.0] + tail;
    }
  }

  lemma {:induction false} ParamBytesIs(s: seq<Byte>, n: nat)
    requires n <= |s| && (forall i :: 0 <= i < n ==> !FinalByte(s[i])) && (n < |s| ==> FinalByte(s[n]))
    ensures ParamBytes(s) == n
    decreases n
  {
    if n > 0 {
      ParamBytesIs(s[1..], n - 1);
    }
  }

  method SkipCsi(text: seq<Byte>, begin: nat) returns (at: nat)
    requires begin + 1 < |text|
    ensures at == begin + CsiLength(text[begin..]) <= |text|
  {
    at := begin + 2;
    while at < |text| && !FinalByte(text[at])
      invariant begin + 2 <= at <= |text|
      invariant forall i :: begin + 2 <= i < at ==> !FinalByte(text[i])
    {
      at := at + 1;
    }
    ParamBytesIs(text[begin..][2..], at - begin - 2);
    if at < |text| {
      at := at + 1;
    }
  }

  lemma ClipNothing(text: seq<Byte>, columns: nat)
    requires text == [] || columns == 0
    ensures ClipBytes(text, columns) == []
  {
  }

  /** clipColumns, for any bytes: a CSI sequence takes no column, a character one; the result is the
      longest such prefix of the text. */
  method ClipColumns(text: seq<Byte>, columns: nat) returns (out: seq<Byte>)
    ensures out == ClipBytes(text, columns)
    ensures out <= text
  {
    hide CsiLength, Width, ClipBytes;
    out := [];
    var at: nat, n: nat := 0, 0;
    assert text[0..] == text;
    while at < |text| && n < columns
      invariant at <= |text| && n <= columns && out == text[..at]
      invariant ClipBytes(text, columns) == out + ClipBytes(text[at..], columns - n)
      decreases |text| - at
    {
      ClipStep(text, at, columns - n);
      if text[at] == ESC && at + 1 < |text| && text[at + 1] == BRACKET {
        var begin := at;
        at := SkipCsi(text, begin);
        out := out + text[begin..at];
      } else {
        var bytes := Width(text[at]);
        if at + bytes > |text| {
          return;
        }
        out := out + text[at..at + bytes];
        at := at + bytes;
        n := n + 1;
      }
    }
    ClipNothing(text[at..], columns - n);
    assert out + [] == out;
  }

  /** A line is well-formed when it holds glyphs and CSI sequences that neither move nor erase. */
  predicate LineOp(op: Op) {
    OpValid(op) && (op.Glyph? || (op.Csi? && op.final != 72 && op.final != 74 && op.final != 75))
  }

  predicate Line(ops: seq<Op>) {
    forall i :: 0 <= i < |ops| ==> LineOp(ops[i])
  }

  predicate LineText(text: seq<Byte>) {
    Parse(text).Some? && Line(Parse(text).value) && EncodeAll(Parse(text).value) == text
  }

  /** What is left of a line: everything before the first glyph that no longer fits, and nothing once
      the last column is taken. */
  function ClipOps(ops: seq<Op>, columns: nat): (r: seq<Op>)
    decreases |ops|
  {
    if ops == [] || columns == 0 then []
    else if ops[0].Glyph? then [ops[0]] + ClipOps(ops[1..], columns - 1)
    else [ops[0]] + ClipOps(ops[1..], columns)
  }

  function Glyphs(ops: seq<Op>): seq<Cell>
    decreases |ops|
  {
    if ops == [] then []
    else if ops[0].Glyph? then [ops[0].bytes] + Glyphs(ops[1..])
    else Glyphs(ops[1..])
  }

  lemma ClipFirst(op: Op, rest: seq<Byte>)
    requires LineOp(op)
    ensures var text := Encode(op) + rest;
            && text != []
            && (op.Glyph? ==> text[0] != ESC && Width(text[0]) == |Encode(op)|)
            && (op.Csi? ==> text[0] == ESC && |text| > 1 && text[1] == BRACKET && CsiLength(text) == |Encode(op)|)
  {
    if op.Csi? {
      var text := Encode(op) + rest;
      assert text[2..] == op.args + ([op.final] + rest);
      ParamBytesIs(text[2..], |op.args|);
    }
  }

  lemma {:induction false} ClipMeansOps(ops: seq<Op>, columns: nat)
    requires Line(ops)
    ensures ClipBytes(EncodeAll(ops), columns) == EncodeAll(ClipOps(ops, columns)) && Line(ClipOps(ops, columns))
    decreases |ops|
  {
    hide OpValid, CsiLength;
    if ops != [] && columns > 0 {
      var rest := EncodeAll(ops[1..]);
      var n := |Encode(ops[0])|;
      ClipFirst(ops[0], rest);
      assert EncodeAll(ops)[..n] == Encode(ops[0]) && EncodeAll(ops)[n..] == rest;
      ClipMeansOps(ops[1..], if ops[0].Glyph? then columns - 1 else columns);
    }
  }

  /** A clipped line has no more glyphs than columns, and they are the first ones of the line. */
  lemma {:induction false} ClipKeepsFirst(ops: seq<Op>, columns: nat)
    ensures |Glyphs(ClipOps(ops, columns))| == if |Glyphs(ops)| < columns then |Glyphs(ops)| else columns
    ensures Glyphs(ClipOps(ops, columns)) <= Glyphs(ops)
    decreases |ops|
  {
    if ops != [] && columns > 0 {
      var clipped := ClipOps(ops, columns);
      assert clipped[0] == ops[0] && clipped[1..] == ClipOps(ops[1..], if ops[0].Glyph? then columns - 1 else columns);
      ClipKeepsFirst(ops[1..], if ops[0].Glyph? then columns - 1 else columns);
    }
  }

  /** The columns update leaves for text: all but the last, and never less than one. */
  function Limit(columns: nat): nat {
    if columns > 1 then columns - 1 else 1
  }

  /** Every row stays below the last column exactly when there is more than one column: on a terminal of
      one column (or none) a line with a glyph still emits one. */
  lemma RowFitsIff(columns: nat)
    ensures (forall ops :: Line(ops) ==> |Glyphs(ClipOps(ops, Limit(columns)))| <= columns - 1) <==> columns > 1
  {
    if columns > 1 {
      forall ops | Line(ops)
        ensures |Glyphs(ClipOps(ops, Limit(columns)))| <= columns - 1
      {
        ClipKeepsFirst(ops, Limit(columns));
      }
    } else {
      var ops := [Glyph([65])];
      assert Line(ops) && GlyphValid([65]);
      ClipKeepsFirst(ops, 1);
      assert Glyphs(ops) == [[65]] + Glyphs(ops[1..]);
    }
  }
}
