/** An image sent to the terminal as graphics commands, and what the terminal makes of the bytes. Models
    pixelImage of amdgpu_mtop/render.h for a Kitty terminal and the whole interpreter loop of
    scripts/preview-mtop-terminal.py, of which Terminal holds the text part. */
module KittyImage {
  import opened Words
  import opened Terminal
  import Base64

  const CHUNK: nat := 4096
  const COMMA: Byte := 44
  const EQUALS: Byte := 61

  // ---- Fields of a command -------------------------------------------------------------------------

  datatype Field = Field(key: Byte, value: seq<Byte>)

  function FieldText(f: Field): seq<Byte> {
    [f.key, EQUALS] + f.value
  }

  function FieldsText(fields: seq<Field>): seq<Byte>
    requires fields != []
    decreases |fields|
  {
    if |fields| == 1 then FieldText(fields[0]) else FieldText(fields[0]) + [COMMA] + FieldsText(fields[1..])
  }

  /** Where a byte first stands, or the length if it does not. */
  function Cut(s: seq<Byte>, b: Byte): (k: nat)
    ensures k <= |s| && (forall i :: 0 <= i < k ==> s[i] != b) && (k < |s| ==> s[k] == b)
    decreases |s|
  {
    if s == [] || s[0] == b then 0 else 1 + Cut(s[1..], b)
  }

  function Value(piece: seq<Byte>, key: seq<Byte>): Option<seq<Byte>> {
    var k := Cut(piece, EQUALS);
    if k < |piece| && piece[..k] == key then Some(piece[k + 1..]) else None
  }

  /** The value of a key in the part of a command before the semicolon; the last one counts, and pieces
      without an equals sign do not. */
  function Get(control: seq<Byte>, key: seq<Byte>): Option<seq<Byte>>
    decreases |control|
  {
    var k := Cut(control, COMMA);
    var later := if k == |control| then None else Get(control[k + 1..], key);
    if later.Some? then later else Value(control[..k], key)
  }

  /** Bytes that end neither a field nor the fields nor a command. */
  predicate Inner(b: Byte) { b != ESC && b != COMMA && b != SEMICOLON && b != EQUALS }

  predicate FieldValid(f: Field) {
    Inner(f.key) && forall i :: 0 <= i < |f.value| ==> Inner(f.value[i])
  }

  predicate FieldsValid(fields: seq<Field>) {
    forall i :: 0 <= i < |fields| ==> FieldValid(fields[i])
  }

  lemma CutAt(s: seq<Byte>, b: Byte, k: nat)
    requires k <= |s| && (forall i :: 0 <= i < k ==> s[i] != b) && (k < |s| ==> s[k] == b)
    ensures Cut(s, b) == k
  {
  }

  lemma ValueOfField(f: Field, key: Byte)
    requires FieldValid(f)
    ensures Value(FieldText(f), [key]) == if f.key == key then Some(f.value) else None
  {
    var piece := FieldText(f);
    CutAt(piece, EQUALS, 1);
    assert piece[..1] == [f.key] && piece[2..] == f.value;
    assert [f.key] == [key] <==> f.key == key by {
      assert [f.key][0] == f.key;
    }
  }

  lemma FirstField(fields: seq<Field>)
    requires fields != [] && FieldsValid(fields)
    ensures var text, n := FieldsText(fields), |FieldText(fields[0])|;
            && Cut(text, COMMA) == n && text[..n] == FieldText(fields[0])
            && (|fields| == 1 ==> n == |text|)
            && (|fields| > 1 ==> n < |text| && text[n + 1..] == FieldsText(fields[1..]))
  {
    var text, first := FieldsText(fields), FieldText(fields[0]);
    assert FieldValid(fields[0]);
    assert text[..|first|] == first;
    CutAt(text, COMMA, |first|);
  }

  lemma GetStep(fields: seq<Field>, key: Byte)
    requires fields != [] && FieldsValid(fields)
    ensures Get(FieldsText(fields), [key]) ==
            if |fields| > 1 && Get(FieldsText(fields[1..]), [key]).Some? then Get(FieldsText(fields[1..]), [key])
            else if fields[0].key == key then Some(fields[0].value)
            else None
  {
    hide FieldText, FieldsText, Value, Cut, FieldValid;
    FirstField(fields);
    assert FieldValid(fields[0]);
    ValueOfField(fields[0], key);
  }

  lemma {:induction false} FieldIsAbsent(fields: seq<Field>, key: Byte)
    requires fields != [] && FieldsValid(fields) && forall j :: 0 <= j < |fields| ==> fields[j].key != key
    ensures Get(FieldsText(fields), [key]) == None
    decreases |fields|
  {
    hide Get, FieldsText;
    GetStep(fields, key);
    if |fields| > 1 {
      FieldIsAbsent(fields[1..], key);
    }
  }

  /** Fields read back as they were written. */
  lemma {:induction false} FieldReadsBack(fields: seq<Field>, k: nat)
    requires FieldsValid(fields) && k < |fields| && forall j :: k < j < |fields| ==> fields[j].key != fields[k].key
    ensures Get(FieldsText(fields), [fields[k].key]) == Some(fields[k].value)
    decreases |fields|
  {
    hide Get, FieldsText;
    GetStep(fields, fields[k].key);
    if k > 0 {
      FieldReadsBack(fields[1..], k - 1);
    } else if |fields| > 1 {
      FieldIsAbsent(fields[1..], fields[0].key);
    }
  }

  lemma {:induction false} FieldsAreInner(fields: seq<Field>)
    requires fields != [] && FieldsValid(fields)
    ensures forall i :: 0 <= i < |FieldsText(fields)| ==> FieldsText(fields)[i] != ESC && FieldsText(fields)[i] != SEMICOLON
    decreases |fields|
  {
    assert FieldValid(fields[0]);
    if |fields| > 1 {
      FieldsAreInner(fields[1..]);
    }
  }

  // ---- The monitor -----------------------------------------------------------------------------------

  /** Where an image goes: the fields that only the first command of an image has. */
  datatype Placement = Placement(id: nat, columns: nat, rows: nat)

  /** One graphics command: delete an image, or carry part of one. */
  datatype Command = Delete(id: nat) | Chunk(placement: Option<Placement>, more: bool, payload: seq<Byte>)

  // Keys and letters of the graphics protocol.
  const ACTION: Byte := 97 // a
  const DELETED: Byte := 100 // d
  const TRANSMISSION: Byte := 116 // t
  const IDENTIFIER: Byte := 105 // i
  const QUIET: Byte := 113 // q
  const FORMAT: Byte := 102 // f
  const CURSOR: Byte := 67 // C
  const WIDTH: Byte := 99 // c
  const HEIGHT: Byte := 114 // r
  const MORE: Byte := 109 // m
  const TRANSMIT: Byte := 84 // T
  const DELETE: Byte := 100 // d
  const DIRECT: Byte := 100 // d
  const FREE: Byte := 73 // I

  function Opening(p: Placement): seq<Field> {
    [Field(ACTION, [TRANSMIT]), Field(FORMAT, [49, 48, 48]), Field(TRANSMISSION, [DIRECT]), Field(IDENTIFIER, Dec(p.id)),
     Field(QUIET, [50]), Field(CURSOR, [49]), Field(WIDTH, Dec(p.columns)), Field(HEIGHT, Dec(p.rows))]
  }

  function Fields(c: Command): (fields: seq<Field>)
    ensures fields != []
  {
    match c
    case Delete(id) => [Field(ACTION, [DELETE]), Field(DELETED, [FREE]), Field(IDENTIFIER, Dec(id)), Field(QUIET, [50])]
    case Chunk(placement, more, _) => (if placement.None? then [] else Opening(placement.value)) + [Field(MORE, [if more then 49 else 48])]
  }

  /** A command between its frame bytes. */
  function Body(c: Command): seq<Byte> {
    FieldsText(Fields(c)) + if c.Chunk? then [SEMICOLON] + c.payload else []
  }

  /** The data in pieces of 4096 bytes, every one but the last marked as having more. */
  function Chunks(data: seq<Byte>, at: nat, p: Placement): seq<Command>
    decreases |data| - at
  {
    if at >= |data| then []
    else
      var end := if at + CHUNK < |data| then at + CHUNK else |data|;
      [Chunk(if at == 0 then Some(p) else None, at + CHUNK < |data|, data[at..end])] + Chunks(data, at + CHUNK, p)
  }

  function Commands(png: seq<Byte>, p: Placement): seq<Command> {
    [Delete(p.id)] + Chunks(Base64.Encoding(png), 0, p)
  }

  function Ops(cs: seq<Command>): seq<Op> {
    seq(|cs|, k requires 0 <= k < |cs| => Apc(Body(cs[k])))
  }

  function MoveOp(row: nat): Op {
    Csi(Dec(row) + [SEMICOLON] + Dec(2), 72)
  }

  /** What an image is on the wire. */
  function ImageText(png: seq<Byte>, p: Placement, row: nat): seq<Byte> {
    EncodeAll([MoveOp(row)] + Ops(Commands(png, p)))
  }

  lemma OpsStep(c: Command, cs: seq<Command>)
    ensures Ops([c] + cs) == [Apc(Body(c))] + Ops(cs)
    ensures EncodeAll(Ops([c] + cs)) == Encode(Apc(Body(c))) + EncodeAll(Ops(cs))
  {
    hide Body;
    assert Ops([c] + cs) == [Apc(Body(c))] + Ops(cs);
    assert Ops([c] + cs)[1..] == Ops(cs);
  }

  lemma ImageStarts(png: seq<Byte>, p: Placement, row: nat)
    ensures ImageText(png, p, row)
            == [ESC, BRACKET] + Dec(row) + [SEMICOLON, 50, 72] + Encode(Apc(Body(Delete(p.id)))) + EncodeAll(Ops(Chunks(Base64.Encoding(png), 0, p)))
  {
    hide Body, Base64.Encoding;
    var rest := Chunks(Base64.Encoding(png), 0, p);
    OpsStep(Delete(p.id), rest);
    var ops := Ops(Commands(png, p));
    assert ([MoveOp(row)] + ops)[1..] == ops;
    assert Dec(2) == [50];
    assert Encode(MoveOp(row)) == [ESC, BRACKET] + Dec(row) + [SEMICOLON, 50, 72];
    var a, b, c := Encode(MoveOp(row)), Encode(Apc(Body(Delete(p.id)))), EncodeAll(Ops(rest));
    assert a + (b + c) == a + b + c;
  }

  /** pixelImage for a Kitty terminal; nothing is sent for an empty image. */
  method PixelImage(png: seq<Byte>, id: nat, row: nat, columns: nat, rows: nat) returns (out: seq<Byte>)
    ensures out == if png == [] then [] else ImageText(png, Placement(id, columns, rows), row)
  {
    hide Base64.Encoding, Body, Dec;
    if png == [] {
      return [];
    }
    var p := Placement(id, columns, rows);
    var data := Base64.Encode(png);
    out := [ESC, BRACKET] + Dec(row) + [SEMICOLON, 50, 72];
    out := out + Encode(Apc(Body(Delete(id))));
    ImageStarts(png, p, row);
    var at: nat := 0;
    while at < |data|
      invariant ImageText(png, p, row) == out + EncodeAll(Ops(Chunks(data, at, p)))
      decreases |data| - at
    {
      var more := at + CHUNK < |data|;
      var payload := data[at..if more then at + CHUNK else |data|];
      var chunk := Chunk(if at == 0 then Some(p) else None, more, payload);
      ghost var rest := Chunks(data, at + CHUNK, p);
      OpsStep(chunk, rest);
      assert out + (Encode(Apc(Body(chunk))) + EncodeAll(Ops(rest))) == out + Encode(Apc(Body(chunk))) + EncodeAll(Ops(rest));
      out := out + Encode(Apc(Body(chunk)));
      at := at + CHUNK;
    }
    assert out + [] == out;
  }

  /** The shape of the chunks: none is longer than 4096 bytes, all but the last are exactly that long,
      exactly the last is marked as such, and exactly the first opens the image. */
  ghost predicate WellChunked(cs: seq<Command>) {
    forall i :: 0 <= i < |cs| ==>
      && cs[i].Chunk? && 0 < |cs[i].payload| <= CHUNK
      && (cs[i].more <==> i < |cs| - 1) && (cs[i].more ==> |cs[i].payload| == CHUNK)
  }

  lemma {:induction false} ChunksAreWellChunked(data: seq<Byte>, at: nat, p: Placement)
    ensures WellChunked(Chunks(data, at, p))
    ensures at < |data| <==> Chunks(data, at, p) != []
    ensures forall i :: 0 <= i < |Chunks(data, at, p)| ==> Chunks(data, at, p)[i].placement == if at == 0 && i == 0 then Some(p) else None
    decreases |data| - at
  {
    if at < |data| {
      ChunksAreWellChunked(data, at + CHUNK, p);
      var cs, rest := Chunks(data, at, p), Chunks(data, at + CHUNK, p);
      assert cs[1..] == rest;
      forall i | 0 < i < |cs|
        ensures cs[i] == rest[i - 1]
      {
      }
    }
  }

  // ---- The terminal ----------------------------------------------------------------------------------

  datatype Image = Image(id: seq<Byte>, row: nat, column: nat, columns: nat, rows: nat, data: seq<Byte>)

  /** The interpreter's images and the one still arriving. */
  datatype Graphics = Graphics(images: map<seq<Byte>, Image>, pending: Option<Image>)

  datatype Display = Display(screen: Screen, graphics: Graphics)

  function Number(s: Option<seq<Byte>>): Option<nat> {
    if s.Some? && s.value != [] && forall i :: 0 <= i < |s.value| ==> Digit(s.value[i]) then Some(ParseNat(s.value)) else None
  }

  /** An image opened at the cursor; None without an identifier or a size. */
  function Opened(control: seq<Byte>, row: nat, column: nat): Option<Image> {
    var id, columns, rows := Get(control, [IDENTIFIER]), Number(Get(control, [WIDTH])), Number(Get(control, [HEIGHT]));
    if id.None? || columns.None? || rows.None? then None
    else Some(Image(id.value, row, column, columns.value, rows.value, []))
  }

  /** A payload joins the image that is arriving, and completes it when no more follows. */
  function Fill(g: Graphics, control: seq<Byte>, payload: seq<Byte>): Graphics {
    if g.pending.None? || payload == [] then g
    else
      var filled := g.pending.value.(data := g.pending.value.data + payload);
      if Get(control, [MORE]) == Some([48]) then Graphics(g.images[filled.id := filled], None)
      else g.(pending := Some(filled))
  }

  /** What a command does, from its text; None where the interpreter fails. */
  function Receive(g: Graphics, body: seq<Byte>, row: nat, column: nat): Option<Graphics> {
    var k := Cut(body, SEMICOLON);
    var control, payload := body[..k], if k == |body| then [] else body[k + 1..];
    var action := Get(control, [ACTION]);
    if action == Some([DELETE]) then
      var id := Get(control, [IDENTIFIER]);
      Some(Fill(if id.None? then g else g.(images := g.images - {id.value}), control, payload))
    else if action == Some([TRANSMIT]) then
      var image := Opened(control, row, column);
      if image.None? then None else Some(Fill(g.(pending := image), control, payload))
    else Some(Fill(g, control, payload))
  }

  function Step(d: Display, op: Op): Option<Display>
    requires OpRuns(op)
  {
    if op.Apc? then
      var g := Receive(d.graphics, op.body, d.screen.r, d.screen.c);
      if g.None? then None else Some(d.(graphics := g.value))
    else Some(d.(screen := Exec(d.screen, op)))
  }

  /** What a text does to the display. */
  function Play(d: Display, text: seq<Byte>): Option<Display>
    decreases |text|
  {
    if text == [] then Some(d)
    else if First(text).None? then None
    else
      FirstRuns(text);
      var next := Step(d, First(text).value.0);
      if next.None? then None else Play(next.value, text[First(text).value.1..])
  }

  /** The whole loop over the captured text. */
  method Interpret(text: seq<Byte>, start: Display) returns (ok: bool, d: Display)
    ensures ok <==> Play(start, text).Some?
    ensures ok ==> d == Play(start, text).value
  {
    hide First, Step;
    d := start;
    var at: nat := 0;
    assert text[0..] == text;
    while at < |text|
      invariant at <= |text| && Play(start, text) == Play(d, text[at..])
    {
      var first := First(text[at..]);
      if first.None? {
        return false, d;
      }
      FirstRuns(text[at..]);
      var next := Step(d, first.value.0);
      if next.None? {
        return false, d;
      }
      assert text[at..][first.value.1..] == text[at + first.value.1..];
      d := next.value;
      at := at + first.value.1;
    }
    ok := true;
  }

  lemma StepOnText(d: Display, op: Op)
    requires OpRuns(op) && Step(d, op).Some?
    ensures Step(d, op).value.screen == Exec(d.screen, op)
  {
  }

  /** Graphics commands leave the text alone: what the display shows of it is what the text part of the
      loop computes. */
  lemma {:induction false} PlayKeepsText(d: Display, text: seq<Byte>)
    requires Play(d, text).Some?
    ensures Parse(text).Some? && AllRun(Parse(text).value)
    ensures Play(d, text).value.screen == ExecAll(d.screen, Parse(text).value)
    decreases |text|
  {
    hide First, Receive, Exec;
    ParsedRuns(text);
    if text != [] {
      FirstRuns(text);
      var op, rest := First(text).value.0, text[First(text).value.1..];
      var next := Step(d, op).value;
      StepOnText(d, op);
      PlayKeepsText(next, rest);
      var ops := Parse(text).value;
      assert ops[0] == op && ops[1..] == Parse(rest).value;
    }
  }

  // ---- Commands read back ------------------------------------------------------------------------------

  /** What a command is meant to do. */
  function Perform(g: Graphics, c: Command, row: nat, column: nat): Graphics {
    match c
    case Delete(id) => g.(images := g.images - {Dec(id)})
    case Chunk(placement, more, payload) =>
      var pending :=
        if placement.None? then g.pending
        else Some(Image(Dec(placement.value.id), row, column, placement.value.columns, placement.value.rows, []));
      if pending.None? || payload == [] then g.(pending := pending)
      else
        var filled := pending.value.(data := pending.value.data + payload);
        if more then g.(pending := Some(filled)) else Graphics(g.images[filled.id := filled], None)
  }

  function PerformAll(g: Graphics, cs: seq<Command>, row: nat, column: nat): Graphics
    decreases |cs|
  {
    if cs == [] then g else PerformAll(Perform(g, cs[0], row, column), cs[1..], row, column)
  }

  /** A payload that cannot end its command. */
  predicate CommandValid(c: Command) {
    c.Chunk? ==> forall i :: 0 <= i < |c.payload| ==> c.payload[i] != ESC
  }

  predicate CommandsValid(cs: seq<Command>) {
    forall i :: 0 <= i < |cs| ==> CommandValid(cs[i])
  }

  lemma FieldsOfCommand(c: Command)
    ensures FieldsValid(Fields(c))
  {
  }

  lemma BodySplits(c: Command)
    ensures var k := Cut(Body(c), SEMICOLON);
            && k == |FieldsText(Fields(c))| && Body(c)[..k] == FieldsText(Fields(c))
            && (c.Chunk? ==> k < |Body(c)| && Body(c)[k + 1..] == c.payload)
            && (c.Delete? ==> k == |Body(c)|)
  {
    hide FieldsText, Fields;
    FieldsOfCommand(c);
    FieldsAreInner(Fields(c));
    CutAt(Body(c), SEMICOLON, |FieldsText(Fields(c))|);
  }

  lemma PlacementReadsBack(p: Placement, more: bool)
    ensures var control := FieldsText(Fields(Chunk(Some(p), more, [])));
            && Get(control, [ACTION]) == Some([TRANSMIT])
            && Get(control, [IDENTIFIER]) == Some(Dec(p.id))
            && Number(Get(control, [WIDTH])) == Some(p.columns)
            && Number(Get(control, [HEIGHT])) == Some(p.rows)
  {
    hide Get, FieldsText, Dec, ParseNat;
    var c := Chunk(Some(p), more, []);
    var fields := Fields(c);
    FieldsOfCommand(c);
    FieldReadsBack(fields, 0);
    FieldReadsBack(fields, 3);
    FieldReadsBack(fields, 6);
    FieldReadsBack(fields, 7);
    DecRoundTrip(p.columns);
    DecRoundTrip(p.rows);
  }

  lemma {:induction false} CommandIsReceived(g: Graphics, c: Command, row: nat, column: nat)
    requires CommandValid(c)
    ensures Receive(g, Body(c), row, column) == Some(Perform(g, c, row, column))
  {
    hide Get, FieldsText, Dec, ParseNat;
    var fields := Fields(c);
    var control := FieldsText(fields);
    FieldsOfCommand(c);
    BodySplits(c);
    match c {
      case Delete(id) =>
        FieldReadsBack(fields, 0);
        FieldReadsBack(fields, 2);
      case Chunk(placement, more, payload) =>
        FieldReadsBack(fields, |fields| - 1);
        if placement.Some? {
          PlacementReadsBack(placement.value, more);
        } else {
          FieldIsAbsent(fields, ACTION);
        }
    }
  }

  lemma CommandIsWritten(c: Command)
    requires CommandValid(c)
    ensures OpValid(Apc(Body(c)))
  {
    hide FieldsText, Fields;
    FieldsOfCommand(c);
    FieldsAreInner(Fields(c));
    var body := Body(c);
    forall k: nat | k < |body|
      ensures !EndsAt(body + [ESC, BACKSLASH], k)
    {
      assert body[k] != ESC;
    }
  }

  lemma PlayStep(d: Display, op: Op, rest: seq<Byte>)
    requires OpValid(op)
    ensures OpRuns(op)
    ensures Play(d, Encode(op) + rest) == if Step(d, op).None? then None else Play(Step(d, op).value, rest)
  {
    hide First, Encode, OpValid, Step;
    FirstOfEncoded(op, rest);
    FirstRuns(Encode(op) + rest);
    assert (Encode(op) + rest)[|Encode(op)|..] == rest;
  }

  lemma PlayNothing(d: Display)
    ensures Play(d, []) == Some(d)
  {
  }

  /** The commands do over the wire what they are meant to do. */
  lemma {:induction false} CommandsArrive(d: Display, cs: seq<Command>)
    requires CommandsValid(cs)
    ensures Play(d, EncodeAll(Ops(cs))) == Some(d.(graphics := PerformAll(d.graphics, cs, d.screen.r, d.screen.c)))
    decreases |cs|
  {
    hide Play, Encode, Body, CommandValid, OpValid, Perform, Receive;
    if cs == [] {
      PlayNothing(d);
    } else {
      var c, rest := cs[0], cs[1..];
      assert [c] + rest == cs;
      OpsStep(c, rest);
      CommandIsWritten(c);
      CommandIsReceived(d.graphics, c, d.screen.r, d.screen.c);
      PlayStep(d, Apc(Body(c)), EncodeAll(Ops(rest)));
      CommandsArrive(d.(graphics := Perform(d.graphics, c, d.screen.r, d.screen.c)), rest);
    }
  }

  /** From the chunk at `at` on, with everything before it already received. */
  lemma {:induction false} ChunksArrive(g: Graphics, data: seq<Byte>, at: nat, p: Placement, row: nat, column: nat)
    requires at < |data| && (at > 0 ==> g.pending == Some(Image(Dec(p.id), row, column, p.columns, p.rows, data[..at])))
    ensures PerformAll(g, Chunks(data, at, p), row, column)
            == Graphics(g.images[Dec(p.id) := Image(Dec(p.id), row, column, p.columns, p.rows, data)], None)
    decreases |data| - at
  {
    hide Dec;
    var cs := Chunks(data, at, p);
    var end := if at + CHUNK < |data| then at + CHUNK else |data|;
    assert cs[1..] == Chunks(data, at + CHUNK, p);
    assert data[..at] + data[at..end] == data[..end];
    assert data[..0] == [];
    var next := Perform(g, cs[0], row, column);
    if at + CHUNK < |data| {
      ChunksArrive(next, data, at + CHUNK, p, row, column);
    } else {
      assert data[..end] == data;
    }
  }

  lemma {:induction false} ChunksAreValid(data: seq<Byte>, at: nat, p: Placement)
    requires forall i :: 0 <= i < |data| ==> data[i] != ESC
    ensures CommandsValid(Chunks(data, at, p))
    decreases |data| - at
  {
    if at < |data| {
      ChunksAreValid(data, at + CHUNK, p);
    }
  }

  lemma Moves(s: Screen, row: nat)
    ensures OpValid(MoveOp(row)) && Exec(s, MoveOp(row)) == s.(r := if row > 0 then row - 1 else 0, c := 1)
  {
    hide Dec, Numbers;
    TwoNumbers(row, 2);
  }

  lemma DeleteIsValid(id: nat)
    ensures CommandValid(Delete(id))
  {
  }

  /** The bytes that are emitted for an image, whatever the terminal showed and held before: they leave
      every cell alone, put the cursor into the second column of the row, end every transmission, and the
      terminal then holds the image there under its identifier, with data that decode to the picture. */
  lemma ImageArrives(d: Display, png: seq<Byte>, p: Placement, row: nat)
    requires png != []
    ensures var r := if row > 0 then row - 1 else 0;
            var image := Image(Dec(p.id), r, 1, p.columns, p.rows, Base64.Encoding(png));
            && Play(d, ImageText(png, p, row)) ==
               Some(Display(d.screen.(r := r, c := 1), Graphics(d.graphics.images[image.id := image], None)))
            && Base64.Decode(image.data) == Some(png)
  {
    hide Base64.Encoding, Base64.Decode, Play, Encode, Dec, Exec, Body, CommandValid;
    var r := if row > 0 then row - 1 else 0;
    var data, cs := Base64.Encoding(png), Commands(png, p);
    Base64.RoundTrip(png);
    Base64.EncodingIsPrintable(png);
    Moves(d.screen, row);
    var ops := [MoveOp(row)] + Ops(cs);
    assert ops[1..] == Ops(cs);
    assert ImageText(png, p, row) == Encode(MoveOp(row)) + EncodeAll(Ops(cs));
    PlayStep(d, MoveOp(row), EncodeAll(Ops(cs)));
    var at := d.(screen := d.screen.(r := r, c := 1));
    ChunksAreValid(data, 0, p);
    DeleteIsValid(p.id);
    CommandsArrive(at, cs);
    assert cs[1..] == Chunks(data, 0, p);
    var emptied := Perform(d.graphics, Delete(p.id), r, 1);
    assert PerformAll(d.graphics, cs, r, 1) == PerformAll(emptied, Chunks(data, 0, p), r, 1);
    ChunksArrive(emptied, data, 0, p, r, 1);
    var image := Image(Dec(p.id), r, 1, p.columns, p.rows, data);
    assert emptied.images[Dec(p.id) := image] == d.graphics.images[Dec(p.id) := image];
  }
}
