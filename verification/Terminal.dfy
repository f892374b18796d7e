/** What a terminal makes of the bytes the monitor writes: glyphs, control bytes, CSI sequences and
    graphics commands. Models the interpreter loop of scripts/preview-mtop-terminal.py; what a graphics
    command does is KittyImage's part. */
module Terminal {
  import opened Words

  const ESC: Byte := 27
  const BRACKET: Byte := 91 // '['
  const SEMICOLON: Byte := 59
  const QUESTION: Byte := 63
  const SPACE: Byte := 32
  const UNDERSCORE: Byte := 95
  const CAPITAL_G: Byte := 71
  const BACKSLASH: Byte := 92

  /** A glyph is the UTF-8 form of one character, and an Apc is a graphics command without its frame. */
  datatype Op = Glyph(bytes: seq<Byte>) | Control(byte: Byte) | Csi(args: seq<Byte>, final: Byte) | Apc(body: seq<Byte>)

  // ---- Decimal numbers ---------------------------------------------------------------------

  predicate Digit(b: Byte) { 48 <= b <= 57 }

  function Dec(n: nat): (s: seq<Byte>)
    ensures |s| > 0 && forall i :: 0 <= i < |s| ==> Digit(s[i])
  {
    if n < 10 then [48 + n] else Dec(n / 10) + [48 + n % 10]
  }

  function ParseNat(s: seq<Byte>): nat
    requires forall i :: 0 <= i < |s| ==> Digit(s[i])
  {
    if s == [] then 0
    else
      assert Digit(s[|s| - 1]);
      10 * ParseNat(s[..|s| - 1]) + ((s[|s| - 1] as int) - 48)
  }

  lemma {:induction false} DecRoundTrip(n: nat)
    ensures ParseNat(Dec(n)) == n
  {
    if n >= 10 {
      DecRoundTrip(n / 10);
      var s := Dec(n);
      assert s[..|s| - 1] == Dec(n / 10);
    } else {
      assert Dec(n)[..0] == [];
    }
  }

  function DigitsBefore(s: seq<Byte>): (k: nat)
    ensures k <= |s| && (forall i :: 0 <= i < k ==> Digit(s[i])) && (k < |s| ==> !Digit(s[k]))
    decreases |s|
  {
    if s == [] || !Digit(s[0]) then 0 else 1 + DigitsBefore(s[1..])
  }

  /** The numbers between semicolons; an empty one counts as zero. */
  function Numbers(args: seq<Byte>): (r: seq<nat>)
    requires forall i :: 0 <= i < |args| ==> Digit(args[i]) || args[i] == SEMICOLON
    ensures |r| > 0
    decreases |args|
  {
    var k := DigitsBefore(args);
    if k == |args| then [ParseNat(args)] else [ParseNat(args[..k])] + Numbers(args[k + 1..])
  }

  lemma {:induction false} DigitsBeforeIs(s: seq<Byte>, n: nat)
    requires n <= |s| && (forall i :: 0 <= i < n ==> Digit(s[i])) && (n < |s| ==> !Digit(s[n]))
    ensures DigitsBefore(s) == n
    decreases n
  {
    if n > 0 {
      DigitsBeforeIs(s[1..], n - 1);
    }
  }

  lemma TwoNumbers(a: nat, b: nat)
    ensures forall i :: 0 <= i < |Dec(a) + [SEMICOLON] + Dec(b)| ==>
              Digit((Dec(a) + [SEMICOLON] + Dec(b))[i]) || (Dec(a) + [SEMICOLON] + Dec(b))[i] == SEMICOLON
    ensures Numbers(Dec(a) + [SEMICOLON] + Dec(b)) == [a, b]
  {
    var args := Dec(a) + [SEMICOLON] + Dec(b);
    var k := |Dec(a)|;
    DigitsBeforeIs(args, k);
    assert args[..k] == Dec(a) && args[k + 1..] == Dec(b);
    DecRoundTrip(a);
    DecRoundTrip(b);
    DigitsBeforeIs(Dec(b), |Dec(b)|);
  }

  // ---- Bytes and operations ------------------------------------------------------------------

  /** How many bytes a character takes, by its first byte. */
  function Width(c: Byte): (w: nat)
    ensures 1 <= w <= 4
  {
    if c < 128 then 1 else if 192 <= c < 224 then 2 else if 224 <= c < 240 then 3 else 4
  }

  predicate GlyphValid(g: seq<Byte>) {
    && g != [] && |g| == Width(g[0]) && 32 <= g[0] < 248 && !(128 <= g[0] < 192)
    && forall i :: 1 <= i < |g| ==> 128 <= g[i] < 192
  }

  predicate ArgByte(b: Byte) { Digit(b) || b == SEMICOLON || b == QUESTION }
  predicate Letter(b: Byte) { 65 <= b <= 90 || 97 <= b <= 122 }

  /** Arguments that open with a question mark are not read as numbers; all others must be. */
  predicate ArgsValid(args: seq<Byte>) {
    && (forall i :: 0 <= i < |args| ==> ArgByte(args[i]))
    && ((args != [] && args[0] == QUESTION) || forall i :: 0 <= i < |args| ==> args[i] != QUESTION)
  }

  /** The end of a graphics command stands at k. */
  predicate EndsAt(s: seq<Byte>, k: nat) {
    k + 1 < |s| && s[k] == ESC && s[k + 1] == BACKSLASH
  }

  /** What can be written so that it is read back as itself: an ESC on its own cannot, because the byte
      behind it might make it a sequence. */
  predicate OpValid(op: Op) {
    match op
    case Glyph(g) => GlyphValid(g)
    case Control(b) => b < 32 && b != ESC
    case Csi(args, final) => ArgsValid(args) && Letter(final)
    case Apc(body) => forall k: nat :: k < |body| ==> !EndsAt(body + [ESC, BACKSLASH], k)
  }

  /** What the interpreter can execute. */
  predicate OpRuns(op: Op) {
    op.Csi? ==> ArgsValid(op.args)
  }

  function Encode(op: Op): seq<Byte> {
    match op
    case Glyph(g) => g
    case Control(b) => [b]
    case Csi(args, final) => [ESC, BRACKET] + args + [final]
    case Apc(body) => [ESC, UNDERSCORE, CAPITAL_G] + body + [ESC, BACKSLASH]
  }

  function EncodeAll(ops: seq<Op>): seq<Byte>
    decreases |ops|
  {
    if ops == [] then [] else Encode(ops[0]) + EncodeAll(ops[1..])
  }

  predicate AllValid(ops: seq<Op>) {
    forall i :: 0 <= i < |ops| ==> OpValid(ops[i])
  }

  predicate AllRun(ops: seq<Op>) {
    forall i :: 0 <= i < |ops| ==> OpRuns(ops[i])
  }

  lemma ValidRuns(ops: seq<Op>)
    requires AllValid(ops)
    ensures AllRun(ops)
  {
    forall i | 0 <= i < |ops|
      ensures OpRuns(ops[i])
    {
      assert OpValid(ops[i]);
    }
  }

  /** Where the first end of a graphics command stands, or the length if there is none. */
  function BodyBytes(s: seq<Byte>): (k: nat)
    ensures k <= |s| && (k < |s| ==> EndsAt(s, k)) && forall j: nat :: j < k ==> !EndsAt(s, j)
    decreases |s|
  {
    if s == [] || EndsAt(s, 0) then 0
    else
      var rest := BodyBytes(s[1..]);
      assert forall j: nat :: j > 0 ==> EndsAt(s, j) == EndsAt(s[1..], j - 1);
      1 + rest
  }

  function ArgBytes(s: seq<Byte>): (k: nat)
    ensures k <= |s| && (forall i :: 0 <= i < k ==> ArgByte(s[i])) && (k < |s| ==> !ArgByte(s[k]))
    decreases |s|
  {
    if s == [] || !ArgByte(s[0]) then 0 else 1 + ArgBytes(s[1..])
  }

  /** The operation at the start of the text and its length; None where the interpreter gives up. */
  function First(text: seq<Byte>): (r: Option<(Op, nat)>)
    requires text != []
    ensures r.Some? ==> 0 < r.value.1 <= |text|
  {
    if text[0] == ESC then
      if |text| >= 3 && text[1] == UNDERSCORE && text[2] == CAPITAL_G then
        var k := BodyBytes(text[3..]);
        if 3 + k == |text| then None else Some((Apc(text[3..3 + k]), k + 5))
      else if |text| >= 2 && text[1] == BRACKET then
        var k := ArgBytes(text[2..]);
        if 2 + k == |text| || !Letter(text[2 + k]) || !ArgsValid(text[2..2 + k]) then None
        else Some((Csi(text[2..2 + k], text[2 + k]), k + 3))
      else Some((Control(ESC), 1))
    else if text[0] < 32 then Some((Control(text[0]), 1))
    else if Width(text[0]) > |text| || !GlyphValid(text[..Width(text[0])]) then None
    else Some((Glyph(text[..Width(text[0])]), Width(text[0])))
  }

  function Parse(text: seq<Byte>): Option<seq<Op>>
    decreases |text|
  {
    if text == [] then Some([])
    else
      var first := First(text);
      if first.None? then None
      else
        var rest := Parse(text[first.value.1..]);
        if rest.None? then None else Some([first.value.0] + rest.value)
  }

  lemma FirstOfApc(body: seq<Byte>, rest: seq<Byte>)
    requires OpValid(Apc(body))
    ensures First(Encode(Apc(body)) + rest) == Some((Apc(body), |Encode(Apc(body))|))
  {
    var text := Encode(Apc(body)) + rest;
    var behind := body + [ESC, BACKSLASH] + rest;
    assert text[3..] == behind;
    assert EndsAt(behind, |body|);
    forall k: nat | k < |body|
      ensures !EndsAt(behind, k)
    {
      assert !EndsAt(body + [ESC, BACKSLASH], k);
    }
    assert BodyBytes(behind) == |body|;
    assert text[3..3 + |body|] == body;
  }

  lemma {:induction false} ArgBytesIs(s: seq<Byte>, n: nat)
    requires n <= |s| && (forall i :: 0 <= i < n ==> ArgByte(s[i])) && (n < |s| ==> !ArgByte(s[n]))
    ensures ArgBytes(s) == n
    decreases n
  {
    if n > 0 {
      ArgBytesIs(s[1..], n - 1);
    }
  }

  lemma ArgBytesOf(args: seq<Byte>, final: Byte, rest: seq<Byte>)
    requires ArgsValid(args) && Letter(final)
    ensures ArgBytes(args + ([final] + rest)) == |args|
  {
    ArgBytesIs(args + ([final] + rest), |args|);
  }

  lemma FirstOfCsi(args: seq<Byte>, final: Byte, rest: seq<Byte>)
    requires ArgsValid(args) && Letter(final)
    ensures First([ESC, BRACKET] + args + [final] + rest) == Some((Csi(args, final), |args| + 3))
  {
    hide ArgsValid, Letter;
    var text := [ESC, BRACKET] + args + [final] + rest;
    assert text[2..] == args + ([final] + rest);
    ArgBytesOf(args, final, rest);
    assert text[2..2 + |args|] == args && text[2 + |args|] == final;
  }

  lemma FirstOfEncoded(op: Op, rest: seq<Byte>)
    requires OpValid(op)
    ensures Encode(op) != [] && First(Encode(op) + rest) == Some((op, |Encode(op)|))
  {
    match op {
      case Glyph(g) =>
        assert (g + rest)[..|g|] == g;
      case Control(b) =>
      case Csi(args, final) => FirstOfCsi(args, final, rest);
      case Apc(body) => FirstOfApc(body, rest);
    }
  }

  /** Parsing is the inverse of encoding, so the bytes determine the operations. */
  lemma {:induction false} ParseOfEncoded(ops: seq<Op>)
    requires AllValid(ops)
    ensures Parse(EncodeAll(ops)) == Some(ops)
    decreases |ops|
  {
    hide First, Encode, OpValid;
    if ops != [] {
      var text, n := EncodeAll(ops), |Encode(ops[0])|;
      FirstOfEncoded(ops[0], EncodeAll(ops[1..]));
      assert text[n..] == EncodeAll(ops[1..]);
      ParseOfEncoded(ops[1..]);
      assert [ops[0]] + ops[1..] == ops;
    }
  }

  lemma {:induction false} EncodeAppend(a: seq<Op>, b: seq<Op>)
    ensures EncodeAll(a + b) == EncodeAll(a) + EncodeAll(b)
    decreases |a|
  {
    if a == [] {
      assert a + b == b;
    } else {
      assert (a + b)[0] == a[0] && (a + b)[1..] == a[1..] + b;
      EncodeAppend(a[1..], b);
    }
  }

  // ---- The screen ------------------------------------------------------------------------------

  type Cell = seq<Byte>
  const BLANK: Cell := [SPACE]

  datatype Screen = Screen(cells: seq<seq<Cell>>, columns: nat, r: nat, c: nat)

  predicate Fits(s: Screen, rows: nat, columns: nat) {
    |s.cells| == rows && s.columns == columns && forall i :: 0 <= i < rows ==> |s.cells[i]| == columns
  }

  function BlankRow(columns: nat): seq<Cell> { seq(columns, _ => BLANK) }

  function Blank(rows: nat, columns: nat): Screen {
    Screen(seq(rows, _ => BlankRow(columns)), columns, 0, 0)
  }

  function Args(args: seq<Byte>): seq<nat>
    requires ArgsValid(args)
  {
    if args != [] && args[0] == QUESTION then [] else Numbers(args)
  }

  function Exec(s: Screen, op: Op): Screen
    requires OpRuns(op)
  {
    match op
    case Apc(_) => s
    case Glyph(g) =>
      var t := if s.r < |s.cells| && s.c < |s.cells[s.r]| then s.(cells := s.cells[s.r := s.cells[s.r][s.c := g]]) else s;
      t.(c := s.c + 1)
    case Control(b) => if b == 13 then s.(c := 0) else if b == 10 then s.(r := s.r + 1) else s
    case Csi(args, final) =>
      var nums := Args(args);
      if final == 72 then // 'H'
        s.(r := if |nums| > 0 && nums[0] > 0 then nums[0] - 1 else 0, c := if |nums| > 1 && nums[1] > 0 then nums[1] - 1 else 0)
      else if final == 75 then // 'K'
        if s.r < |s.cells| && s.c <= |s.cells[s.r]| then
          s.(cells := s.cells[s.r := s.cells[s.r][..s.c] + BlankRow(|s.cells[s.r]| - s.c)])
        else s
      else if final == 74 && nums == [2] then // 'J'
        s.(cells := seq(|s.cells|, _ => BlankRow(s.columns)))
      else s
  }

  function ExecAll(s: Screen, ops: seq<Op>): Screen
    requires AllRun(ops)
    decreases |ops|
  {
    if ops == [] then s else ExecAll(Exec(s, ops[0]), ops[1..])
  }

  lemma {:induction false} ExecAppend(s: Screen, a: seq<Op>, b: seq<Op>)
    requires AllRun(a) && AllRun(b)
    ensures AllRun(a + b) && ExecAll(s, a + b) == ExecAll(ExecAll(s, a), b)
    decreases |a|
  {
    if a == [] {
      assert a + b == b;
    } else {
      assert (a + b)[0] == a[0] && (a + b)[1..] == a[1..] + b;
      ExecAppend(Exec(s, a[0]), a[1..], b);
    }
  }

  lemma {:induction false} ExecFits(s: Screen, ops: seq<Op>, rows: nat, columns: nat)
    requires Fits(s, rows, columns) && AllRun(ops)
    ensures Fits(ExecAll(s, ops), rows, columns)
    decreases |ops|
  {
    if ops != [] {
      ExecFits(Exec(s, ops[0]), ops[1..], rows, columns);
    }
  }

  lemma {:induction false} ParsedRuns(text: seq<Byte>)
    ensures Parse(text).Some? ==> AllRun(Parse(text).value)
    decreases |text|
  {
    if text != [] && First(text).Some? {
      ParsedRuns(text[First(text).value.1..]);
    }
  }

  lemma FirstRuns(text: seq<Byte>)
    requires text != [] && First(text).Some?
    ensures OpRuns(First(text).value.0)
  {
  }

  lemma StepParse(text: seq<Byte>, done: seq<Op>)
    requires text != [] && First(text).Some?
    ensures var rest := Parse(text[First(text).value.1..]);
            && (Parse(text).None? <==> rest.None?)
            && (rest.Some? ==> done + Parse(text).value == done + [First(text).value.0] + rest.value)
  {
  }

  /** The loop over the captured text. */
  method Interpret(text: seq<Byte>, screen: Screen) returns (ok: bool, s: Screen)
    ensures ok <==> Parse(text).Some?
    ensures ok ==> AllRun(Parse(text).value) && s == ExecAll(screen, Parse(text).value)
  {
    hide First, Exec;
    ParsedRuns(text);
    s := screen;
    var at: nat := 0;
    ghost var done: seq<Op> := [];
    assert text[0..] == text;
    assert Parse(text).Some? ==> [] + Parse(text).value == Parse(text).value;
    while at < |text|
      invariant at <= |text| && AllRun(done) && s == ExecAll(screen, done)
      invariant Parse(text) == (if Parse(text[at..]).None? then None else Some(done + Parse(text[at..]).value))
    {
      var first := First(text[at..]);
      if first.None? {
        return false, s;
      }
      var op, n := first.value.0, first.value.1;
      FirstRuns(text[at..]);
      assert text[at..][n..] == text[at + n..];
      StepParse(text[at..], done);
      ExecAppend(screen, done, [op]);
      s := Exec(s, op);
      assert ExecAll(ExecAll(screen, done), [op]) == s;
      done := done + [op];
      at := at + n;
    }
    assert text[at..] == [];
    assert done + [] == done;
    ok := true;
  }
}
