/** feed and what it calls (applications/mica-terminal.c): a flat grid and a 512-row ring. */
module Terminal {
  import opened Numbers

  datatype Pen = Pen(fg: nat, bg: nat, bold: bool)
  datatype Cell = Cell(cp: nat, pen: Pen)
  type Row = seq<Cell>

  const DEFAULT := Pen(15, 0, false)
  /** A cell of the grid as allocated, before anything was written or cleared. */
  const ZERO := Cell(0, Pen(0, 0, false))
  const PARAMS := 8
  const SCROLLBACK := 512

  /** cell_clear: a space in the current colour. */
  function Blanked(pen: Pen): Cell { Cell(32, Pen(pen.fg, 0, false)) }

  datatype Mode = Ground | Escape | Control
  datatype Parser = Parser(mode: Mode, params: seq<nat>, nparam: nat)

  /** The grid by rows and every row that was scrolled off. */
  datatype Page = Page(rows: seq<Row>, history: seq<Row>)

  /** fault: an array was indexed past its end. */
  datatype Screen = Screen(cols: nat, page: Page, cx: nat, cy: nat, pen: Pen, parser: Parser, fault: bool)

  predicate Rect(rows: seq<Row>, cols: nat) { forall y :: 0 <= y < |rows| ==> |rows[y]| == cols }

  predicate Fits(s: Screen) {
    && s.cols > 0 && |s.page.rows| > 0 && Rect(s.page.rows, s.cols)
    && s.cx <= s.cols && s.cy < |s.page.rows| && |s.parser.params| == PARAMS
  }

  function BlankRow(cols: nat, pen: Pen): Row { seq(cols, _ => Blanked(pen)) }

  // --------------------------------------------------------------- the rules

  function Scrolled(p: Page, cols: nat, pen: Pen): Page
    requires |p.rows| > 0
  {
    Page(p.rows[1..] + [BlankRow(cols, pen)], p.history + [p.rows[0]])
  }

  /** One line down, scrolling at the bottom. */
  function LineDown(s: Screen): (t: Screen)
    requires Fits(s)
    ensures Fits(t)
  {
    if s.cy + 1 < |s.page.rows| then s.(cx := 0, cy := s.cy + 1)
    else s.(cx := 0, page := Scrolled(s.page, s.cols, s.pen))
  }

  function WithCell(rows: seq<Row>, y: nat, x: nat, c: Cell): (r: seq<Row>)
    requires y < |rows| && x < |rows[y]|
    ensures |r| == |rows|
  {
    rows[y := rows[y][x := c]]
  }

  /** put_char: a character at pending wrap first goes to the next line. */
  function Put(s0: Screen, ch: byte): (t: Screen)
    requires Fits(s0)
    ensures Fits(t) && 0 < t.cx
  {
    var s := if s0.cx >= s0.cols then LineDown(s0) else s0;
    s.(page := s.page.(rows := WithCell(s.page.rows, s.cy, s.cx, Cell(ch as nat, s.pen))), cx := s.cx + 1)
  }

  /** Cells a..b in reading order are cleared. */
  function Erased(rows: seq<Row>, cols: nat, a: int, b: int, pen: Pen): (r: seq<Row>)
    requires Rect(rows, cols)
    ensures |r| == |rows| && Rect(r, cols)
  {
    seq(|rows|, y requires 0 <= y < |rows| =>
      seq(cols, x requires 0 <= x < cols => if a <= y * cols + x < b then Blanked(pen) else rows[y][x]))
  }

  function Erase(s: Screen, a: int, b: int): (t: Screen)
    requires Fits(s)
    ensures Fits(t)
  {
    s.(page := s.page.(rows := Erased(s.page.rows, s.cols, a, b, s.pen)))
  }

  /** Erasing to the start of a line reaches one cell too far when a wrap is pending. */
  predicate ErasesPast(s: Screen) { s.cx == s.cols && s.cy == |s.page.rows| - 1 }

  function Restyled(pen: Pen, p: nat): Pen {
    if p == 0 then DEFAULT
    else if p == 1 then pen.(bold := true)
    else if 30 <= p <= 37 then pen.(fg := p - 30)
    else if 90 <= p <= 97 then pen.(fg := p - 90 + 8)
    else if p == 39 then pen.(fg := 15)
    else if 40 <= p <= 47 then pen.(bg := p - 40)
    else if 100 <= p <= 107 then pen.(bg := p - 100 + 8)
    else if p == 49 then pen.(bg := 0)
    else pen
  }

  function Styled(pen: Pen, params: seq<nat>): Pen {
    if params == [] then pen else Restyled(Styled(pen, params[..|params| - 1]), params[|params| - 1])
  }

  function Param(q: Parser, k: nat, missing: nat): nat
    requires |q.params| == PARAMS && k < PARAMS
  {
    if q.nparam > k then q.params[k] else missing
  }

  /** The cursor keys and positions: A, B, C, D, H, f. */
  function Moved(s: Screen, final: byte): (t: Screen)
    requires Fits(s)
    ensures Fits(t)
  {
    var p0 := Param(s.parser, 0, 0);
    var n := |s.page.rows|;
    match final
    case 65 => s.(cy := Max(0, s.cy - Max(1, p0)))
    case 66 => s.(cy := Min(n - 1, s.cy + Max(1, p0)))
    case 67 => s.(cx := Min(s.cols - 1, s.cx + Max(1, p0)))
    case 68 => s.(cx := Max(0, s.cx - Max(1, p0)))
    case _ => s.(cy := Clamp(Param(s.parser, 0, 1) - 1, 0, n - 1), cx := Clamp(Param(s.parser, 1, 1) - 1, 0, s.cols - 1))
  }

  /** Erase display. */
  function DisplayErased(s: Screen): (t: Screen)
    requires Fits(s)
    ensures Fits(t)
  {
    var n := |s.page.rows|;
    if Param(s.parser, 0, 0) == 2 then Erase(s, 0, n * s.cols) else Erase(s, s.cy * s.cols + s.cx, n * s.cols)
  }

  /** Erase line. */
  function LineErased(s: Screen): (t: Screen)
    requires Fits(s)
    ensures Fits(t)
  {
    if Param(s.parser, 0, 0) == 1 then
      Erase(s, s.cy * s.cols, s.cy * s.cols + s.cx + 1).(fault := s.fault || ErasesPast(s))
    else Erase(s, s.cy * s.cols + s.cx, s.cy * s.cols + s.cols)
  }

  /** csi_dispatch. */
  function Dispatch(s: Screen, final: byte): (t: Screen)
    requires Fits(s)
    ensures Fits(t)
  {
    if final in {65, 66, 67, 68, 72, 102} then Moved(s, final)
    else if final == 74 then DisplayErased(s)
    else if final == 75 then LineErased(s)
    else if final == 109 then
      var k := Max(1, s.parser.nparam);
      s.(pen := Styled(s.pen, s.parser.params[..Min(k, PARAMS)]), fault := s.fault || k > PARAMS)
    else s
  }

  /** A plain byte. */
  function Typed(s: Screen, ch: byte): (t: Screen)
    requires Fits(s)
    ensures Fits(t)
  {
    if ch == 27 then s.(parser := s.parser.(mode := Escape))
    else if ch == 10 then LineDown(s)
    else if ch == 13 then s.(cx := 0)
    else if ch == 8 then (if s.cx > 0 then s.(cx := s.cx - 1) else s)
    else if ch == 9 then s.(cx := Min(s.cols - 1, (s.cx + 8) / 8 * 8))
    else if ch < 32 then s
    else Put(s, ch)
  }

  const NoParams: seq<nat> := [0, 0, 0, 0, 0, 0, 0, 0]

  /** The byte after an escape. */
  function Escaped(s: Screen, ch: byte): (t: Screen)
    requires Fits(s)
    ensures Fits(t)
  {
    if ch == 91 then s.(parser := Parser(Control, NoParams, 0))
    else if ch == 77 then s.(cy := if s.cy > 0 then s.cy - 1 else 0, parser := s.parser.(mode := Ground))
    else s.(parser := s.parser.(mode := Ground))
  }

  function Digit(q: Parser, ch: byte): Parser
    requires |q.params| == PARAMS && 48 <= ch <= 57
  {
    var k := Min(q.nparam, 7);
    q.(params := q.params[k := q.params[k] * 10 + (ch as nat - 48)])
  }

  /** A byte of a control sequence. The last parameter is counted only after a ';' or before 'm'. */
  function Controlled(s: Screen, ch: byte): (t: Screen)
    requires Fits(s)
    ensures Fits(t)
  {
    var q := s.parser;
    if 48 <= ch <= 57 then s.(parser := Digit(q, ch))
    else if ch == 59 then s.(parser := q.(nparam := q.nparam + 1))
    else if 0x40 <= ch <= 0x7e then
      var n := if q.nparam > 0 || ch == 109 then q.nparam + 1 else 0;
      var t := Dispatch(s.(parser := q.(nparam := n)), ch);
      t.(parser := t.parser.(mode := Ground))
    else s.(parser := q.(mode := Ground))
  }

  function Fed(s: Screen, ch: byte): (t: Screen)
    requires Fits(s)
    ensures Fits(t)
  {
    match s.parser.mode
    case Ground => Typed(s, ch)
    case Escape => Escaped(s, ch)
    case Control => Controlled(s, ch)
  }

  /** Any bytes at all keep the cursor on the grid: 0 <= cx <= cols and 0 <= cy < rows. */
  function FedAll(s: Screen, bytes: seq<byte>): (t: Screen)
    requires Fits(s)
    ensures Fits(t)
  {
    if bytes == [] then s else Fed(FedAll(s, bytes[..|bytes| - 1]), bytes[|bytes| - 1])
  }

  function Fresh(cols: nat, rows: nat): Screen {
    Screen(cols, Page(seq(rows, _ => seq(cols, _ => ZERO)), []), 0, 0, Pen(15, 0, false),
           Parser(Ground, NoParams, 0), false)
  }

  lemma {:induction false} KeepsSize(s: Screen, bytes: seq<byte>)
    requires Fits(s)
    ensures var t := FedAll(s, bytes);
            && t.cols == s.cols && |t.page.rows| == |s.page.rows|
            && s.page.history <= t.page.history
  {
    if bytes != [] {
      KeepsSize(s, bytes[..|bytes| - 1]);
      FedKeepsSize(FedAll(s, bytes[..|bytes| - 1]), bytes[|bytes| - 1]);
      hide Fed, Fits;
    }
  }

  lemma FedKeepsSize(s: Screen, ch: byte)
    requires Fits(s)
    ensures var t := Fed(s, ch);
            t.cols == s.cols && |t.page.rows| == |s.page.rows| && s.page.history <= t.page.history
  {
    hide Erased, Styled;
  }

  // ------------------------------------------------------------------ faults

  /** A byte indexes past an array exactly when it ends an SGR of more than eight parameters, or an
      erase to the start of the line with a wrap pending on the last row. */
  lemma FaultExactly(s: Screen, ch: byte)
    requires Fits(s) && !s.fault
    ensures Fed(s, ch).fault <==>
            && s.parser.mode == Control
            && ((ch == 109 && s.parser.nparam >= PARAMS) ||
                (ch == 75 && s.parser.nparam > 0 && s.parser.params[0] == 1 && ErasesPast(s)))
  {
  }

  /** With a wrap pending above the last row it clears the first cell of the next line as well. */
  lemma EraseSpills(s: Screen, y: nat, x: nat)
    requires Fits(s) && s.cx == s.cols && y < |s.page.rows| && x < s.cols
    ensures var t := Erase(s, s.cy * s.cols, s.cy * s.cols + s.cx + 1);
            t.page.rows[y][x] ==
            if y == s.cy || (y == s.cy + 1 && x == 0) then Blanked(s.pen) else s.page.rows[y][x]
  {
    Reading(s.cols, y, x, s.cy, 0);
    Reading(s.cols, y, x, s.cy + 1, 0);
    Reading(s.cols, y, x, s.cy + 1, 1);
    assert (s.cy + 1) * s.cols == s.cy * s.cols + s.cols;
  }

  /** Reading order is the order of the flat index. */
  lemma Reading(cols: nat, y: nat, x: nat, v: nat, u: nat)
    requires x < cols && u <= cols
    ensures y * cols + x >= v * cols + u <==> y > v || (y == v && x >= u)
  {
    if y > v {
      Rows(cols, v + 1, y);
    } else if y < v {
      Rows(cols, y + 1, v);
    }
  }

  lemma Rows(cols: nat, a: nat, b: nat)
    requires a <= b
    ensures a * cols <= b * cols && (a + 1) * cols == a * cols + cols
  {
  }

  /** Erasing without a pending wrap stays on the line. */
  lemma EraseLine(s: Screen, y: nat, x: nat)
    requires Fits(s) && s.cx < s.cols && y < |s.page.rows| && x < s.cols
    ensures Erase(s, s.cy * s.cols, s.cy * s.cols + s.cx + 1).page.rows[y][x] ==
            if y == s.cy && x <= s.cx then Blanked(s.pen) else s.page.rows[y][x]
    ensures Erase(s, s.cy * s.cols + s.cx, s.cy * s.cols + s.cols).page.rows[y][x] ==
            if y == s.cy && x >= s.cx then Blanked(s.pen) else s.page.rows[y][x]
  {
    Reading(s.cols, y, x, s.cy, 0);
    Reading(s.cols, y, x, s.cy, s.cx);
    Reading(s.cols, y, x, s.cy, s.cx + 1);
    Reading(s.cols, y, x, s.cy + 1, 0);
    Rows(s.cols, s.cy, s.cy);
  }

  /** Erase display clears everything, or everything from the cursor on in reading order. */
  lemma EraseDisplay(s: Screen, y: nat, x: nat)
    requires Fits(s) && y < |s.page.rows| && x < s.cols
    ensures DisplayErased(s).page.rows[y][x] ==
            if (s.parser.nparam > 0 && s.parser.params[0] == 2) || y > s.cy || (y == s.cy && x >= s.cx)
            then Blanked(s.pen) else s.page.rows[y][x]
  {
    Reading(s.cols, y, x, s.cy, s.cx);
    Reading(s.cols, y, x, 0, 0);
    Reading(s.cols, y, x, |s.page.rows|, 0);
  }

  // ------------------------------------------------------- control sequences

  lemma {:induction false} FedAppend(s: Screen, a: seq<byte>, b: seq<byte>)
    requires Fits(s)
    ensures FedAll(s, a + b) == FedAll(FedAll(s, a), b)
    decreases |b|
  {
    if b == [] {
      assert a + b == a;
    } else {
      var n := |b| - 1;
      FedAppend(s, a, b[..n]);
      assert (a + b)[..|a + b| - 1] == a + b[..n] && (a + b)[|a + b| - 1] == b[n];
      FedStep(s, a + b);
      FedStep(FedAll(s, a), b);
      hide *;
    }
  }

  lemma FedStep(s: Screen, bytes: seq<byte>)
    requires Fits(s) && bytes != []
    ensures FedAll(s, bytes) == Fed(FedAll(s, bytes[..|bytes| - 1]), bytes[|bytes| - 1])
  {
    hide Fed;
  }

  lemma FedOne(s: Screen, ch: byte)
    requires Fits(s)
    ensures FedAll(s, [ch]) == Fed(s, ch)
  {
    assert [ch][..0] == [];
    assert FedAll(s, []) == s;
  }

  /** Decimal digits. */
  function Number(n: nat): seq<byte> {
    if n < 10 then [(48 + n) as byte] else Number(n / 10) + [(48 + n % 10) as byte]
  }

  /** Parameters separated by semicolons. */
  function Written(ps: seq<nat>): seq<byte> {
    if ps == [] then []
    else if |ps| == 1 then Number(ps[0])
    else Written(ps[..|ps| - 1]) + [59] + Number(ps[|ps| - 1])
  }

  function Stored(ps: seq<nat>): (r: seq<nat>)
    requires |ps| <= PARAMS
    ensures |r| == PARAMS
  {
    seq(PARAMS, i requires 0 <= i < PARAMS => if i < |ps| then ps[i] else 0)
  }

  lemma {:induction false} NumberRead(s: Screen, n: nat)
    requires Fits(s) && s.parser.mode == Control && s.parser.nparam < PARAMS && s.parser.params[s.parser.nparam] == 0
    ensures FedAll(s, Number(n)) == s.(parser := s.parser.(params := s.parser.params[s.parser.nparam := n]))
    decreases n
  {
    hide FedAll, Fed, Number;
    NumberStep(n);
    if n < 10 {
      DigitRead(s, n);
      FedOne(s, (48 + n) as byte);
    } else {
      var k := s.parser.nparam;
      var t := s.(parser := s.parser.(params := s.parser.params[k := n / 10]));
      FitsParser(s, t.parser);
      DigitRead(t, n % 10);
      NumberRead(s, n / 10);
      FedAppend(s, Number(n / 10), [(48 + n % 10) as byte]);
      FedOne(t, (48 + n % 10) as byte);
    }
  }

  lemma NumberStep(n: nat)
    ensures Number(n) == if n < 10 then [(48 + n) as byte] else Number(n / 10) + [(48 + n % 10) as byte]
  {
  }

  lemma DigitRead(s: Screen, d: nat)
    requires Fits(s) && s.parser.mode == Control && s.parser.nparam < PARAMS && d < 10
    ensures var k := s.parser.nparam;
            Fed(s, (48 + d) as byte) == s.(parser := s.parser.(params := s.parser.params[k := s.parser.params[k] * 10 + d]))
  {
  }

  /** Up to eight parameters are read back as they were written. */
  lemma {:induction false} WrittenRead(s: Screen, ps: seq<nat>)
    requires Fits(s) && s.parser == Parser(Control, NoParams, 0) && |ps| <= PARAMS
    ensures FedAll(s, Written(ps)) == s.(parser := Parser(Control, Stored(ps), if ps == [] then 0 else |ps| - 1))
    decreases |ps|
  {
    if ps == [] {
      assert Stored(ps) == NoParams && Written(ps) == [] && FedAll(s, []) == s;
    } else if |ps| == 1 {
      NumberRead(s, ps[0]);
      assert NoParams[0 := ps[0]] == Stored(ps);
    } else {
      var n := |ps| - 1;
      var u, t := s.(parser := Parser(Control, Stored(ps[..n]), n - 1)), s.(parser := Parser(Control, Stored(ps[..n]), n));
      WrittenRead(s, ps[..n]);
      StoredMore(ps, n);
      FitsParser(s, t.parser);
      Semicolon(u);
      WrittenStep(ps);
      hide *;
      FedThrough(s, Written(ps[..n]), 59, Number(ps[n]), u, t);
      NumberRead(t, ps[n]);
    }
  }

  lemma WrittenStep(ps: seq<nat>)
    requires |ps| > 1
    ensures var n := |ps| - 1; Written(ps) == Written(ps[..n]) + [59] + Number(ps[n])
  {
  }

  /** Bytes, one more, and the rest. */
  lemma FedThrough(s: Screen, front: seq<byte>, mid: byte, rest: seq<byte>, u: Screen, t: Screen)
    requires Fits(s) && Fits(u) && Fits(t) && FedAll(s, front) == u && Fed(u, mid) == t
    ensures FedAll(s, front + [mid] + rest) == FedAll(t, rest)
  {
    hide *;
    FedOne(u, mid);
    FedAppend(s, front, [mid]);
    FedAppend(s, front + [mid], rest);
  }

  lemma Semicolon(s: Screen)
    requires Fits(s) && s.parser.mode == Control
    ensures Fed(s, 59) == s.(parser := s.parser.(nparam := s.parser.nparam + 1))
  {
  }

  lemma StoredMore(ps: seq<nat>, n: nat)
    requires n == |ps| - 1 < PARAMS
    ensures |Stored(ps[..n])| == PARAMS && Stored(ps[..n])[n] == 0 && Stored(ps[..n])[n := ps[n]] == Stored(ps)
  {
  }

  lemma FitsParser(s: Screen, q: Parser)
    requires Fits(s) && |q.params| == PARAMS
    ensures Fits(s.(parser := q))
  {
  }

  /** The bytes of a control sequence. */
  function Sent(ps: seq<nat>, final: byte): seq<byte> { [27, 91] + Written(ps) + [final] }

  /** A control sequence runs its command with the parameters written, of which a lone one counts only
      for a style, and is then over. */
  lemma SequenceRuns(s: Screen, ps: seq<nat>, final: byte)
    requires Fits(s) && s.parser.mode == Ground && |ps| <= PARAMS && 0x40 <= final <= 0x7e
    ensures var n := if |ps| <= 1 then (if final == 109 then 1 else 0) else |ps|;
            var t := Dispatch(s.(parser := Parser(Control, Stored(ps), n)), final);
            FedAll(s, Sent(ps, final)) == t.(parser := t.parser.(mode := Ground))
  {
    var q := Parser(Control, Stored(ps), if ps == [] then 0 else |ps| - 1);
    assert |q.params| == PARAMS;
    hide *;
    FitsParser(s, q);
    SequenceFed(s, ps, final);
    FinalByte(s.(parser := q), final);
  }

  lemma SequenceFed(s: Screen, ps: seq<nat>, final: byte)
    requires Fits(s) && s.parser.mode == Ground && |ps| <= PARAMS
    ensures var v := s.(parser := Parser(Control, Stored(ps), if ps == [] then 0 else |ps| - 1));
            FedAll(s, Sent(ps, final)) == Fed(v, final)
  {
    var u := s.(parser := Parser(Control, NoParams, 0));
    var v := s.(parser := Parser(Control, Stored(ps), if ps == [] then 0 else |ps| - 1));
    assert Fits(u) && Fits(v);
    Introduced(s);
    assert Sent(ps, final) == [27, 91] + Written(ps) + [final];
    hide *;
    FedAppend(s, [27, 91], Written(ps));
    WrittenRead(u, ps);
    FedAppend(s, [27, 91] + Written(ps), [final]);
    FedOne(v, final);
  }

  lemma FinalByte(s: Screen, final: byte)
    requires Fits(s) && s.parser.mode == Control && 0x40 <= final <= 0x7e
    ensures var n := if s.parser.nparam > 0 || final == 109 then s.parser.nparam + 1 else 0;
            var t := Dispatch(s.(parser := s.parser.(nparam := n)), final);
            Fed(s, final) == t.(parser := t.parser.(mode := Ground))
  {
    hide Dispatch;
  }

  lemma Introduced(s: Screen)
    requires Fits(s) && s.parser.mode == Ground
    ensures FedAll(s, [27, 91]) == s.(parser := Parser(Control, NoParams, 0))
  {
    FedOne(s, 27);
    FedOne(Fed(s, 27), 91);
    FedAppend(s, [27], [91]);
    assert [27] + [91] == [27, 91];
  }

  /** Cursor addressing: one-based row and column, cut to the grid. Nothing else changes. */
  lemma CursorAddressed(s: Screen, y: nat, x: nat, final: byte)
    requires Fits(s) && s.parser.mode == Ground && final in {72, 102}
    ensures var t := FedAll(s, Sent([y, x], final));
            && t.cy == (if y == 0 then 0 else if y > |s.page.rows| then |s.page.rows| - 1 else y - 1)
            && t.cx == (if x == 0 then 0 else if x > s.cols then s.cols - 1 else x - 1)
            && t.page == s.page && t.pen == s.pen && t.parser.mode == Ground
  {
    assert Stored([y, x])[0] == y && Stored([y, x])[1] == x;
    MovedTo(s.(parser := Parser(Control, Stored([y, x]), 2)), final);
    SequenceRuns(s, [y, x], final);
    hide FedAll, Dispatch, Sent;
  }

  lemma MovedTo(s: Screen, final: byte)
    requires Fits(s) && s.parser.nparam == 2 && final in {72, 102}
    ensures var t, y, x := Dispatch(s, final), s.parser.params[0], s.parser.params[1];
            && t.cy == (if y == 0 then 0 else if y > |s.page.rows| then |s.page.rows| - 1 else y - 1)
            && t.cx == (if x == 0 then 0 else if x > s.cols then s.cols - 1 else x - 1)
            && t.page == s.page && t.pen == s.pen
  {
  }

  /** The cursor keys move by the first of several parameters, at least by one, and stop at the edges. */
  lemma CursorKeysMove(s: Screen, ps: seq<nat>, final: byte)
    requires Fits(s) && s.parser.mode == Ground && |ps| <= PARAMS && 65 <= final <= 68
    ensures var t := FedAll(s, Sent(ps, final));
            var d := if |ps| > 1 && ps[0] > 0 then ps[0] else 1;
            && t.page == s.page && t.pen == s.pen && t.parser.mode == Ground
            && match final
               case 65 => t.cx == s.cx && t.cy == if d <= s.cy then s.cy - d else 0
               case 66 => t.cx == s.cx && t.cy == if s.cy + d < |s.page.rows| then s.cy + d else |s.page.rows| - 1
               case 67 => t.cy == s.cy && t.cx == if s.cx + d < s.cols then s.cx + d else s.cols - 1
               case _ => t.cy == s.cy && t.cx == if d <= s.cx then s.cx - d else 0
  {
    SequenceRuns(s, ps, final);
    if |ps| > 1 { assert Stored(ps)[0] == ps[0]; }
  }

  /** A style sequence applies its codes from left to right. */
  lemma StyleSequence(s: Screen, ps: seq<nat>)
    requires Fits(s) && s.parser.mode == Ground && 0 < |ps| <= PARAMS
    ensures var t := FedAll(s, Sent(ps, 109)); t.pen == Styled(s.pen, ps) && t.page == s.page && t.cx == s.cx && t.cy == s.cy
  {
    SequenceRuns(s, ps, 109);
    assert Stored(ps)[..|ps|] == ps;
  }

  lemma {:induction false} StyledAppend(pen: Pen, a: seq<nat>, b: seq<nat>)
    ensures Styled(pen, a + b) == Styled(Styled(pen, a), b)
    decreases |b|
  {
    if b == [] {
      assert a + b == a;
    } else {
      StyledAppend(pen, a, b[..|b| - 1]);
      assert (a + b)[..|a + b| - 1] == a + b[..|b| - 1] && (a + b)[|a + b| - 1] == b[|b| - 1];
      hide Restyled;
    }
  }

  /** So two style sequences may be sent as one. */
  lemma StylesCompose(s: Screen, a: seq<nat>, b: seq<nat>)
    requires Fits(s) && s.parser.mode == Ground && a != [] && b != [] && |a| + |b| <= PARAMS
    ensures FedAll(FedAll(s, Sent(a, 109)), Sent(b, 109)).pen == FedAll(s, Sent(a + b, 109)).pen
  {
    StyleSequence(s, a);
    SequenceRuns(s, a, 109);
    StyleSequence(FedAll(s, Sent(a, 109)), b);
    StyleSequence(s, a + b);
    StyledAppend(s.pen, a, b);
    hide Styled;
  }

  /** The style codes of ECMA-48 section 8.3.117 for the eight colours, their bright forms, bold and the
      defaults: each sets one attribute and leaves the others. */
  lemma StyleCodes(s: Screen, k: nat)
    requires Fits(s) && s.parser.mode == Ground && k < 8
    ensures FedAll(s, Sent([30 + k], 109)).pen == Pen(k, s.pen.bg, s.pen.bold)
    ensures FedAll(s, Sent([40 + k], 109)).pen == Pen(s.pen.fg, k, s.pen.bold)
    ensures FedAll(s, Sent([90 + k], 109)).pen == Pen(k + 8, s.pen.bg, s.pen.bold)
    ensures FedAll(s, Sent([100 + k], 109)).pen == Pen(s.pen.fg, k + 8, s.pen.bold)
    ensures FedAll(s, Sent([1], 109)).pen == Pen(s.pen.fg, s.pen.bg, true)
    ensures FedAll(s, Sent([39], 109)).pen == Pen(15, s.pen.bg, s.pen.bold) && FedAll(s, Sent([49], 109)).pen == Pen(s.pen.fg, 0, s.pen.bold)
    ensures FedAll(s, Sent([0], 109)).pen == Pen(15, 0, false)
  {
    hide FedAll, Sent, Fits, Styled;
    OneStyle(s, 30 + k);
    OneStyle(s, 40 + k);
    OneStyle(s, 90 + k);
    OneStyle(s, 100 + k);
    OneStyle(s, 1);
    OneStyle(s, 39);
    OneStyle(s, 49);
    OneStyle(s, 0);
  }

  lemma OneStyle(s: Screen, p: nat)
    requires Fits(s) && s.parser.mode == Ground
    ensures FedAll(s, Sent([p], 109)).pen == Restyled(s.pen, p)
  {
    StyleSequence(s, [p]);
    hide Restyled;
    assert [p][..0] == [];
    assert Styled(s.pen, []) == s.pen;
  }

  /** Bold is not taken back by any code but the reset, and codes that are not known do nothing. */
  lemma UnknownStyles(pen: Pen, p: nat)
    requires !(p in {0, 1, 39, 49} || 30 <= p <= 37 || 40 <= p <= 47 || 90 <= p <= 97 || 100 <= p <= 107)
    ensures Restyled(pen, p) == pen
  {
  }

  /** A printed character goes where the cursor is, in the current style, and changes no other cell; a
      pending wrap first goes to the next line. */
  lemma PrintedCell(s: Screen, ch: byte, y: nat, x: nat)
    requires Fits(s) && s.parser.mode == Ground && ch >= 32 && s.cx < s.cols && y < |s.page.rows| && x < s.cols
    ensures var t := Fed(s, ch);
            && t.page.rows[y][x] == (if y == s.cy && x == s.cx then Cell(ch as nat, s.pen) else s.page.rows[y][x])
            && t.cx == s.cx + 1 && t.cy == s.cy && t.pen == s.pen && t.page.history == s.page.history
  {
  }

  lemma WrappedCell(s: Screen, ch: byte)
    requires Fits(s) && s.parser.mode == Ground && ch >= 32 && s.cx == s.cols
    ensures Fed(s, ch) == Fed(Fed(s, 10), ch)
  {
  }

  /** Carriage return, backspace, tab and line feed: no cell changes, unless a line feed
      scrolls. */
  lemma ControlsMove(s: Screen)
    requires Fits(s) && s.parser.mode == Ground
    ensures Fed(s, 13) == s.(cx := 0) && Fed(s, 8) == s.(cx := if s.cx == 0 then 0 else s.cx - 1)
    ensures var t := Fed(s, 9);
            && t == s.(cx := t.cx) && t.cx < s.cols
            && (t.cx == s.cols - 1 || (t.cx % 8 == 0 && s.cx < t.cx <= s.cx + 8))
    ensures var t := Fed(s, 10);
            && t.cx == 0
            && if s.cy < |s.page.rows| - 1 then t.cy == s.cy + 1 && t.page == s.page
               else
                 && t.cy == s.cy && t.page.history == s.page.history + [s.page.rows[0]]
                 && t.page.rows[..|s.page.rows| - 1] == s.page.rows[1..]
  {
  }

  lemma ReverseIndex(s: Screen)
    requires Fits(s) && s.parser.mode == Ground
    ensures FedAll(s, [27, 77]) == s.(cy := if s.cy == 0 then 0 else s.cy - 1)
  {
    FedOne(s, 27);
    FedOne(Fed(s, 27), 77);
    FedAppend(s, [27], [77]);
    assert [27] + [77] == [27, 77];
  }

  /** A sequence with one parameter and no ';' acts as if it had none, unless it sets the style. */
  lemma {:induction false} LoneParameterIgnored(s: Screen, digits: seq<byte>, final: byte)
    requires Fits(s) && s.parser.mode == Control && s.parser.nparam == 0
    requires forall i :: 0 <= i < |digits| ==> 48 <= digits[i] <= 57
    requires 0x40 <= final <= 0x7e && final != 109
    ensures var t := Fed(FedAll(s, digits), final);
            t.(parser := s.parser) == Fed(s, final).(parser := s.parser)
  {
    DigitsOnly(s, digits);
    var q := FedAll(s, digits).parser;
    DispatchUnparameterised(s, q, final);
  }

  lemma DispatchUnparameterised(s: Screen, q: Parser, final: byte)
    requires Fits(s) && |q.params| == PARAMS && q.nparam == 0 && s.parser.nparam == 0 && final != 109
    ensures Dispatch(s.(parser := q), final) == Dispatch(s, final).(parser := q)
  {
  }

  lemma {:induction false} DigitsOnly(s: Screen, digits: seq<byte>)
    requires Fits(s) && s.parser.mode == Control
    requires forall i :: 0 <= i < |digits| ==> 48 <= digits[i] <= 57
    ensures var t := FedAll(s, digits);
            t == s.(parser := t.parser) && t.parser.mode == Control && t.parser.nparam == s.parser.nparam
  {
    if digits != [] { DigitsOnly(s, digits[..|digits| - 1]); }
  }

  /** An SGR sequence faults exactly from the eighth ';' on. */
  lemma {:induction false} SemicolonsFault(s: Screen, k: nat)
    requires Fits(s) && !s.fault && s.parser.mode == Control && s.parser.nparam == 0
    ensures Fed(FedAll(s, seq(k, _ => 59)), 109).fault <==> k >= PARAMS
  {
    Semicolons(s, k);
  }

  lemma {:induction false} Semicolons(s: Screen, k: nat)
    requires Fits(s) && s.parser.mode == Control
    ensures FedAll(s, seq(k, _ => 59)) == s.(parser := s.parser.(nparam := s.parser.nparam + k))
  {
    if k > 0 {
      Semicolons(s, k - 1);
      assert seq(k, _ => 59 as byte)[..k - 1] == seq(k - 1, _ => 59 as byte);
    }
  }

  // ------------------------------------------------------------- laid-out text

  predicate Printing(ch: byte) { ch >= 32 || ch == 10 }

  /** One byte more: a full line wraps only when more follows it. */
  function Laid(lines: seq<seq<byte>>, cols: nat, ch: byte): seq<seq<byte>>
    requires |lines| > 0
  {
    var last := lines[|lines| - 1];
    if ch == 10 then lines + [[]]
    else if |last| == cols then lines + [[ch]]
    else lines[|lines| - 1 := last + [ch]]
  }

  /** The lines of a text on paper cols wide. */
  function Layout(text: seq<byte>, cols: nat): (lines: seq<seq<byte>>)
    requires cols > 0
    ensures |lines| > 0 && forall i :: 0 <= i < |lines| ==> |lines[i]| <= cols
  {
    if text == [] then [[]] else Laid(Layout(text[..|text| - 1], cols), cols, text[|text| - 1])
  }

  /** What pads row i: rows of the first screen were allocated, later ones cleared. */
  function Filler(i: nat, n: nat): Cell { if i < n then ZERO else Blanked(DEFAULT) }

  function Padded(line: seq<byte>, cols: nat, i: nat, n: nat): (r: Row)
    ensures |r| == cols
  {
    seq(cols, x requires 0 <= x < cols => if x < |line| then Cell(line[x] as nat, DEFAULT) else Filler(i, n))
  }

  /** The text on paper of at least n lines. */
  function Paper(lines: seq<seq<byte>>, cols: nat, n: nat): seq<Row> {
    seq(Max(n, |lines|), i requires 0 <= i < Max(n, |lines|) =>
      Padded(if i < |lines| then lines[i] else [], cols, i, n))
  }

  /** The screen shows the lines: scrolled rows and grid are the paper, the cursor is at the end. */
  predicate Shows(s: Screen, lines: seq<seq<byte>>, n: nat) {
    && Fits(s) && |s.page.rows| == n && s.pen == DEFAULT && s.parser.mode == Ground && !s.fault
    && |lines| == |s.page.history| + s.cy + 1 && s.cx == |lines[|lines| - 1]|
    && s.page.history + s.page.rows == Paper(lines, s.cols, n)
    && (forall i :: 0 <= i < |lines| ==> |lines[i]| <= s.cols)
  }

  /** Writing the next character of the last line. */
  lemma ShowsChar(s: Screen, lines: seq<seq<byte>>, n: nat, ch: byte)
    requires Shows(s, lines, n) && ch >= 32 && s.cx < s.cols
    ensures Shows(Put(s, ch), lines[|lines| - 1 := lines[|lines| - 1] + [ch]], n)
  {
    var k := |lines| - 1;
    var more := lines[k := lines[k] + [ch]];
    var t := Put(s, ch);
    var all := s.page.history + s.page.rows;
    assert t.page.history + t.page.rows == all[k := all[k][s.cx := Cell(ch as nat, DEFAULT)]];
    assert all[k] == Padded(lines[k], s.cols, k, n);
    assert Padded(more[k], s.cols, k, n) == all[k][s.cx := Cell(ch as nat, DEFAULT)];
    assert t.page.history + t.page.rows == Paper(more, s.cols, n);
  }

  lemma BlankPadded(cols: nat, i: nat, n: nat)
    requires i >= n
    ensures Padded([], cols, i, n) == BlankRow(cols, DEFAULT)
  {
    var line: seq<byte> := [];
    var a, b := Padded(line, cols, i, n), BlankRow(cols, DEFAULT);
    forall x | 0 <= x < cols ensures a[x] == b[x] {
      assert a[x] == Filler(i, n);
    }
  }

  /** Going to the next line. */
  lemma ShowsLine(s: Screen, lines: seq<seq<byte>>, n: nat)
    requires Shows(s, lines, n)
    ensures Shows(LineDown(s), lines + [[]], n)
  {
    var t := LineDown(s);
    var all := s.page.history + s.page.rows;
    BlankPadded(s.cols, |all|, n);
    assert |all| == Max(n, |lines|);
    if s.cy + 1 < n {
      assert Paper(lines + [[]], s.cols, n) == Paper(lines, s.cols, n);
    } else {
      assert t.page.history + t.page.rows == all + [BlankRow(s.cols, DEFAULT)];
      assert Paper(lines + [[]], s.cols, n) == Paper(lines, s.cols, n) + [BlankRow(s.cols, DEFAULT)];
    }
  }

  /** A character after a full line. */
  lemma ShowsWrap(s: Screen, lines: seq<seq<byte>>, n: nat, ch: byte)
    requires Shows(s, lines, n) && ch >= 32 && s.cx == s.cols
    ensures Shows(Put(s, ch), lines + [[ch]], n)
  {
    ShowsLine(s, lines, n);
    var next: seq<seq<byte>> := lines + [[]];
    ShowsChar(LineDown(s), next, n, ch);
    assert next[|lines|] + [ch] == [ch];
    assert next[|lines| := [ch]] == lines + [[ch]];
  }

  /** One printable byte lays out one more byte of text. */
  lemma ShowsFed(s: Screen, lines: seq<seq<byte>>, n: nat, ch: byte)
    requires Shows(s, lines, n) && Printing(ch)
    ensures Shows(Fed(s, ch), Laid(lines, s.cols, ch), n)
  {
    if ch == 10 {
      ShowsLine(s, lines, n);
    } else if s.cx == s.cols {
      ShowsWrap(s, lines, n, ch);
    } else {
      ShowsChar(s, lines, n, ch);
    }
  }

  lemma FreshShows(cols: nat, n: nat)
    requires cols > 0 && n > 0
    ensures Shows(Fresh(cols, n), [[]], n)
  {
    var s := Fresh(cols, n);
    var line: seq<byte> := [];
    forall i | 0 <= i < n ensures s.page.rows[i] == Padded(line, cols, i, n) {
      var a, b := s.page.rows[i], Padded(line, cols, i, n);
      forall x | 0 <= x < cols ensures a[x] == b[x] { assert b[x] == Filler(i, n); }
    }
    assert s.page.history + s.page.rows == Paper([line], cols, n);
  }

  /** For every printable text: scrolled rows and grid are the lazily wrapped layout, padded. */
  lemma {:induction false} TextIsLaidOut(text: seq<byte>, cols: nat, rows: nat)
    requires cols > 0 && rows > 0 && forall i :: 0 <= i < |text| ==> Printing(text[i])
    ensures Shows(FedAll(Fresh(cols, rows), text), Layout(text, cols), rows)
  {
    if text == [] {
      FreshShows(cols, rows);
    } else {
      var front := text[..|text| - 1];
      TextIsLaidOut(front, cols, rows);
      KeepsSize(Fresh(cols, rows), front);
      ShowsFed(FedAll(Fresh(cols, rows), front), Layout(front, cols), rows, text[|text| - 1]);
    }
  }

  // ----------------------------------------------------------------- in place

  /** A flat grid read row by row. */
  function RowsOf(g: seq<Cell>, cols: nat, n: nat): (r: seq<Row>)
    requires |g| == n * cols
    ensures |r| == n && Rect(r, cols)
  {
    if n == 0 then [] else
      Rows(cols, 1, n);
      assert |g[cols..]| == (n - 1) * cols;
      [g[..cols]] + RowsOf(g[cols..], cols, n - 1)
  }

  lemma IndexInGrid(cols: nat, n: nat, y: nat, x: nat)
    requires y < n && x < cols
    ensures y * cols + x < n * cols
  {
    Rows(cols, y, y);
    Rows(cols, y + 1, n);
  }

  lemma RowBelow(cols: nat, y: nat, x: nat)
    requires y > 0
    ensures y * cols + x == cols + (y - 1) * cols + x
  {
    Rows(cols, y - 1, y - 1);
  }

  lemma {:induction false} RowsOfCell(g: seq<Cell>, cols: nat, n: nat, y: nat, x: nat)
    requires |g| == n * cols && y < n && x < cols
    ensures y * cols + x < |g| && RowsOf(g, cols, n)[y][x] == g[y * cols + x]
    decreases n
  {
    IndexInGrid(cols, n, y, x);
    if y > 0 {
      Rows(cols, 1, n);
      RowsOfCell(g[cols..], cols, n - 1, y - 1, x);
      RowBelow(cols, y, x);
      assert RowsOf(g, cols, n)[y] == RowsOf(g[cols..], cols, n - 1)[y - 1];
    }
  }

  lemma {:induction false} RowsOfUpdate(g: seq<Cell>, cols: nat, n: nat, y: nat, x: nat, c: Cell)
    requires |g| == n * cols && y < n && x < cols
    ensures y * cols + x < |g| && RowsOf(g[y * cols + x := c], cols, n) == WithCell(RowsOf(g, cols, n), y, x, c)
    decreases n
  {
    IndexInGrid(cols, n, y, x);
    Rows(cols, 1, n);
    var h := g[y * cols + x := c];
    if y == 0 {
      assert h[..cols] == g[..cols][x := c] && h[cols..] == g[cols..];
    } else {
      Rows(cols, y - 1, y - 1);
      RowsOfUpdate(g[cols..], cols, n - 1, y - 1, x, c);
      assert h[..cols] == g[..cols] && h[cols..] == g[cols..][(y - 1) * cols + x := c];
    }
  }

  lemma {:induction false} RowsOfAppend(g: seq<Cell>, cols: nat, n: nat, row: Row)
    requires |g| == n * cols && |row| == cols
    ensures |g + row| == (n + 1) * cols && RowsOf(g + row, cols, n + 1) == RowsOf(g, cols, n) + [row]
    decreases n
  {
    Rows(cols, n, n);
    var h := g + row;
    if n == 0 {
      assert h == row && h[..cols] == row && h[cols..] == [];
    } else {
      Rows(cols, 1, n);
      RowsOfAppend(g[cols..], cols, n - 1, row);
      assert h[..cols] == g[..cols] && h[cols..] == g[cols..] + row;
    }
  }

  lemma RowsOfScroll(g: seq<Cell>, cols: nat, n: nat, row: Row)
    requires |g| == n * cols && n > 0 && |row| == cols
    ensures |g[cols..] + row| == n * cols
    ensures RowsOf(g[cols..] + row, cols, n) == RowsOf(g, cols, n)[1..] + [row]
  {
    Rows(cols, 1, n);
    RowsOfAppend(g[cols..], cols, n - 1, row);
  }

  lemma RowsOfErased(g: seq<Cell>, h: seq<Cell>, cols: nat, n: nat, a: int, b: int, pen: Pen)
    requires |g| == |h| == n * cols
    requires forall i :: 0 <= i < |g| ==> h[i] == if a <= i < b then Blanked(pen) else g[i]
    ensures RowsOf(h, cols, n) == Erased(RowsOf(g, cols, n), cols, a, b, pen)
  {
    var before, after := RowsOf(g, cols, n), RowsOf(h, cols, n);
    forall y, x | 0 <= y < n && 0 <= x < cols
      ensures after[y][x] == if a <= y * cols + x < b then Blanked(pen) else before[y][x]
    {
      CellErased(g, h, cols, n, y, x, y * cols + x);
    }
    SameAsErased(before, after, cols, a, b, pen);
  }

  lemma CellErased(g: seq<Cell>, h: seq<Cell>, cols: nat, n: nat, y: nat, x: nat, k: int)
    requires |g| == |h| == n * cols && y < n && x < cols && k == y * cols + x
    ensures 0 <= k < |g| && RowsOf(g, cols, n)[y][x] == g[k] && RowsOf(h, cols, n)[y][x] == h[k]
  {
    RowsOfCell(g, cols, n, y, x);
    RowsOfCell(h, cols, n, y, x);
  }

  lemma SameAsErased(before: seq<Row>, after: seq<Row>, cols: nat, a: int, b: int, pen: Pen)
    requires |before| == |after| && Rect(before, cols) && Rect(after, cols)
    requires forall y, x :: 0 <= y < |after| && 0 <= x < cols ==>
               after[y][x] == if a <= y * cols + x < b then Blanked(pen) else before[y][x]
    ensures after == Erased(before, cols, a, b, pen)
  {
    var e := Erased(before, cols, a, b, pen);
    forall y | 0 <= y < |e| ensures e[y] == after[y] {
      assert forall x :: 0 <= x < cols ==> e[y][x] == after[y][x];
    }
  }

  /** The ring holds the last rows of the history, each at its number modulo the ring's length. */
  predicate Holds(ring: seq<Row>, head: nat, count: nat, history: seq<Row>) {
    && |ring| == SCROLLBACK && count == Min(|history|, SCROLLBACK) && head == |history| % SCROLLBACK
    && forall j :: |history| - count <= j < |history| ==> ring[j % SCROLLBACK] == history[j]
  }

  lemma HoldsMore(ring: seq<Row>, head: nat, count: nat, history: seq<Row>, row: Row)
    requires Holds(ring, head, count, history)
    ensures Holds(ring[head := row], (head + 1) % SCROLLBACK, Min(count + 1, SCROLLBACK), history + [row])
  {
  }

  class Term {
    const cols: nat
    const rows: nat
    const grid: array<Cell>
    const params: array<nat>
    const ring: array<Row>
    var cx: nat
    var cy: nat
    var pen: Pen
    var mode: Mode
    var nparam: nat
    var head: nat
    var count: nat
    var fault: bool
    /** Every row that was scrolled off. */
    ghost var history: seq<Row>

    ghost predicate Valid()
      reads this, grid, params, ring
    {
      && cols > 0 && rows > 0 && grid.Length == rows * cols && params.Length == PARAMS
      && cx <= cols && cy < rows && Holds(ring[..], head, count, history)
    }

    ghost function View(): (s: Screen)
      requires Valid()
      reads this, grid, params, ring
      ensures Fits(s)
    {
      Screen(cols, Page(RowsOf(grid[..], cols, rows), history), cx, cy, pen,
             Parser(mode, params[..], nparam), fault)
    }

    constructor (width: nat, height: nat)
      requires width > 0 && height > 0
      ensures Valid() && View() == Fresh(width, height) && rows == height
      ensures fresh(grid) && fresh(params) && fresh(ring)
    {
      cols, rows := width, height;
      grid := new Cell[height * width](_ => ZERO);
      params := new nat[PARAMS](_ => 0);
      ring := new Row[SCROLLBACK](_ => []);
      cx, cy, pen, mode, nparam := 0, 0, DEFAULT, Ground, 0;
      head, count, fault, history := 0, 0, false, [];
      new;
      var r, f := RowsOf(grid[..], cols, rows), Fresh(width, height).page.rows;
      forall y | 0 <= y < rows ensures r[y] == f[y] {
        forall x | 0 <= x < cols ensures r[y][x] == f[y][x] { RowsOfCell(grid[..], cols, rows, y, x); }
      }
      assert params[..] == NoParams;
    }

    /** The row leaving the screen goes to the ring. */
    method Keep()
      requires Valid()
      modifies ring, this`head, this`count, this`history
      ensures Valid() && history == old(history) + [RowsOf(grid[..], cols, rows)[0]]
    {
      Rows(cols, 1, rows);
      HoldsMore(ring[..], head, count, history, grid[..cols]);
      history := history + [grid[..cols]];
      assert RowsOf(grid[..], cols, rows)[0] == grid[..cols];
      ring[head] := grid[..cols];
      head := (head + 1) % SCROLLBACK;
      if count < SCROLLBACK { count := count + 1; }
    }

    method ScrollUp()
      requires Valid()
      modifies grid, ring, this`head, this`count, this`history
      ensures Valid() && View() == old(View()).(page := Scrolled(old(View()).page, cols, pen))
    {
      Keep();
      Rows(cols, 1, rows);
      RowsOfScroll(grid[..], cols, rows, BlankRow(cols, pen));
      MoveUp();
    }

    /** memmove by one row, and the last row cleared. */
    method MoveUp()
      requires cols <= grid.Length
      modifies grid
      ensures grid[..] == old(grid[..])[cols..] + BlankRow(cols, pen)
    {
      var kept := grid.Length - cols;
      forall i | 0 <= i < kept { grid[i] := grid[i + cols]; }
      var blank := Blanked(pen);
      for x := 0 to cols
        invariant forall i :: 0 <= i < kept ==> grid[i] == old(grid[..])[cols + i]
        invariant forall i :: kept <= i < kept + x ==> grid[i] == blank
      {
        grid[kept + x] := blank;
      }
    }

    /** cursor_nl. */
    method CursorNl()
      requires Valid()
      modifies grid, ring, this`head, this`count, this`history, this`cx, this`cy
      ensures Valid() && View() == LineDown(old(View()))
    {
      cx := 0;
      cy := cy + 1;
      if cy >= rows {
        cy := rows - 1;
        ScrollUp();
      }
    }

    method PutChar(ch: byte)
      requires Valid()
      modifies grid, ring, this`head, this`count, this`history, this`cx, this`cy
      ensures Valid() && View() == Put(old(View()), ch)
    {
      if cx >= cols { CursorNl(); }
      SetCell(Cell(ch as nat, pen));
    }

    method SetCell(c: Cell)
      requires Valid() && cx < cols
      modifies grid, this`cx
      ensures Valid()
      ensures View() == old(View()).(page := old(View()).page.(rows := WithCell(old(View()).page.rows, cy, old(cx), c)), cx := old(cx) + 1)
    {
      RowsOfUpdate(grid[..], cols, rows, cy, cx, c);
      ghost var g := grid[..];
      grid[cy * cols + cx] := c;
      assert grid[..] == g[cy * cols + cx := c];
      cx := cx + 1;
    }

    /** The clearing loops: cells from a up to b, of which those past the grid are only noted. */
    method EraseCells(a: nat, b: nat)
      requires Valid()
      modifies grid, this`fault
      ensures Valid() && View() == Erase(old(View()), a, b).(fault := old(fault) || (a < b && b > grid.Length))
    {
      ghost var g := grid[..];
      var blank := Blanked(pen);
      var i := a;
      while i < b
        invariant a <= i && (a <= b ==> i <= b) && (a > b ==> i == a)
        invariant forall k :: 0 <= k < grid.Length ==> grid[k] == if a <= k < i then blank else g[k]
        invariant fault == (old(fault) || (a < i && i > grid.Length))
      {
        if i < grid.Length { grid[i] := blank; } else { fault := true; }
        i := i + 1;
      }
      RowsOfErased(g, grid[..], cols, rows, a, b, pen);
    }

    /** sgr: more than eight parameters read past the array. */
    method Sgr()
      requires Valid()
      modifies this`pen, this`fault
      ensures Valid()
      ensures var k := Max(1, nparam);
              View() == old(View()).(pen := Styled(old(pen), params[..Min(k, PARAMS)]), fault := old(fault) || k > PARAMS)
    {
      var k := if nparam > 1 then nparam else 1;
      for i := 0 to k
        invariant pen == Styled(old(pen), params[..Min(i, PARAMS)])
        invariant fault == (old(fault) || i > PARAMS)
      {
        if i < PARAMS {
          assert params[..i + 1][..i] == params[..i];
          pen := Restyled(pen, params[i]);
        } else {
          fault := true;
        }
      }
    }

    method CsiDispatch(final: byte)
      requires Valid()
      modifies this`cx, this`cy, this`pen, this`fault, grid
      ensures Valid() && View() == Dispatch(old(View()), final)
    {
      if final in {65, 66, 67, 68, 72, 102} {
        MoveCursor(final);
      } else if final == 74 {
        EraseDisplay();
      } else if final == 75 {
        EraseLineAtCursor();
      } else if final == 109 {
        Sgr();
      }
    }

    method MoveCursor(final: byte)
      requires Valid()
      modifies this`cx, this`cy
      ensures Valid() && View() == Moved(old(View()), final)
    {
      var p0 := if nparam > 0 then params[0] else 0;
      match final
      case 65 => cy := Max(0, cy - Max(1, p0));
      case 66 => cy := Min(rows - 1, cy + Max(1, p0));
      case 67 => cx := Min(cols - 1, cx + Max(1, p0));
      case 68 => cx := Max(0, cx - Max(1, p0));
      case _ =>
        var row: int := if nparam > 0 then params[0] else 1;
        var col: int := if nparam > 1 then params[1] else 1;
        cy := Clamp(row - 1, 0, rows - 1);
        cx := Clamp(col - 1, 0, cols - 1);
    }

    method EraseDisplay()
      requires Valid()
      modifies this`fault, grid
      ensures Valid() && View() == DisplayErased(old(View()))
    {
      var p0 := if nparam > 0 then params[0] else 0;
      if p0 == 2 { EraseCells(0, rows * cols); } else { EraseCells(cy * cols + cx, rows * cols); }
    }

    method EraseLineAtCursor()
      requires Valid()
      modifies this`fault, grid
      ensures Valid() && View() == LineErased(old(View()))
    {
      var p0 := if nparam > 0 then params[0] else 0;
      LineInGrid();
      if p0 == 1 {
        EraseCells(cy * cols, cy * cols + cx + 1);
      } else {
        EraseCells(cy * cols + cx, cy * cols + cols);
      }
    }

    /** The cursor's line lies in the grid, and one cell more does unless it is the last line. */
    lemma LineInGrid()
      requires Valid()
      ensures cy * cols + cols <= grid.Length && (cy * cols + cols + 1 > grid.Length <==> cy == rows - 1)
    {
      Rows(cols, cy, cy);
      Rows(cols, cy + 1, rows);
      if cy < rows - 1 {
        Rows(cols, cy + 1, cy + 1);
        Rows(cols, cy + 2, rows);
      }
    }

    /** A byte in ground state. */
    method Type(ch: byte)
      requires Valid()
      modifies this, grid, ring
      ensures Valid() && View() == Typed(old(View()), ch)
    {
      if ch == 27 {
        mode := Escape;
      } else if ch == 10 {
        CursorNl();
      } else if ch == 13 {
        cx := 0;
      } else if ch == 8 {
        if cx > 0 { cx := cx - 1; }
      } else if ch == 9 {
        cx := Min(cols - 1, (cx + 8) / 8 * 8);
      } else if ch >= 32 {
        PutChar(ch);
      }
    }

    method ClearParams()
      requires params.Length == PARAMS
      modifies params
      ensures params[..] == NoParams
    {
      for i := 0 to PARAMS
        invariant forall k :: 0 <= k < i ==> params[k] == 0
      {
        params[i] := 0;
      }
      assert |params[..]| == |NoParams| && forall k :: 0 <= k < PARAMS ==> params[..][k] == NoParams[k];
    }

    method AfterEscape(ch: byte)
      requires Valid()
      modifies this`mode, this`nparam, this`cy, params
      ensures Valid() && View() == Escaped(old(View()), ch)
    {
      if ch == 91 {
        mode := Control;
        nparam := 0;
        ClearParams();
      } else {
        if ch == 77 && cy > 0 { cy := cy - 1; }
        mode := Ground;
      }
    }

    method InControl(ch: byte)
      requires Valid()
      modifies this, grid, params
      ensures Valid() && View() == Controlled(old(View()), ch)
    {
      if 48 <= ch <= 57 {
        AddDigit(ch);
      } else if ch == 59 {
        nparam := nparam + 1;
      } else {
        if 0x40 <= ch <= 0x7e { EndControl(ch); }
        mode := Ground;
      }
    }

    method AddDigit(ch: byte)
      requires Valid() && 48 <= ch <= 57
      modifies params
      ensures Valid() && View() == old(View()).(parser := Digit(old(View()).parser, ch))
    {
      var k := Min(nparam, 7);
      ghost var q := params[..];
      params[k] := params[k] * 10 + (ch as nat - 48);
      assert params[..] == q[k := q[k] * 10 + (ch as nat - 48)];
    }

    /** The final byte: the last parameter is counted after a ';' or before 'm'. */
    method EndControl(ch: byte)
      requires Valid()
      modifies this`nparam, this`cx, this`cy, this`pen, this`fault, grid
      ensures Valid()
      ensures var q := old(View()).parser;
              var n := if q.nparam > 0 || ch == 109 then q.nparam + 1 else 0;
              View() == Dispatch(old(View()).(parser := q.(nparam := n)), ch)
    {
      if nparam > 0 || ch == 109 { nparam := nparam + 1; }
      CsiDispatch(ch);
    }

    method FeedByte(ch: byte)
      requires Valid()
      modifies this, grid, ring, params
      ensures Valid() && View() == Fed(old(View()), ch)
    {
      match mode
      case Ground => Type(ch);
      case Escape => AfterEscape(ch);
      case Control => InControl(ch);
    }

    /** feed: the flat grid and the ring do what the rules say, for any bytes. */
    method Feed(bytes: seq<byte>)
      requires Valid()
      modifies this, grid, ring, params
      ensures Valid() && View() == FedAll(old(View()), bytes)
      ensures Holds(ring[..], head, count, history)
    {
      for i := 0 to |bytes|
        invariant Valid() && View() == FedAll(old(View()), bytes[..i])
      {
        assert bytes[..i + 1][..i] == bytes[..i];
        FeedByte(bytes[i]);
      }
      assert bytes[..|bytes|] == bytes;
    }
  }

  /** A fresh terminal fed a text: the rows in the ring and on the grid are the end of its paper. */
  method ShowText(text: seq<byte>, cols: nat, rows: nat) returns (t: Term)
    requires cols > 0 && rows > 0 && forall i :: 0 <= i < |text| ==> Printing(text[i])
    ensures t.Valid() && !t.fault && t.cols == cols && t.rows == rows
    ensures t.history + RowsOf(t.grid[..], cols, rows) == Paper(Layout(text, cols), cols, rows)
    ensures Holds(t.ring[..], t.head, t.count, t.history)
  {
    t := new Term(cols, rows);
    t.Feed(text);
    KeepsSize(Fresh(cols, rows), text);
    TextIsLaidOut(text, cols, rows);
  }
}
