/** The editor (applications/mica-textedit.c): an array of growable strings read as one text. */
module TextEdit {

  const MAXL := 4096
  /** Enter copies what stays on the line through a buffer of this size, terminator included. */
  const KEEP := 4096

  /** ml_str: the bytes up to the terminator, and the length the structure believes in. Deleting
      inside a line moves the terminator but leaves that length behind. */
  datatype Str = Str(text: string, n: nat)

  function Rebuilt(t: string): Str { Str(t, |t|) }

  /** ml_str_append writes at the believed length: past the terminator nothing of it is seen. */
  function Joined(s: Str, t: string): Str {
    Str(if s.n == |s.text| then s.text + t else s.text, s.n + |t|)
  }

  datatype Buffer = Buffer(lines: seq<Str>, row: nat, col: nat)

  predicate Free(t: string, c: char) { forall k :: 0 <= k < |t| ==> t[k] != c }

  predicate Line(s: Str) { |s.text| <= s.n && Free(s.text, '\n') && Free(s.text, '\0') }

  predicate Lines(lines: seq<Str>) { forall i :: 0 <= i < |lines| ==> Line(lines[i]) }

  predicate Valid(b: Buffer) {
    && 0 < |b.lines| <= MAXL && Lines(b.lines) && b.row < |b.lines| && b.col <= |b.lines[b.row].text|
  }

  // -------------------------------------------------------------- as one text

  function Before(lines: seq<Str>): string {
    if lines == [] then "" else Before(lines[..|lines| - 1]) + lines[|lines| - 1].text + "\n"
  }

  function After(lines: seq<Str>): string {
    if lines == [] then "" else "\n" + lines[0].text + After(lines[1..])
  }

  /** The lines joined by newlines. */
  function Text(lines: seq<Str>): string
    requires lines != []
  {
    lines[0].text + After(lines[1..])
  }

  /** Where the cursor is in the text. */
  function Offset(b: Buffer): nat
    requires Valid(b)
  {
    |Before(b.lines[..b.row])| + b.col
  }

  /** The text around line r. */
  lemma {:induction false} TextAt(lines: seq<Str>, r: nat)
    requires r < |lines|
    ensures Text(lines) == Before(lines[..r]) + lines[r].text + After(lines[r + 1..])
  {
    if r == 0 {
      assert Before(lines[..0]) == "";
    } else {
      TextAt(lines, r - 1);
      assert lines[..r][..r - 1] == lines[..r - 1];
      assert lines[r..][1..] == lines[r + 1..];
      assert After(lines[r..]) == "\n" + lines[r].text + After(lines[r + 1..]);
    }
  }

  function Inserted(t: string, k: nat, c: char): string
    requires k <= |t|
  {
    t[..k] + [c] + t[k..]
  }

  function Deleted(t: string, k: nat): string
    requires 0 < k <= |t|
  {
    t[..k - 1] + t[k..]
  }

  // ------------------------------------------------------------------- keys

  /** ins_char. */
  function Typed(b: Buffer, c: char): Buffer
    requires Valid(b)
  {
    var t := b.lines[b.row].text;
    b.(lines := b.lines[b.row := Rebuilt(Inserted(t, b.col, c))], col := b.col + 1)
  }

  function Kept(t: string): string { if |t| < KEEP then t else t[..KEEP - 1] }

  /** The Enter key. */
  function Entered(b: Buffer): Buffer
    requires Valid(b)
  {
    if |b.lines| >= MAXL then b else
      var t := b.lines[b.row].text;
      Buffer(b.lines[..b.row] + [Rebuilt(Kept(t[..b.col])), Rebuilt(t[b.col..])] + b.lines[b.row + 1..], b.row + 1, 0)
  }

  /** The Backspace key. */
  function Backspaced(b: Buffer): Buffer
    requires Valid(b)
  {
    var s := b.lines[b.row];
    if b.col > 0 then
      b.(lines := b.lines[b.row := Str(Deleted(s.text, b.col), s.n)], col := b.col - 1)
    else if b.row > 0 then
      var prev := b.lines[b.row - 1];
      Buffer(b.lines[..b.row - 1] + [Joined(prev, s.text)] + b.lines[b.row + 1..], b.row - 1, |prev.text|)
    else b
  }

  datatype Key = Char(c: char) | Enter | Backspace | Up | Down | Back | Forward | Other

  predicate Printable(c: char) { ' ' <= c <= '~' }

  function Clamped(b: Buffer): Buffer
    requires b.row < |b.lines|
  {
    if b.col > |b.lines[b.row].text| then b.(col := |b.lines[b.row].text|) else b
  }

  /** What a key does before the column is cut to the line. */
  function Applied(b: Buffer, k: Key): (r: Buffer)
    requires Valid(b)
    ensures r.row < |r.lines|
  {
    match k
    case Char(c) => if Printable(c) then Typed(b, c) else b
    case Enter => Entered(b)
    case Backspace => Backspaced(b)
    case Up => if b.row > 0 then b.(row := b.row - 1) else b
    case Down => if b.row + 1 < |b.lines| then b.(row := b.row + 1) else b
    case Back => if b.col > 0 then b.(col := b.col - 1) else b
    case Forward => b.(col := b.col + 1)
    case Other => b
  }

  function Pressed(b: Buffer, k: Key): Buffer
    requires Valid(b)
  {
    Clamped(Applied(b, k))
  }

  // ------------------------------------------------------------ on the text

  lemma TypedValid(b: Buffer, c: char)
    requires Valid(b) && Printable(c)
    ensures Valid(Typed(b, c))
  {
    var t := b.lines[b.row].text;
    assert Line(b.lines[b.row]);
    assert Line(Rebuilt(Inserted(t, b.col, c)));
  }

  /** Typing inserts the character at the cursor. */
  lemma TypingInserts(b: Buffer, c: char)
    requires Valid(b) && Printable(c)
    ensures Valid(Typed(b, c)) && Offset(b) <= |Text(b.lines)|
    ensures Text(Typed(b, c).lines) == Inserted(Text(b.lines), Offset(b), c)
    ensures Offset(Typed(b, c)) == Offset(b) + 1
  {
    TypedValid(b, c);
    var d := Typed(b, c);
    var r := b.row;
    TextAt(b.lines, r);
    TextAt(d.lines, r);
    assert d.lines[..r] == b.lines[..r] && d.lines[r + 1..] == b.lines[r + 1..];
    AroundInserted(Before(b.lines[..r]), b.lines[r].text, After(b.lines[r + 1..]), b.col, c);
  }

  lemma AroundInserted(head: string, t: string, tail: string, col: nat, c: char)
    requires col <= |t|
    ensures Inserted(head + t + tail, |head| + col, c) == head + Inserted(t, col, c) + tail
  {
    Around(head, t, tail, col);
  }

  /** Cutting the whole text at the cursor cuts its line at the column. */
  lemma Around(head: string, t: string, tail: string, col: nat)
    requires col <= |t|
    ensures var all := head + t + tail; all[..|head| + col] == head + t[..col] && all[|head| + col..] == t[col..] + tail
  {
  }

  lemma EnteredValid(b: Buffer)
    requires Valid(b)
    ensures Valid(Entered(b))
  {
    var t := b.lines[b.row].text;
    assert Line(b.lines[b.row]);
    assert Line(Rebuilt(Kept(t[..b.col]))) && Line(Rebuilt(t[b.col..]));
  }

  lemma EnteredText(b: Buffer)
    requires Valid(b) && |b.lines| < MAXL
    ensures Valid(Entered(b))
    ensures var t := b.lines[b.row].text; var head := Before(b.lines[..b.row]); var tail := After(b.lines[b.row + 1..]);
            && Text(b.lines) == head + t + tail
            && Text(Entered(b).lines) == head + Kept(t[..b.col]) + "\n" + t[b.col..] + tail
            && Offset(Entered(b)) == |head| + |Kept(t[..b.col])| + 1
  {
    EnteredValid(b);
    EnteredLines(b);
    var d, r := Entered(b), b.row;
    TextAt(b.lines, r);
    TextAt(d.lines, r + 1);
    hide Lines, Entered, Text, After;
  }

  lemma EnteredLines(b: Buffer)
    requires Valid(b) && |b.lines| < MAXL
    ensures var d, r, t := Entered(b), b.row, b.lines[b.row].text;
            && |d.lines| == |b.lines| + 1 && d.row == r + 1 && d.col == 0
            && d.lines[..r + 1][..r] == b.lines[..r] && d.lines[..r + 1][r] == d.lines[r] && d.lines[r + 2..] == b.lines[r + 1..]
            && d.lines[r].text == Kept(t[..b.col]) && d.lines[r + 1].text == t[b.col..]
  {
    hide Lines, Kept;
  }

  /** Enter inserts a newline at the cursor exactly while the column is below 4096; beyond that the
      rest of the line before the cursor is lost. */
  lemma EnterInserts(b: Buffer)
    requires Valid(b) && |b.lines| < MAXL
    ensures Offset(b) <= |Text(b.lines)| && Valid(Entered(b))
    ensures Text(Entered(b).lines) == Inserted(Text(b.lines), Offset(b), '\n') <==> b.col < KEEP
    ensures b.col < KEEP ==> Offset(Entered(b)) == Offset(b) + 1
    ensures b.col >= KEEP ==> |Text(Entered(b).lines)| == |Text(b.lines)| + 1 - (b.col - (KEEP - 1))
  {
    EnteredText(b);
    AroundSplit(Before(b.lines[..b.row]), b.lines[b.row].text, After(b.lines[b.row + 1..]), b.col,
                Kept(b.lines[b.row].text[..b.col]));
  }

  lemma AroundSplit(head: string, t: string, tail: string, col: nat, kept: string)
    requires col <= |t| && kept <= t[..col]
    ensures var all, split := head + t + tail, head + kept + "\n" + t[col..] + tail;
            && (split == Inserted(all, |head| + col, '\n') <==> |kept| == col)
            && |split| == |all| + 1 - (col - |kept|)
  {
    Around(head, t, tail, col);
    var split := head + kept + "\n" + t[col..] + tail;
    assert Inserted(head + t + tail, |head| + col, '\n') == head + t[..col] + "\n" + t[col..] + tail;
    if |kept| == col { assert kept == t[..col]; }
  }

  lemma BackspacedValid(b: Buffer)
    requires Valid(b)
    ensures Valid(Backspaced(b))
  {
    var s := b.lines[b.row];
    assert Line(s);
    if b.col > 0 {
      DeletedLine(s, b.col);
    } else if b.row > 0 {
      var prev := b.lines[b.row - 1];
      assert Line(prev);
      JoinedLine(prev, s.text);
      LinesAround(b.lines[..b.row - 1], Joined(prev, s.text), b.lines[b.row + 1..]);
    }
  }

  lemma DeletedLine(s: Str, col: nat)
    requires Line(s) && 0 < col <= |s.text|
    ensures Line(Str(Deleted(s.text, col), s.n))
  {
  }

  lemma JoinedLine(s: Str, t: string)
    requires Line(s) && Free(t, '\n') && Free(t, '\0')
    ensures Line(Joined(s, t)) && |s.text| <= |Joined(s, t).text|
  {
  }

  lemma LinesAround(before: seq<Str>, s: Str, after: seq<Str>)
    requires Lines(before) && Line(s) && Lines(after)
    ensures Lines(before + [s] + after)
  {
  }

  /** Inside a line Backspace deletes the character before the cursor. */
  lemma BackspaceInLine(b: Buffer)
    requires Valid(b) && b.col > 0
    ensures Valid(Backspaced(b)) && 0 < Offset(b) <= |Text(b.lines)|
    ensures Text(Backspaced(b).lines) == Deleted(Text(b.lines), Offset(b)) && Offset(Backspaced(b)) == Offset(b) - 1
  {
    BackspacedValid(b);
    var d, r := Backspaced(b), b.row;
    TextAt(b.lines, r);
    TextAt(d.lines, r);
    assert d.lines[..r] == b.lines[..r] && d.lines[r + 1..] == b.lines[r + 1..];
    AroundDeleted(Before(b.lines[..r]), b.lines[r].text, After(b.lines[r + 1..]), b.col);
  }

  lemma AroundDeleted(head: string, t: string, tail: string, col: nat)
    requires 0 < col <= |t|
    ensures Deleted(head + t + tail, |head| + col) == head + Deleted(t, col) + tail
  {
    Around(head, t, tail, col);
    Around(head, t, tail, col - 1);
  }

  lemma JoinedText(b: Buffer)
    requires Valid(b) && b.col == 0 && b.row > 0
    ensures Valid(Backspaced(b))
    ensures var prev, t := b.lines[b.row - 1], b.lines[b.row].text;
            var head, tail := Before(b.lines[..b.row - 1]), After(b.lines[b.row + 1..]);
            && Text(b.lines) == head + prev.text + "\n" + t + tail
            && Offset(b) == |head| + |prev.text| + 1
            && Text(Backspaced(b).lines) == head + Joined(prev, t).text + tail
            && Offset(Backspaced(b)) == |head| + |prev.text|
  {
    BackspacedValid(b);
    var d, r := Backspaced(b), b.row;
    TextAt(b.lines, r);
    TextAt(d.lines, r - 1);
    assert b.lines[..r][..r - 1] == b.lines[..r - 1];
    assert d.lines[..r - 1] == b.lines[..r - 1] && d.lines[r..] == b.lines[r + 1..];
  }

  /** At the start of a line Backspace joins it to the one before exactly when that one's length was
      kept, or there is nothing to join; otherwise the line's whole text is lost. */
  lemma BackspaceJoins(b: Buffer)
    requires Valid(b) && b.col == 0 && b.row > 0
    ensures Valid(Backspaced(b)) && 0 < Offset(b) <= |Text(b.lines)| && Offset(Backspaced(b)) == Offset(b) - 1
    ensures var prev, t := b.lines[b.row - 1], b.lines[b.row].text;
            && (Text(Backspaced(b).lines) == Deleted(Text(b.lines), Offset(b)) <==> prev.n == |prev.text| || t == "")
            && (prev.n != |prev.text| ==> |Text(Backspaced(b).lines)| == |Text(b.lines)| - 1 - |t|)
  {
    JoinedText(b);
    var prev, t := b.lines[b.row - 1], b.lines[b.row].text;
    AroundJoined(Before(b.lines[..b.row - 1]), prev.text, t, After(b.lines[b.row + 1..]), Joined(prev, t).text);
  }

  lemma AroundJoined(head: string, prev: string, t: string, tail: string, joined: string)
    requires joined == prev || joined == prev + t
    ensures var all, out := head + prev + "\n" + t + tail, head + joined + tail;
            && (out == Deleted(all, |head| + |prev| + 1) <==> joined == prev + t)
            && |out| == |all| - 1 - (|t| - (|joined| - |prev|))
  {
    assert Deleted(head + prev + "\n" + t + tail, |head| + |prev| + 1) == head + (prev + t) + tail;
    if |joined| == |prev + t| && t == "" { assert joined == prev + t; }
  }

  /** A line loses its length by a Backspace inside it: typing a character, deleting it again and
      joining the next line loses that line's text. */
  lemma DeleteThenJoinLoses(first: string, second: string, c: char)
    requires Line(Rebuilt(first)) && Line(Rebuilt(second)) && Printable(c) && second != ""
    ensures var b := Buffer([Rebuilt(first), Rebuilt(second)], 0, 0);
            var d := Backspaced(Typed(b, c));
            && Valid(b) && Valid(Typed(b, c)) && Valid(d) && Valid(d.(row := 1, col := 0))
            && Text(d.lines) == Text(b.lines) && Text(Backspaced(d.(row := 1, col := 0)).lines) == first
  {
    var b := Buffer([Rebuilt(first), Rebuilt(second)], 0, 0);
    TypedValid(b, c);
    TypedDeleted(first, second, c);
    StaleJoin(first, second);
  }

  lemma TypedDeleted(first: string, second: string, c: char)
    requires Valid(Buffer([Rebuilt(first), Rebuilt(second)], 0, 0)) && Valid(Typed(Buffer([Rebuilt(first), Rebuilt(second)], 0, 0), c))
    ensures Backspaced(Typed(Buffer([Rebuilt(first), Rebuilt(second)], 0, 0), c)) ==
            Buffer([Str(first, |first| + 1), Rebuilt(second)], 0, 0)
  {
    assert Deleted(Inserted(first, 0, c), 1) == first;
  }

  lemma StaleJoin(first: string, second: string)
    requires Line(Rebuilt(first)) && Line(Rebuilt(second)) && second != ""
    ensures var d := Buffer([Str(first, |first| + 1), Rebuilt(second)], 0, 0);
            && Valid(d) && Valid(d.(row := 1)) && Text(d.lines) == Text([Rebuilt(first), Rebuilt(second)])
            && Text(Backspaced(d.(row := 1)).lines) == first
  {
    var d := Buffer([Str(first, |first| + 1), Rebuilt(second)], 0, 0);
    assert d.lines[1..] == [Rebuilt(second)] == [Rebuilt(first), Rebuilt(second)][1..];
    var f := Backspaced(d.(row := 1));
    assert f.lines == [Str(first, |first| + 1 + |second|)] && f.lines[1..] == [];
  }

  /** Insert and delete: a typed character, or a newline below column 4096, taken back at once leaves
      text and cursor as they were. */
  lemma InsertThenBackspace(b: Buffer, c: char)
    requires Valid(b) && Printable(c)
    ensures var d := Typed(b, c);
            && Valid(d) && Valid(Backspaced(d)) && Text(Backspaced(d).lines) == Text(b.lines)
            && Backspaced(d).row == b.row && Backspaced(d).col == b.col
  {
    TypingInserts(b, c);
    BackspaceInLine(Typed(b, c));
    InsertedDeleted(Text(b.lines), Offset(b), c);
  }

  lemma EnterThenBackspace(b: Buffer)
    requires Valid(b) && |b.lines| < MAXL && b.col < KEEP
    ensures var d := Entered(b);
            && Valid(d) && Valid(Backspaced(d)) && Text(Backspaced(d).lines) == Text(b.lines)
            && Backspaced(d).row == b.row && Backspaced(d).col == b.col
  {
    EnteredShape(b);
    EnterInserts(b);
    BackspaceJoins(Entered(b));
    InsertedDeleted(Text(b.lines), Offset(b), '\n');
  }

  lemma EnteredShape(b: Buffer)
    requires Valid(b) && |b.lines| < MAXL && b.col < KEEP
    ensures var d := Entered(b);
            && Valid(d) && d.row == b.row + 1 && d.col == 0
            && d.lines[b.row] == Rebuilt(b.lines[b.row].text[..b.col])
            && Backspaced(d).row == b.row && Backspaced(d).col == b.col
  {
    EnteredValid(b);
    var d := Entered(b);
    assert d.lines[b.row] == Rebuilt(Kept(b.lines[b.row].text[..b.col]));
  }

  lemma InsertedDeleted(t: string, k: nat, c: char)
    requires k <= |t|
    ensures Deleted(Inserted(t, k, c), k + 1) == t
  {
  }

  /** Which key does what to the text: a printable character and Enter insert at the cursor, Backspace
      deletes before it, and everything else leaves the text alone. */
  lemma KeysEdit(b: Buffer, k: Key)
    requires Valid(b)
    ensures var d, t, o := Pressed(b, k), Text(b.lines), Offset(b);
            && Valid(d) && o <= |t|
            && (k.Char? && Printable(k.c) ==> Text(d.lines) == Inserted(t, o, k.c) && Offset(d) == o + 1)
            && (k == Enter && |b.lines| < MAXL && b.col < KEEP ==> Text(d.lines) == Inserted(t, o, '\n') && Offset(d) == o + 1)
            && (k == Backspace && b.col > 0 ==> o > 0 && Text(d.lines) == Deleted(t, o) && Offset(d) == o - 1)
            && (k == Backspace && b.col == 0 && b.row > 0 && b.lines[b.row - 1].n == |b.lines[b.row - 1].text| ==>
                  o > 0 && Text(d.lines) == Deleted(t, o) && Offset(d) == o - 1)
            && (k == Backspace && o == 0 ==> d == b)
            && (!k.Enter? && !k.Backspace? && !(k.Char? && Printable(k.c)) ==> d.lines == b.lines)
  {
    PressedValid(b, k);
    OffsetBound(b);
    match k
    case Char(c) => if Printable(c) { TypingInserts(b, c); }
    case Enter => if |b.lines| < MAXL { EnterInserts(b); }
    case Backspace =>
      BackspacedValid(b);
      if b.col > 0 { BackspaceInLine(b); } else if b.row > 0 { BackspaceJoins(b); }
    case _ =>
  }

  lemma OffsetBound(b: Buffer)
    requires Valid(b)
    ensures Offset(b) <= |Text(b.lines)|
  {
    TextAt(b.lines, b.row);
  }

  /** The arrow keys: back and forward move one place inside the line, up and down keep the column as far
      as the other line reaches, and at the edges nothing moves. */
  lemma ArrowsMove(b: Buffer)
    requires Valid(b)
    ensures Valid(Pressed(b, Back)) && Offset(Pressed(b, Back)) == Offset(b) - (if b.col > 0 then 1 else 0)
    ensures Valid(Pressed(b, Forward)) && Offset(Pressed(b, Forward)) == Offset(b) + (if b.col < |b.lines[b.row].text| then 1 else 0)
    ensures var u := Pressed(b, Up);
            if b.row == 0 then u == b
            else u.row == b.row - 1 && u.col <= b.col && (u.col == b.col || u.col == |b.lines[u.row].text|)
    ensures var d := Pressed(b, Down);
            if b.row == |b.lines| - 1 then d == b
            else d.row == b.row + 1 && d.col <= b.col && (d.col == b.col || d.col == |b.lines[d.row].text|)
  {
    PressedValid(b, Back);
    PressedValid(b, Forward);
  }

  lemma PressedValid(b: Buffer, k: Key)
    requires Valid(b)
    ensures Valid(Pressed(b, k))
  {
    match k
    case Char(c) => if Printable(c) { TypedValid(b, c); }
    case Enter => EnteredValid(b);
    case Backspace => BackspacedValid(b);
    case _ =>
  }

  // -------------------------------------------------------------- load and save

  /** What save writes. */
  function Saved(lines: seq<Str>): string {
    if lines == [] then "" else lines[0].text + "\n" + Saved(lines[1..])
  }

  lemma {:induction false} SavedMore(lines: seq<Str>, s: Str)
    ensures Saved(lines + [s]) == Saved(lines) + s.text + "\n"
  {
    var all := lines + [s];
    if lines == [] {
      assert all[1..] == [];
    } else {
      assert all[1..] == lines[1..] + [s];
      SavedMore(lines[1..], s);
    }
  }

  /** Where c first is, the length if nowhere: strchr. */
  function First(f: string, c: char): (i: nat)
    ensures i <= |f| && (forall k :: 0 <= k < i ==> f[k] != c) && (i < |f| ==> f[i] == c)
  {
    if f == "" || f[0] == c then 0 else 1 + First(f[1..], c)
  }

  function FirstNul(f: string): (i: nat)
    ensures i <= |f|
  {
    First(f, '\0')
  }

  function FirstLine(f: string): (i: nat)
    ensures i <= |f|
  {
    First(f, '\n')
  }

  /** What follows the first line. */
  function AfterLine(f: string): (r: string)
    ensures f != "" ==> |r| < |f|
  {
    if FirstLine(f) == |f| then "" else f[FirstLine(f) + 1..]
  }

  /** The lines of a file without zero bytes, at most room of them. */
  function Parsed(f: string, room: nat): (r: seq<Str>)
    ensures |r| <= room
    decreases |f|
  {
    if f == "" || room == 0 then []
    else [Rebuilt(f[..FirstLine(f)])] + Parsed(AfterLine(f), room - 1)
  }

  lemma Assoc(all: seq<Str>, done: seq<Str>, x: Str, q: seq<Str>)
    requires all == done + ([x] + q)
    ensures all == done + [x] + q
  {
  }

  lemma Glued(after: seq<Str>, was: seq<Str>, row: nat, joined: Str)
    requires 0 < row < |was| && |after| == |was| - 1
    requires after[..row] == was[row - 1 := joined][..row] && after[row..] == was[row + 1..]
    ensures after == was[..row - 1] + [joined] + was[row + 1..]
  {
    assert after == after[..row] + after[row..];
    assert was[row - 1 := joined][..row] == was[..row - 1] + [joined];
  }

  lemma SplitGlued(moved: seq<Str>, was: seq<Str>, row: nat, a: Str, b: Str)
    requires row < |was| && |moved| == |was| + 1
    requires moved[..row + 1] == was[..row + 1] && moved[row + 2..] == was[row + 1..]
    ensures moved[row := a][row + 1 := b] == was[..row] + [a, b] + was[row + 1..]
  {
    var after := moved[row := a][row + 1 := b];
    assert after[..row] == moved[..row + 1][..row] == was[..row + 1][..row];
    assert after == after[..row] + [a, b] + after[row + 2..];
  }

  lemma ShiftedDown(now: seq<Str>, was: seq<Str>, from: nat, nl: nat)
    requires from <= nl < |now| == |was|
    requires forall k :: 0 <= k < from ==> now[k] == was[k]
    requires forall k :: from < k <= nl ==> now[k] == was[k - 1]
    ensures now[..from] == was[..from] && now[from + 1..nl + 1] == was[from..nl]
  {
    var a, b := now[from + 1..nl + 1], was[from..nl];
    forall k | 0 <= k < |a| ensures a[k] == b[k] { assert a[k] == now[from + 1 + k]; }
  }

  lemma ShiftedUp(now: seq<Str>, was: seq<Str>, from: nat, nl: nat)
    requires from < nl <= |now| == |was|
    requires forall k :: 0 <= k < from ==> now[k] == was[k]
    requires forall k :: from <= k < nl - 1 ==> now[k] == was[k + 1]
    ensures now[..from] == was[..from] && now[from..nl - 1] == was[from + 1..nl]
  {
    var a, b := now[from..nl - 1], was[from + 1..nl];
    forall k | 0 <= k < |a| ensures a[k] == b[k] { assert a[k] == now[from + k]; }
  }

  lemma NoneBefore(all: seq<Str>, none: seq<Str>)
    requires none == []
    ensures all == none + all
  {
  }

  lemma NoneAfter(all: seq<Str>, done: seq<Str>, none: seq<Str>)
    requires all == done + none && none == []
    ensures all == done
  {
  }

  lemma ParsedStep(f: string, room: nat)
    requires f != "" && room > 0
    ensures Parsed(f, room) == [Rebuilt(f[..FirstLine(f)])] + Parsed(AfterLine(f), room - 1)
    ensures Parsed(f, room)[1..] == Parsed(AfterLine(f), room - 1)
  {
  }

  /** What load reads: the file up to its first zero byte, one empty line if there is nothing. */
  function Loaded(f: string): seq<Str> {
    var r := Parsed(f[..FirstNul(f)], MAXL);
    if r == [] then [Rebuilt("")] else r
  }

  /** How many newlines a file has. */
  function Newlines(f: string): nat {
    if f == "" then 0 else (if f[0] == '\n' then 1 else 0) + Newlines(f[1..])
  }

  function Texts(lines: seq<Str>): seq<string> {
    seq(|lines|, i requires 0 <= i < |lines| => lines[i].text)
  }

  lemma {:induction false} ParsedSaved(lines: seq<Str>, room: nat)
    requires Lines(lines) && |lines| <= room
    ensures Texts(Parsed(Saved(lines), room)) == Texts(lines)
    decreases |lines|
  {
    hide *;
    if lines == [] {
      ParsedSavedNone(lines, room);
    } else {
      LinesTail(lines);
      ParsedSaved(lines[1..], room - 1);
      ParsedSavedHead(lines, room);
      TextsHead(lines);
    }
  }

  lemma ParsedSavedNone(lines: seq<Str>, room: nat)
    requires lines == []
    ensures Parsed(Saved(lines), room) == lines
  {
  }

  lemma LinesTail(lines: seq<Str>)
    requires lines != [] && Lines(lines)
    ensures Lines(lines[1..])
  {
  }

  lemma ParsedSavedHead(lines: seq<Str>, room: nat)
    requires lines != [] && Lines(lines) && room > 0
    ensures Texts(Parsed(Saved(lines), room)) == [lines[0].text] + Texts(Parsed(Saved(lines[1..]), room - 1))
  {
    assert Line(lines[0]);
    FirstLineIs(lines[0].text, Saved(lines[1..]));
    ParsedStep(Saved(lines), room);
    TextsHead(Parsed(Saved(lines), room));
  }

  lemma TextsHead(lines: seq<Str>)
    requires lines != []
    ensures Texts(lines) == [lines[0].text] + Texts(lines[1..])
  {
  }

  lemma FirstLineIs(t: string, rest: string)
    requires Free(t, '\n')
    ensures var f := t + "\n" + rest; FirstLine(f) == |t| && f[..|t|] == t && AfterLine(f) == rest
  {
    var f := t + "\n" + rest;
    assert f[|t|] == '\n' && forall k :: 0 <= k < |t| ==> f[k] == t[k];
  }

  /** Loading what was saved gives the same lines. */
  lemma LoadAfterSave(lines: seq<Str>)
    requires 0 < |lines| <= MAXL && Lines(lines)
    ensures Texts(Loaded(Saved(lines))) == Texts(lines)
  {
    ParsedSaved(lines, MAXL);
    LinesHaveNoNul(lines);
    SavedHasNoNul(lines);
    var f := Saved(lines);
    hide Saved, Lines, Parsed;
    NoNulWhole(f);
    assert |Texts(Parsed(f, MAXL))| == |lines|;
  }

  lemma NoNulWhole(f: string)
    requires Free(f, '\0')
    ensures f[..FirstNul(f)] == f
  {
  }

  /** The file ends with a newline and its lines fit. */
  predicate Whole(f: string, room: nat) { f != "" && f[|f| - 1] == '\n' && Newlines(f) <= room }

  lemma {:induction false} SavedParsed(f: string, room: nat)
    requires f != ""
    ensures Saved(Parsed(f, room)) == f <==> Whole(f, room)
    decreases |f|
  {
    hide *;
    if room == 0 || AfterLine(f) == "" {
      LastLine(f, room);
    } else {
      SavedParsed(AfterLine(f), room - 1);
      WholeAfterLine(f, room);
      SavedParsedMore(f, room);
    }
  }

  lemma WholeAfterLine(f: string, room: nat)
    requires f != "" && room > 0 && AfterLine(f) != ""
    ensures FirstLine(f) < |f| && (Whole(f, room) <==> Whole(AfterLine(f), room - 1))
  {
    NewlinesLast(f);
  }

  lemma LastLine(f: string, room: nat)
    requires f != "" && (room == 0 || AfterLine(f) == "")
    ensures Saved(Parsed(f, room)) == f <==> Whole(f, room)
  {
    NewlinesLast(f);
    if room > 0 {
      SavedParsedHead(f, room);
      if FirstLine(f) < |f| { SavedParsedMore(f, room); }
    }
  }

  lemma NewlinesLast(f: string)
    requires f != ""
    ensures var i, rest := FirstLine(f), AfterLine(f);
            && Newlines(f) == (if i < |f| then 1 + Newlines(rest) else 0)
            && (i == |f| ==> f[|f| - 1] != '\n')
            && (i < |f| && rest == "" ==> f[|f| - 1] == '\n' && Newlines(f) == 1)
            && (i < |f| && rest != "" ==> f[|f| - 1] == rest[|rest| - 1])
  {
    NewlinesAt(f, FirstLine(f));
  }

  /** The first line of what is parsed and saved again. */
  lemma SavedParsedHead(f: string, room: nat)
    requires f != "" && room > 0
    ensures Saved(Parsed(f, room)) == f[..FirstLine(f)] + "\n" + Saved(Parsed(AfterLine(f), room - 1))
  {
    ParsedStep(f, room);
  }

  /** With more lines to follow, saving is exact if it is exact for them. */
  lemma SavedParsedMore(f: string, room: nat)
    requires f != "" && room > 0 && FirstLine(f) < |f|
    ensures Saved(Parsed(f, room)) == f <==> Saved(Parsed(AfterLine(f), room - 1)) == AfterLine(f)
  {
    SavedParsedHead(f, room);
    SameTail(f, FirstLine(f), Saved(Parsed(AfterLine(f), room - 1)));
  }

  lemma SameTail(f: string, i: nat, q: string)
    requires i < |f| && f[i] == '\n'
    ensures f[..i] + "\n" + q == f <==> q == f[i + 1..]
  {
    var g := f[..i] + "\n" + q;
    assert g[i + 1..] == q;
    assert f == f[..i] + "\n" + f[i + 1..];
  }

  predicate NoNuls(lines: seq<Str>) {
    lines == [] || (Free(lines[0].text, '\0') && NoNuls(lines[1..]))
  }

  lemma {:induction false} LinesHaveNoNul(lines: seq<Str>)
    requires Lines(lines)
    ensures NoNuls(lines)
  {
    if lines != [] {
      assert Line(lines[0]);
      LinesHaveNoNul(lines[1..]);
    }
  }

  lemma {:induction false} SavedHasNoNul(lines: seq<Str>)
    requires NoNuls(lines)
    ensures Free(Saved(lines), '\0')
  {
    if lines != [] {
      SavedHasNoNul(lines[1..]);
    }
  }

  /** What is parsed and saved again is a part of the file, up to a newline at its end. */
  lemma {:induction false} SavedIsPrefix(f: string, room: nat)
    requires f != ""
    ensures Saved(Parsed(f, room)) <= f + "\n"
    decreases |f|
  {
    hide *;
    if room == 0 {
      NothingParsed(f, 0);
    } else {
      var rest := AfterLine(f);
      SavedParsedHead(f, room);
      if rest == "" { NothingParsed(rest, room - 1); } else { SavedIsPrefix(rest, room - 1); }
      PrefixBehind(f, FirstLine(f), rest, Saved(Parsed(rest, room - 1)));
    }
  }

  lemma NothingParsed(f: string, room: nat)
    requires f == "" || room == 0
    ensures Saved(Parsed(f, room)) == ""
  {
  }

  lemma PrefixBehind(f: string, i: nat, rest: string, again: string)
    requires i == FirstLine(f) && rest == AfterLine(f)
    requires if rest == "" then again == "" else again <= rest + "\n"
    ensures f[..i] + "\n" + again <= f + "\n"
  {
    if i < |f| { assert f + "\n" == f[..i] + "\n" + (rest + "\n"); }
  }

  lemma {:induction false} NewlinesAt(f: string, i: nat)
    requires i <= |f| && (forall k :: 0 <= k < i ==> f[k] != '\n') && (i < |f| ==> f[i] == '\n')
    ensures Newlines(f) == if i < |f| then 1 + Newlines(f[i + 1..]) else 0
    decreases i
  {
    if i > 0 {
      NewlinesAt(f[1..], i - 1);
      if i < |f| { assert f[1..][i - 1 + 1..] == f[i + 1..]; }
    }
  }

  /** Saving what was loaded gives the same file exactly when it has no zero byte, ends with a newline
      and has at most 4096 lines. */
  lemma SaveAfterLoad(f: string)
    ensures Saved(Loaded(f)) == f <==> Free(f, '\0') && Whole(f, MAXL)
  {
    if FirstNul(f) == 0 {
      NothingSaved(f);
    } else {
      SomethingSaved(f, f[..FirstNul(f)]);
    }
  }

  lemma SomethingSaved(f: string, g: string)
    requires g == f[..FirstNul(f)] && g != ""
    ensures Saved(Loaded(f)) == f <==> Free(f, '\0') && Whole(f, MAXL)
  {
    var again := Saved(Loaded(f));
    LoadedSome(f, g);
    NulNotSaved(f, g, again);
    if g == f { SavedParsed(f, MAXL); }
  }

  lemma LoadedSome(f: string, g: string)
    requires g == f[..FirstNul(f)] && g != ""
    ensures Loaded(f) == Parsed(g, MAXL) && Saved(Loaded(f)) <= g + "\n"
  {
    ParsedStep(g, MAXL);
    SavedIsPrefix(g, MAXL);
  }

  lemma NothingSaved(f: string)
    requires FirstNul(f) == 0
    ensures Saved(Loaded(f)) == "\n" && f != "\n" && (f != "" ==> !Free(f, '\0'))
  {
    assert Saved([Rebuilt("")]) == "\n";
  }

  lemma NulNotSaved(f: string, g: string, again: string)
    requires g == f[..FirstNul(f)] && again <= g + "\n"
    ensures again == f ==> g == f
    ensures Free(f, '\0') <==> g == f
  {
    assert |again| > |g| ==> again[|g|] == (g + "\n")[|g|] == '\n';
    if Free(f, '\0') { assert FirstNul(f) == |f|; }
  }

  // ----------------------------------------------------------------- in place

  class Editor {
    const line: array<Str>
    var nl: nat
    var row: nat
    var col: nat

    ghost predicate Usable()
      reads this, line
    {
      line.Length == MAXL && nl <= MAXL && Valid(View())
    }

    ghost function View(): Buffer
      requires nl <= line.Length
      reads this, line
    {
      Buffer(line[..nl], row, col)
    }

    constructor ()
      ensures line.Length == MAXL && nl == 0 && row == 0 && col == 0 && fresh(line)
    {
      line := new Str[MAXL](_ => Rebuilt(""));
      nl, row, col := 0, 0, 0;
    }

    /** load. */
    method Load(f: string)
      requires line.Length == MAXL
      modifies line, this`nl
      ensures nl <= MAXL && line[..nl] == Loaded(f)
    {
      nl := 0;
      LoadLines(f[..FirstNul(f)]);
      if nl == 0 { AddLine(""); }
    }

    method LoadLines(file: string)
      requires line.Length == MAXL && nl == 0
      modifies line, this`nl
      ensures nl <= MAXL && line[..nl] == Parsed(file, MAXL)
    {
      var p := file;
      ghost var all := Parsed(file, MAXL);
      NoneBefore(all, line[..nl]);
      while p != "" && nl < MAXL
        invariant nl <= MAXL && all == line[..nl] + Parsed(p, MAXL - nl)
        decreases |p|
      {
        p := LoadLine(p, all);
      }
      NoneAfter(all, line[..nl], Parsed(p, MAXL - nl));
    }

    /** One line of the file. */
    method LoadLine(p: string, ghost all: seq<Str>) returns (rest: string)
      requires p != "" && nl < line.Length == MAXL && all == line[..nl] + Parsed(p, MAXL - nl)
      modifies line, this`nl
      ensures nl <= MAXL && |rest| < |p| && all == line[..nl] + Parsed(rest, MAXL - nl)
    {
      ParsedStep(p, MAXL - nl);
      ghost var x, q, done := Rebuilt(p[..FirstLine(p)]), Parsed(AfterLine(p), MAXL - nl - 1), line[..nl];
      assert all == done + ([x] + q);
      AddLine(p[..FirstLine(p)]);
      assert line[..nl] == done + [x];
      rest := AfterLine(p);
      Assoc(all, done, x, q);
      assert all == line[..nl] + q;
    }

    method AddLine(t: string)
      requires nl < line.Length
      modifies line, this`nl
      ensures nl == old(nl) + 1 && line[..nl] == old(line[..nl]) + [Rebuilt(t)]
    {
      line[nl] := Rebuilt(t);
      nl := nl + 1;
    }

    /** save. */
    method Save() returns (f: string)
      requires nl <= line.Length
      ensures f == Saved(line[..nl])
    {
      f := "";
      for i := 0 to nl
        invariant f == Saved(line[..i])
      {
        f := f + line[i].text + "\n";
        SavedMore(line[..i], line[i]);
        assert line[..i + 1] == line[..i] + [line[i]];
      }
    }

    method InsChar(c: char)
      requires Usable()
      modifies line, this`col
      ensures nl <= line.Length && View() == Typed(old(View()), c)
    {
      var t := line[row].text;
      line[row] := Rebuilt(t[..col] + [c] + t[col..]);
      col := col + 1;
    }

    /** Lines from..nl move one place down. */
    method Open(from: nat)
      requires from <= nl < line.Length
      modifies line
      ensures line[..from] == old(line[..from]) && line[from + 1..nl + 1] == old(line[from..nl])
    {
      ghost var was := line[..];
      var i := nl;
      while i > from
        invariant from <= i <= nl
        invariant forall k :: 0 <= k < i ==> line[k] == was[k]
        invariant forall k :: i < k <= nl ==> line[k] == was[k - 1]
      {
        line[i] := line[i - 1];
        i := i - 1;
      }
      ShiftedDown(line[..], was, from, nl);
    }

    /** Lines from + 1..nl move one place up. */
    method Close(from: nat)
      requires from < nl <= line.Length
      modifies line
      ensures line[..from] == old(line[..from]) && line[from..nl - 1] == old(line[from + 1..nl])
    {
      ghost var was := line[..];
      var i := from;
      while i < nl - 1
        invariant from <= i <= nl - 1
        invariant forall k :: 0 <= k < from ==> line[k] == was[k]
        invariant forall k :: from <= k < i ==> line[k] == was[k + 1]
        invariant forall k :: i <= k < nl ==> line[k] == was[k]
      {
        line[i] := line[i + 1];
        i := i + 1;
      }
      ShiftedUp(line[..], was, from, nl);
    }

    method EnterKey()
      requires Usable()
      modifies line, this
      ensures nl <= line.Length && View() == Entered(old(View()))
    {
      if nl >= MAXL { return; }
      ghost var was := line[..nl];
      var t := line[row].text;
      Open(row + 1);
      ghost var moved := line[..nl + 1];
      assert moved[..row + 1] == line[..row + 1] && moved[row + 2..] == line[row + 2..nl + 1];
      SplitAt(t);
      SplitGlued(moved, was, row, Rebuilt(Kept(t[..col])), Rebuilt(t[col..]));
      nl := nl + 1;
      row := row + 1;
      col := 0;
    }

    /** The two halves of the line are stored. */
    method SplitAt(t: string)
      requires row < nl < line.Length && col <= |t|
      modifies line
      ensures line[..nl + 1] == old(line[..nl + 1])[row := Rebuilt(Kept(t[..col]))][row + 1 := Rebuilt(t[col..])]
    {
      line[row + 1] := Rebuilt(t[col..]);
      var keep := if col < KEEP then t[..col] else t[..KEEP - 1];
      assert keep == Kept(t[..col]);
      line[row] := Rebuilt(keep);
    }

    method BackspaceKey()
      requires Usable()
      modifies line, this
      ensures nl <= line.Length && View() == Backspaced(old(View()))
    {
      var s := line[row];
      if col > 0 {
        line[row] := Str(s.text[..col - 1] + s.text[col..], s.n);
        col := col - 1;
      } else if row > 0 {
        JoinWithPrevious();
      }
    }

    method JoinWithPrevious()
      requires Usable() && col == 0 && row > 0
      modifies line, this
      ensures nl <= line.Length && View() == Backspaced(old(View()))
    {
      ghost var was := line[..nl];
      var s := line[row];
      var plen := |line[row - 1].text|;
      line[row - 1] := Joined(line[row - 1], s.text);
      ghost var joined := line[..nl];
      assert joined == was[row - 1 := Joined(was[row - 1], s.text)];
      Close(row);
      assert line[..row] == joined[..row] && line[row..nl - 1] == joined[row + 1..];
      Glued(line[..nl - 1], was, row, Joined(was[row - 1], s.text));
      nl := nl - 1;
      row := row - 1;
      col := plen;
    }

    /** input: one key, then the column is cut to the line. */
    method Input(k: Key)
      requires Usable()
      modifies line, this
      ensures Usable() && View() == Pressed(old(View()), k)
    {
      PressedValid(View(), k);
      Apply(k);
      ClampColumn();
    }

    method Apply(k: Key)
      requires Usable()
      modifies line, this
      ensures nl <= line.Length && View() == Applied(old(View()), k)
    {
      match k
      case Char(c) => if Printable(c) { InsChar(c); }
      case Enter => EnterKey();
      case Backspace => BackspaceKey();
      case Up => if row > 0 { row := row - 1; }
      case Down => if row + 1 < nl { row := row + 1; }
      case Back => if col > 0 { col := col - 1; }
      case Forward => col := col + 1;
      case Other =>
    }

    method ClampColumn()
      requires row < nl <= line.Length
      modifies this`col
      ensures View() == Clamped(old(View()))
    {
      if col > |line[row].text| { col := |line[row].text|; }
    }
  }
}
