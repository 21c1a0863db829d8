/** The text screen of src/vga_buffer.rs: an 80x25 buffer scrolled in place. */
module VgaSpec {

  const HEIGHT: nat := 25
  const WIDTH: nat := 80
  const NEWLINE: nat := 10

  datatype ScreenChar = ScreenChar(ascii: nat, color: nat)

  type Row = r: seq<ScreenChar> | |r| == WIDTH witness BlankCells(WIDTH, 0)
  type Rows = rs: seq<Row> | |rs| == HEIGHT witness BlankRows(HEIGHT)

  function BlankCells(n: nat, color: nat): (r: seq<ScreenChar>)
    ensures |r| == n
    ensures forall i :: 0 <= i < n ==> r[i] == ScreenChar(32, color)
  {
    if n == 0 then [] else [ScreenChar(32, color)] + BlankCells(n - 1, color)
  }

  function Blank(color: nat): Row {
    BlankCells(WIDTH, color)
  }

  function BlankRows(n: nat): (rs: seq<Row>)
    ensures |rs| == n
  {
    if n == 0 then [] else [Blank(0)] + BlankRows(n - 1)
  }

  /** What is on the screen, and where the next character goes. */
  datatype Screen = Screen(rows: Rows, col: nat, color: nat)

  function NewLine(s: Screen): Screen {
    Screen(s.rows[1..] + [Blank(s.color)], 0, s.color)
  }

  /** A full line is only broken when the next character comes. */
  function WriteByte(s: Screen, b: nat): Screen {
    if b == NEWLINE then NewLine(s)
    else
      var at := if s.col >= WIDTH then NewLine(s) else s;
      at.(rows := at.rows[HEIGHT - 1 := at.rows[HEIGHT - 1][at.col := ScreenChar(b, s.color)]], col := at.col + 1)
  }

  function WriteBytes(s: Screen, text: seq<nat>): Screen {
    if text == [] then s else WriteByte(WriteBytes(s, text[..|text| - 1]), text[|text| - 1])
  }

  function Printable(b: nat): nat {
    if 0x20 <= b <= 0x7e || b == NEWLINE then b else 0xfe
  }

  function PrintableAll(bytes: seq<nat>): seq<nat> {
    if bytes == [] then [] else PrintableAll(bytes[..|bytes| - 1]) + [Printable(bytes[|bytes| - 1])]
  }

}

/** The writer, over the buffer it is given. */
module VgaObject {
  import opened VgaSpec

  class Writer {
    var columnPosition: nat
    const colorCode: nat
    const buffer: array2<ScreenChar>

    ghost predicate Valid()
      reads this
    {
      buffer.Length0 == HEIGHT && buffer.Length1 == WIDTH
    }

    constructor (buffer: array2<ScreenChar>, colorCode: nat)
      requires buffer.Length0 == HEIGHT && buffer.Length1 == WIDTH
      ensures Valid() && columnPosition == 0 && this.buffer == buffer && this.colorCode == colorCode
    {
      this.columnPosition, this.buffer, this.colorCode := 0, buffer, colorCode;
    }

    /** The buffer and the writer show the screen `s`. */
    ghost predicate Shows(s: Screen)
      reads this, buffer
    {
      && Valid() && columnPosition == s.col && colorCode == s.color
      && forall r, c :: 0 <= r < HEIGHT && 0 <= c < WIDTH ==> buffer[r, c] == s.rows[r][c]
    }

    method ClearRow(row: nat)
      requires Valid() && row < HEIGHT
      modifies buffer
      ensures forall r, c :: 0 <= r < HEIGHT && 0 <= c < WIDTH ==>
                               buffer[r, c] == if r == row then ScreenChar(32, colorCode) else old(buffer[r, c])
    {
      var col := 0;
      while col < WIDTH
        invariant col <= WIDTH
        invariant forall r, c :: 0 <= r < HEIGHT && 0 <= c < WIDTH ==>
                                   buffer[r, c] ==
                                   if r == row && c < col then ScreenChar(32, colorCode) else old(buffer[r, c])
      {
        buffer[row, col] := ScreenChar(32, colorCode);
        col := col + 1;
      }
    }

    /** Copies row `row` over the row above it. */
    method CopyUp(row: nat)
      requires Valid() && 0 < row < HEIGHT
      modifies buffer
      ensures forall r, c :: 0 <= r < HEIGHT && 0 <= c < WIDTH ==>
                               buffer[r, c] == if r == row - 1 then old(buffer[row, c]) else old(buffer[r, c])
    {
      var col := 0;
      while col < WIDTH
        invariant col <= WIDTH
        invariant forall r, c :: 0 <= r < HEIGHT && 0 <= c < WIDTH ==>
                                   buffer[r, c] ==
                                   if r == row - 1 && c < col then old(buffer[row, c]) else old(buffer[r, c])
      {
        buffer[row - 1, col] := buffer[row, col];
        col := col + 1;
      }
    }

    method NewLine(ghost s: Screen)
      requires Shows(s)
      modifies this, buffer
      ensures Shows(VgaSpec.NewLine(s))
    {
      var row := 1;
      while row < HEIGHT
        modifies buffer
        invariant 1 <= row <= HEIGHT
        invariant forall r, c :: 0 <= r < HEIGHT && 0 <= c < WIDTH ==>
                                   buffer[r, c] == if r < row - 1 then s.rows[r + 1][c] else s.rows[r][c]
      {
        CopyUp(row);
        row := row + 1;
      }
      ClearRow(HEIGHT - 1);
      columnPosition := 0;
    }

    method WriteByte(byte: nat, ghost s: Screen)
      requires Shows(s)
      modifies this, buffer
      ensures Shows(VgaSpec.WriteByte(s, byte))
    {
      if byte == NEWLINE {
        NewLine(s);
      } else {
        ghost var at := s;
        if columnPosition >= WIDTH {
          NewLine(s);
          at := VgaSpec.NewLine(s);
        }
        buffer[HEIGHT - 1, columnPosition] := ScreenChar(byte, colorCode);
        columnPosition := columnPosition + 1;
      }
    }

    method WriteString(bytes: seq<nat>, ghost s: Screen)
      requires Shows(s)
      modifies this, buffer
      ensures Shows(WriteBytes(s, PrintableAll(bytes)))
    {
      var i := 0;
      assert bytes[..0] == [];
      while i < |bytes|
        invariant i <= |bytes|
        invariant Shows(WriteBytes(s, PrintableAll(bytes[..i])))
      {
        ghost var done := PrintableAll(bytes[..i]);
        assert bytes[..i + 1][..i] == bytes[..i];
        assert (done + [Printable(bytes[i])])[..|done|] == done;
        if 0x20 <= bytes[i] <= 0x7e || bytes[i] == NEWLINE {
          WriteByte(bytes[i], WriteBytes(s, done));
        } else {
          WriteByte(0xfe, WriteBytes(s, done));
        }
        i := i + 1;
      }
      assert bytes[..i] == bytes;
    }
  }
}

/** The screen always shows the last 25 rows of everything written, laid out at width 80. */
module VgaTheorems {
  import opened VgaSpec

  type Text = seq<nat>

  // ----- the layout of a text

  /** The lines of a text: what stands between newlines. */
  function Lines(text: Text): (ls: seq<Text>)
    ensures ls != []
  {
    if text == [] then [[]]
    else if text[0] == NEWLINE then [[]] + Lines(text[1..])
    else
      var rest := Lines(text[1..]);
      [[text[0]] + rest[0]] + rest[1..]
  }

  /** A line in rows of 80, the last possibly shorter; an empty line is one empty row. */
  function Wrap(line: Text): (rows: seq<Text>)
    ensures rows != []
  {
    if |line| <= WIDTH then [line] else [line[..WIDTH]] + Wrap(line[WIDTH..])
  }

  function WrapAll(lines: seq<Text>): seq<Text> {
    if lines == [] then [] else WrapAll(lines[..|lines| - 1]) + Wrap(lines[|lines| - 1])
  }

  function Layout(text: Text): seq<Text> {
    WrapAll(Lines(text))
  }

  // ----- which bytes are written

  /** Printable ASCII and newlines are shown as they are, every other byte as 0xfe. */
  function Replaced(b: nat): nat {
    if b == 10 || (32 <= b && b <= 126) then b else 254
  }

  /** A string is written byte for byte, with everything but printable ASCII and newlines replaced by 0xfe. */
  lemma {:induction false} UnprintablesAreReplaced(bytes: Text)
    ensures |PrintableAll(bytes)| == |bytes|
    ensures forall i :: 0 <= i < |bytes| ==>
              PrintableAll(bytes)[i] == Replaced(bytes[i])
  {
    if bytes != [] {
      var last := |bytes| - 1;
      var front := PrintableAll(bytes[..last]);
      UnprintablesAreReplaced(bytes[..last]);
      assert PrintableAll(bytes) == front + [Printable(bytes[last])];
      forall i | 0 <= i < |bytes| ensures PrintableAll(bytes)[i] == Replaced(bytes[i]) {
        if i < last { assert bytes[..last][i] == bytes[i]; }
      }
    }
  }

  // ----- the layout loses nothing

  /** The lines, put together again with newlines between them. */
  function JoinLines(lines: seq<Text>): Text {
    if lines == [] then []
    else if |lines| == 1 then lines[0]
    else lines[0] + [NEWLINE] + JoinLines(lines[1..])
  }

  function JoinRows(rows: seq<Text>): Text {
    if rows == [] then [] else rows[0] + JoinRows(rows[1..])
  }

  /** Splitting at newlines is undone by joining, and no line holds a newline. */
  lemma {:induction false} LinesRejoin(text: Text)
    ensures JoinLines(Lines(text)) == text
    ensures forall i :: 0 <= i < |Lines(text)| ==> 10 !in Lines(text)[i]
  {
    if text != [] {
      LinesRejoin(text[1..]);
      var rest := Lines(text[1..]);
      if text[0] == NEWLINE {
        assert ([[]] + rest)[1..] == rest;
        assert Lines(text) == [[]] + rest;
      } else {
        var ls := [[text[0]] + rest[0]] + rest[1..];
        assert Lines(text) == ls && ls[1..] == rest[1..];
        assert forall i :: 0 < i < |ls| ==> ls[i] == rest[i];
      }
      assert text == [text[0]] + text[1..];
    }
  }

  /** Wrapping is undone by joining; every row but the last of a line has exactly 80 characters, the last at
      most 80, and none is empty unless the line is. */
  lemma {:induction false} WrapRejoins(line: Text)
    ensures var rows := Wrap(line);
            && JoinRows(rows) == line
            && (forall i :: 0 <= i < |rows| - 1 ==> |rows[i]| == 80)
            && |rows[|rows| - 1]| <= 80 && (line != [] ==> rows[|rows| - 1] != [])
  {
    if |line| > WIDTH {
      WrapRejoins(line[WIDTH..]);
      var rest := Wrap(line[WIDTH..]);
      assert ([line[..WIDTH]] + rest)[1..] == rest;
    } else {
      assert [line][1..] == [];
    }
  }

  // ----- how one more byte changes the layout

  function WithLast(rows: seq<Text>, last: Text): seq<Text>
    requires rows != []
  {
    rows[..|rows| - 1] + [last]
  }

  function Last(rows: seq<Text>): Text
    requires rows != []
  {
    rows[|rows| - 1]
  }

  /** A newline starts a row, a character extends the last row or, when that is full, starts one. */
  function Extend(rows: seq<Text>, b: nat): seq<Text>
    requires rows != []
  {
    if b == NEWLINE then rows + [[]]
    else if |Last(rows)| >= WIDTH then rows + [[b]]
    else WithLast(rows, Last(rows) + [b])
  }

  function ExtendLines(lines: seq<Text>, b: nat): seq<Text>
    requires lines != []
  {
    if b == NEWLINE then lines + [[]] else WithLast(lines, Last(lines) + [b])
  }

  lemma PrependExtends(lines: seq<Text>, first: Text, b: nat)
    requires lines != []
    ensures ExtendLines([first] + lines, b) == [first] + ExtendLines(lines, b)
    ensures ExtendLines([first + lines[0]] + lines[1..], b) ==
            [first + ExtendLines(lines, b)[0]] + ExtendLines(lines, b)[1..]
  {
    var head, rest, grown := lines[0], lines[1..], ExtendLines(lines, b);
    assert lines == [head] + rest;
    assert ExtendLines([first] + lines, b) == [first] + grown;
    if b == NEWLINE {
      assert grown == [head] + (rest + [[]]);
    } else if rest == [] {
      assert grown == [head + [b]];
      assert first + head + [b] == first + (head + [b]);
    } else {
      assert grown == [head] + WithLast(rest, Last(rest) + [b]);
      assert ExtendLines([first + head] + rest, b) == [first + head] + WithLast(rest, Last(rest) + [b]);
    }
  }

  lemma LinesOfOne(b: nat)
    ensures Lines([b]) == ExtendLines(Lines([]), b)
  {
    var rest := Lines([]);
    assert rest == [[]] && [b][1..] == [];
    if b == NEWLINE {
      assert Lines([b]) == [[]] + rest;
    } else {
      assert Lines([b]) == [[b] + rest[0]] + rest[1..];
      assert [b] + rest[0] == [b] && rest[0] + [b] == [b];
      assert Lines([b]) == [[b]] && WithLast(rest, [b]) == [[b]];
    }
  }

  lemma {:induction false} LinesStep(text: Text, b: nat)
    ensures Lines(text + [b]) == ExtendLines(Lines(text), b)
  {
    if text == [] {
      assert text + [b] == [b];
      LinesOfOne(b);
    } else {
      LinesStep(text[1..], b);
      assert (text + [b])[1..] == text[1..] + [b];
      PrependExtends(Lines(text[1..]), if text[0] == NEWLINE then [] else [text[0]], b);
    }
  }

  lemma {:induction false} WrapStep(line: Text, b: nat)
    requires b != NEWLINE
    ensures Wrap(line + [b]) == Extend(Wrap(line), b)
  {
    if |line| < WIDTH {
    } else if |line| == WIDTH {
      assert (line + [b])[..WIDTH] == line && (line + [b])[WIDTH..] == [b];
    } else {
      WrapStep(line[WIDTH..], b);
      assert (line + [b])[..WIDTH] == line[..WIDTH];
      assert (line + [b])[WIDTH..] == line[WIDTH..] + [b];
    }
  }

  lemma WrapAllNonempty(lines: seq<Text>)
    requires lines != []
    ensures WrapAll(lines) != [] && Last(WrapAll(lines)) == Last(Wrap(Last(lines)))
  {
  }

  lemma WrapAllSnoc(lines: seq<Text>, line: Text)
    ensures WrapAll(lines + [line]) == WrapAll(lines) + Wrap(line)
  {
    assert (lines + [line])[..|lines|] == lines;
  }

  lemma ExtendBelow(above: seq<Text>, rows: seq<Text>, b: nat)
    requires rows != []
    ensures Extend(above + rows, b) == above + Extend(rows, b)
  {
  }

  /** Laying out one more byte is extending the layout by it. */
  lemma LayoutStep(text: Text, b: nat)
    ensures Layout(text) != [] && Layout(text + [b]) == Extend(Layout(text), b)
  {
    hide Lines, Wrap, WrapAll;
    var lines := Lines(text);
    LinesStep(text, b);
    WrapAllNonempty(lines);
    var front, line := lines[..|lines| - 1], Last(lines);
    assert lines == front + [line];
    WrapAllSnoc(front, line);
    if b == NEWLINE {
      WrapAllSnoc(lines, []);
      EmptyRow();
    } else {
      WrapStep(line, b);
      WrapAllSnoc(front, line + [b]);
      ExtendBelow(WrapAll(front), Wrap(line), b);
    }
  }

  lemma EmptyRow()
    ensures Wrap([]) == [[]]
  {
  }

  // ----- rows on the screen

  /** A row of text written over `base`. */
  function Over(text: Text, base: Row, color: nat): (r: Row)
    requires |text| <= WIDTH
  {
    if text == [] then base
    else Over(text[..|text| - 1], base, color)[|text| - 1 := ScreenChar(text[|text| - 1], color)]
  }

  ghost predicate Fits(rows: seq<Text>) {
    rows != [] && forall i :: 0 <= i < |rows| ==> |rows[i]| <= WIDTH
  }

  /** All rows ever shown: the initial rows, the first row over the initial bottom row, the rest over blanks. */
  function AllRows(initial: Rows, rows: seq<Text>, color: nat): (all: seq<Row>)
    requires Fits(rows)
    ensures |all| == HEIGHT - 1 + |rows|
    decreases |rows|
  {
    if |rows| == 1 then initial[..HEIGHT - 1] + [Over(rows[0], initial[HEIGHT - 1], color)]
    else AllRows(initial, rows[..|rows| - 1], color) + [Over(Last(rows), Blank(color), color)]
  }

  /** The last 25 of them. */
  function Shown(initial: Rows, rows: seq<Text>, color: nat): Screen
    requires Fits(rows)
  {
    Screen(AllRows(initial, rows, color)[|rows| - 1..], |Last(rows)|, color)
  }

  lemma NewRowScrolls(initial: Rows, rows: seq<Text>, color: nat, row: Text)
    requires Fits(rows) && |row| <= WIDTH
    ensures Fits(rows + [row])
    ensures Shown(initial, rows + [row], color).rows ==
            Shown(initial, rows, color).rows[1..] + [Over(row, Blank(color), color)]
  {
  }

  lemma LongerRowStays(initial: Rows, rows: seq<Text>, color: nat, b: nat)
    requires Fits(rows) && |Last(rows)| < WIDTH
    ensures Fits(WithLast(rows, Last(rows) + [b]))
    ensures var shown := Shown(initial, rows, color).rows;
            Shown(initial, WithLast(rows, Last(rows) + [b]), color).rows ==
            shown[HEIGHT - 1 := shown[HEIGHT - 1][|Last(rows)| := ScreenChar(b, color)]]
  {
  }

  /** Writing a byte to a screen that shows a layout gives the screen that shows the extended layout. */
  lemma ByteFollowsLayout(initial: Rows, rows: seq<Text>, color: nat, b: nat)
    requires Fits(rows)
    ensures Fits(Extend(rows, b))
    ensures WriteByte(Shown(initial, rows, color), b) == Shown(initial, Extend(rows, b), color)
  {
    if b == NEWLINE {
      NewRowScrolls(initial, rows, color, []);
    } else if |Last(rows)| >= WIDTH {
      NewRowScrolls(initial, rows, color, [b]);
      assert [b][..0] == [];
      assert Over([b], Blank(color), color) == Blank(color)[0 := ScreenChar(b, color)];
    } else {
      LongerRowStays(initial, rows, color, b);
    }
  }

  /** From a fresh writer on any screen, after any text, the buffer holds the last 25 rows of the text
      laid out at width 80 below what was there before. */
  lemma {:induction false} ScreenShowsLastRows(initial: Rows, color: nat, text: Text)
    ensures Fits(Layout(text))
    ensures WriteBytes(Screen(initial, 0, color), text) == Shown(initial, Layout(text), color)
  {
    if text == [] {
      assert Layout(text) == [[]];
      assert initial[..HEIGHT - 1] + [initial[HEIGHT - 1]] == initial;
    } else {
      var front, b := text[..|text| - 1], text[|text| - 1];
      ScreenShowsLastRows(initial, color, front);
      ByteFollowsLayout(initial, Layout(front), color, b);
      LayoutStep(front, b);
      assert text == front + [b];
    }
  }

  lemma {:induction false} OverAt(text: Text, base: Row, color: nat, c: nat)
    requires |text| <= WIDTH && c < WIDTH
    ensures Over(text, base, color)[c] == if c < |text| then ScreenChar(text[c], color) else base[c]
  {
    if text != [] { OverAt(text[..|text| - 1], base, color, c); }
  }

  lemma {:induction false} AllRowsAt(initial: Rows, rows: seq<Text>, color: nat, k: nat)
    requires Fits(rows) && k < HEIGHT - 1 + |rows|
    ensures AllRows(initial, rows, color)[k] ==
            if k < HEIGHT - 1 then initial[k]
            else Over(rows[k + 1 - HEIGHT], if k == HEIGHT - 1 then initial[HEIGHT - 1] else Blank(color), color)
    decreases |rows|
  {
    if |rows| > 1 && k < HEIGHT - 2 + |rows| {
      AllRowsAt(initial, rows[..|rows| - 1], color, k);
    }
  }

  /** The screen, cell by cell: 25 rows of 80. With the rows of the text numbered from 0 below the 24 rows that were
      above it, screen row r shows number r + (rows of the text) - 1 of all; a cell shows its character in the current
      colour or, behind the end of the row, a space, except that on the row the text began on the old cell stays. */
  lemma ScreenCells(initial: Rows, color: nat, text: Text, r: nat, c: nat)
    requires r < 25 && c < 80
    ensures var s, rows := WriteBytes(Screen(initial, 0, color), text), Layout(text);
            var k := r + |rows| - 1;
            && |s.rows| == 25 && |s.rows[r]| == 80 && rows != [] && s.col == |rows[|rows| - 1]|
            && s.rows[r][c] ==
               if k < 24 then initial[k][c]
               else if c < |rows[k - 24]| then ScreenChar(rows[k - 24][c], color)
               else if k == 24 then initial[24][c]
               else ScreenChar(32, color)
  {
    ScreenShowsLastRows(initial, color, text);
    var rows := Layout(text);
    var k := r + |rows| - 1;
    hide Layout, WriteBytes, AllRows, Over;
    AllRowsAt(initial, rows, color, k);
    if k >= HEIGHT - 1 {
      OverAt(rows[k + 1 - HEIGHT], if k == HEIGHT - 1 then initial[HEIGHT - 1] else Blank(color), color, c);
    }
  }

  /** Several writes show what one write of the concatenated text shows. */
  lemma {:induction false} WritesConcatenate(s: Screen, a: Text, b: Text)
    ensures WriteBytes(WriteBytes(s, a), b) == WriteBytes(s, a + b)
  {
    if b == [] {
      assert a + b == a;
    } else {
      WritesConcatenate(s, a, b[..|b| - 1]);
      assert (a + b)[..|a + b| - 1] == a + b[..|b| - 1];
    }
  }
}

/** The bounded buffer that collects the text for the serial port. */
module SerialBuffer {

  /** The first `capacity` bytes. */
  function Cap(bytes: seq<nat>, capacity: nat): seq<nat> {
    if |bytes| <= capacity then bytes else bytes[..capacity]
  }

  /** Capping as one goes is capping at the end: a write after an overflow adds nothing. */
  lemma CapAppend(a: seq<nat>, b: seq<nat>, capacity: nat)
    ensures Cap(Cap(a, capacity) + b, capacity) == Cap(a + b, capacity)
  {
  }

  class BufferWriter {
    const buffer: array<nat>
    var pos: nat
    ghost var written: seq<nat>

    /** The buffer holds the first bytes of everything written. */
    ghost predicate Valid()
      reads this, buffer
    {
      pos <= buffer.Length && buffer[..pos] == Cap(written, buffer.Length)
    }

    constructor (buffer: array<nat>)
      ensures Valid() && this.buffer == buffer && written == []
    {
      this.buffer, pos, written := buffer, 0, [];
    }

    method WriteStr(bytes: seq<nat>)
      requires Valid()
      modifies this, buffer
      ensures Valid() && written == old(written) + bytes
      ensures pos == if |written| < buffer.Length then |written| else buffer.Length
      ensures forall i :: 0 <= i < pos ==> buffer[i] == written[i]
    {
      CapAppend(written, bytes, buffer.Length);
      ghost var before := buffer[..pos];
      var end := if pos + |bytes| < buffer.Length then pos + |bytes| else buffer.Length;
      var i := 0;
      while i < end - pos
        modifies buffer
        invariant 0 <= i <= end - pos
        invariant buffer[..pos + i] == before + bytes[..i]
      {
        buffer[pos + i] := bytes[i];
        i := i + 1;
      }
      pos := end;
      written := written + bytes;
    }
  }
}
