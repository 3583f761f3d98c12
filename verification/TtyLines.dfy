/**
 The canonical line discipline of a terminal (fs/tty.c): characters are edited in a buffer of 4096 cells, a
 cell that ends a line carries a flag, and a read returns bytes of the first line only.

 What a user sees is a queue of finished lines and one line being edited.  The class at the end works on the
 buffer, cell by cell, and is proved against operations on lines; `NothingIsLost` then says what any run of
 typing and reading delivers.
 */
module TtyLines {
  import opened Common

  const BUF_SIZE: nat := 4096
  const NUL: byte := 0
  const NEWLINE: byte := 10
  const RETURN: byte := 13

  datatype Cell = Cell(ch: byte, flag: bool)

  /** A finished line; the end is NUL if end-of-file was typed. */
  datatype Line = Line(body: seq<byte>, end: byte)

  datatype Lines = Lines(finished: seq<Line>, editing: seq<byte>)

  // ---------------------------------------------------------------- lines and cells

  function Raw(s: seq<byte>): (r: seq<Cell>)
    ensures |r| == |s| && forall i :: 0 <= i < |s| ==> r[i] == Cell(s[i], false)
  {
    seq(|s|, i requires 0 <= i < |s| => Cell(s[i], false))
  }

  function LineCells(line: Line): seq<Cell> {
    Raw(line.body) + [Cell(line.end, true)]
  }

  function Flat(lines: seq<Line>): seq<Cell> {
    if lines == [] then [] else LineCells(lines[0]) + Flat(lines[1..])
  }

  /** The buffer that holds these lines. */
  function CellsOf(l: Lines): seq<Cell> {
    Flat(l.finished) + Raw(l.editing)
  }

  function Append(l: Lines, c: Cell): Lines {
    if c.flag then Lines(l.finished + [Line(l.editing, c.ch)], []) else l.(editing := l.editing + [c.ch])
  }

  /** The lines a buffer holds. */
  function LinesOf(cells: seq<Cell>): Lines {
    if cells == [] then Lines([], []) else Append(LinesOf(cells[..|cells| - 1]), cells[|cells| - 1])
  }

  lemma {:induction false} FlatSnoc(lines: seq<Line>, line: Line)
    ensures Flat(lines + [line]) == Flat(lines) + LineCells(line)
  {
    if lines == [] {
      assert [] + [line] == [line];
      assert Flat([line]) == LineCells(line) + Flat([]);
    } else {
      FlatSnoc(lines[1..], line);
      assert (lines + [line])[1..] == lines[1..] + [line];
    }
  }

  lemma AppendCells(l: Lines, c: Cell)
    ensures CellsOf(Append(l, c)) == CellsOf(l) + [c]
  {
    if c.flag {
      FlatSnoc(l.finished, Line(l.editing, c.ch));
      assert Raw([]) == [];
    } else {
      assert Raw(l.editing + [c.ch]) == Raw(l.editing) + [c];
    }
  }

  lemma LinesOfSnoc(cells: seq<Cell>, c: Cell)
    ensures LinesOf(cells + [c]) == Append(LinesOf(cells), c)
  {
    assert (cells + [c])[..|cells|] == cells;
  }

  lemma SnocKeepsCells(cells: seq<Cell>, c: Cell)
    requires CellsOf(LinesOf(cells)) == cells
    ensures CellsOf(LinesOf(cells + [c])) == cells + [c]
  {
    LinesOfSnoc(cells, c);
    AppendCells(LinesOf(cells), c);
  }

  /** Reading lines off a buffer loses nothing of it. */
  lemma {:induction false} CellsOfLinesOf(cells: seq<Cell>)
    ensures CellsOf(LinesOf(cells)) == cells
    decreases |cells|
  {
    if cells == [] {
      assert CellsOf(Lines([], [])) == [];
    } else {
      var n := |cells| - 1;
      assert cells == cells[..n] + [cells[n]];
      CellsOfLinesOf(cells[..n]);
      SnocKeepsCells(cells[..n], cells[n]);
    }
  }

  lemma {:induction false} LinesOfRaw(cells: seq<Cell>, s: seq<byte>)
    ensures LinesOf(cells + Raw(s)) == LinesOf(cells).(editing := LinesOf(cells).editing + s)
    decreases |s|
  {
    if s == [] {
      assert cells + Raw(s) == cells && LinesOf(cells).editing + s == LinesOf(cells).editing;
    } else {
      var init, last := s[..|s| - 1], s[|s| - 1];
      LinesOfRaw(cells, init);
      assert cells + Raw(s) == (cells + Raw(init)) + [Cell(last, false)];
      LinesOfSnoc(cells + Raw(init), Cell(last, false));
      assert (LinesOf(cells).editing + init) + [last] == LinesOf(cells).editing + s;
    }
  }

  lemma CellsAssoc(a: seq<Cell>, b: seq<Cell>, c: seq<Cell>)
    ensures a + (b + c) == (a + b) + c
  {
  }

  lemma LinesOfLine(before: seq<Cell>, line: Line)
    requires LinesOf(before).editing == []
    ensures LinesOf(before + LineCells(line)) == Lines(LinesOf(before).finished + [line], [])
  {
    CellsAssoc(before, Raw(line.body), [Cell(line.end, true)]);
    LinesOfSnoc(before + Raw(line.body), Cell(line.end, true));
    BodyOfLine(before, line.body);
  }

  lemma BodyOfLine(before: seq<Cell>, body: seq<byte>)
    requires LinesOf(before).editing == []
    ensures LinesOf(before + Raw(body)) == Lines(LinesOf(before).finished, body)
  {
    LinesOfRaw(before, body);
    assert [] + body == body;
  }

  lemma {:induction false} LinesOfFlat(lines: seq<Line>)
    ensures LinesOf(Flat(lines)) == Lines(lines, [])
    decreases |lines|
  {
    if lines != [] {
      var n := |lines| - 1;
      assert lines == lines[..n] + [lines[n]];
      FlatSnoc(lines[..n], lines[n]);
      LinesOfFlat(lines[..n]);
      LinesOfLine(Flat(lines[..n]), lines[n]);
    }
  }

  /** A buffer is determined by its lines, and lines by their buffer. */
  lemma LinesOfCellsOf(l: Lines)
    ensures LinesOf(CellsOf(l)) == l
  {
    LinesOfFlat(l.finished);
    LinesOfRaw(Flat(l.finished), l.editing);
    assert [] + l.editing == l.editing;
  }

  // ---------------------------------------------------------------- typing

  /** The settings of the terminal that canonical input looks at. */
  datatype Termios = Termios(inlcr: bool, icrnl: bool, igncr: bool, isig: bool, noflsh: bool, foreground: bool,
                             erase: byte, kill: byte, eof: byte, eol: byte, intr: byte, quit: byte, susp: byte)

  datatype Key = Ignored | Plain(ch: byte) | Erase | Kill | EndOfFile | EndOfLine(ch: byte) | Signal(flush: bool)

  function Translated(tm: Termios, ch: byte): byte {
    if tm.inlcr && ch == NEWLINE then RETURN else if tm.icrnl && ch == RETURN then NEWLINE else ch
  }

  /** What a character means; NUL means nothing, because a setting of NUL disables that setting. */
  function KeyOf(tm: Termios, ch: byte): Key {
    if ch == NUL then Plain(ch)
    else if ch == tm.erase then Erase
    else if ch == tm.kill then Kill
    else if ch == tm.eof then EndOfFile
    else if ch == NEWLINE || ch == tm.eol then EndOfLine(ch)
    else if tm.isig && (ch == tm.intr || ch == tm.quit || ch == tm.susp) then Signal(tm.foreground && !tm.noflsh)
    else Plain(ch)
  }

  function Meaning(tm: Termios, typed: byte): Key {
    var ch := Translated(tm, typed);
    if tm.igncr && ch == RETURN then Ignored else KeyOf(tm, ch)
  }

  /** The rules of section 11.2.2 of POSIX.1-2017: a carriage return that is to be ignored is not translated first. */
  function StandardMeaning(tm: Termios, typed: byte): Key {
    if typed == RETURN then
      if tm.igncr then Ignored else KeyOf(tm, if tm.icrnl then NEWLINE else RETURN)
    else KeyOf(tm, if typed == NEWLINE && tm.inlcr then RETURN else typed)
  }

  /** The code translates first and then ignores: right exactly unless that makes a difference. */
  lemma MeaningIsStandardIff(tm: Termios, typed: byte)
    ensures Meaning(tm, typed) == StandardMeaning(tm, typed)
       <==> !(tm.igncr && ((typed == NEWLINE && tm.inlcr) || (typed == RETURN && tm.icrnl)))
  {
  }

  /** No special character is set to this one. */
  predicate Unclaimed(tm: Termios, ch: byte) {
    ch != tm.erase && ch != tm.kill && ch != tm.eof
  }

  /** When a typed newline, and when a typed carriage return, finishes the line that is edited. */
  lemma FinishesLineIff(tm: Termios)
    ensures Meaning(tm, NEWLINE).EndOfLine?
       <==> if tm.inlcr then !tm.igncr && tm.eol == RETURN && Unclaimed(tm, RETURN) else Unclaimed(tm, NEWLINE)
    ensures Meaning(tm, RETURN).EndOfLine?
       <==> if tm.icrnl then Unclaimed(tm, NEWLINE) else !tm.igncr && tm.eol == RETURN && Unclaimed(tm, RETURN)
  {
  }

  /**
   What each special character does to the lines: erase takes one byte off the line being edited, kill the whole line,
   end-of-file and end-of-line finish it, and a signal character changes nothing or flushes everything.  Any other
   character is added.  A setting of 0 is no character, and the first setting that fits decides.
   */
  lemma KeysMean(tm: Termios, l: Lines, typed: byte)
    requires typed != 10 && typed != 13
    ensures var now := Edited(l, Meaning(tm, typed));
            if typed == 0 then now == Lines(l.finished, l.editing + [0])
            else if typed == tm.erase then
              now == Lines(l.finished, if |l.editing| == 0 then [] else l.editing[..|l.editing| - 1])
            else if typed == tm.kill then now == Lines(l.finished, [])
            else if typed == tm.eof then now == Lines(l.finished + [Line(l.editing, 0)], [])
            else if typed == tm.eol then now == Lines(l.finished + [Line(l.editing, typed)], [])
            else if tm.isig && typed in {tm.intr, tm.quit, tm.susp} then
              now == if tm.foreground && !tm.noflsh then Lines([], []) else l
            else now == Lines(l.finished, l.editing + [typed])
  {
  }

  /** A newline that is not translated and has no other meaning finishes the line. */
  lemma NewlineMeans(tm: Termios, l: Lines)
    requires !tm.inlcr && tm.erase != 10 && tm.kill != 10 && tm.eof != 10
    ensures Edited(l, Meaning(tm, 10)) == Lines(l.finished + [Line(l.editing, 10)], [])
  {
  }

  function Size(l: Lines): nat {
    |CellsOf(l)|
  }

  predicate Pushes(key: Key) {
    key.Plain? || key.EndOfFile? || key.EndOfLine?
  }

  /** The line discipline with room to spare. */
  function Edited(l: Lines, key: Key): Lines {
    match key
    case Ignored => l
    case Plain(ch) => l.(editing := l.editing + [ch])
    case Erase => l.(editing := if l.editing == [] then [] else l.editing[..|l.editing| - 1])
    case Kill => l.(editing := [])
    case EndOfFile => Lines(l.finished + [Line(l.editing, NUL)], [])
    case EndOfLine(ch) => Lines(l.finished + [Line(l.editing, ch)], [])
    case Signal(flush) => if flush then Lines([], []) else l
  }

  /** The line discipline: a character that needs a cell is refused when there is none. */
  function Typed(l: Lines, key: Key): Option<Lines> {
    if Pushes(key) && Size(l) >= BUF_SIZE then None else Some(Edited(l, key))
  }

  /** Several characters; stops at the first refused one and says how many were taken. */
  function TypedAll(l: Lines, tm: Termios, input: seq<byte>): (Lines, nat)
    decreases |input|
  {
    if input == [] then (l, 0)
    else match Typed(l, Meaning(tm, input[0]))
      case None => (l, 0)
      case Some(l1) => (var (l2, n) := TypedAll(l1, tm, input[1..]); (l2, n + 1))
  }

  /** The characters one after the other, with room for all of them. */
  function EditedBy(l: Lines, tm: Termios, input: seq<byte>): Lines
    decreases |input|
  {
    if input == [] then l else EditedBy(Edited(l, Meaning(tm, input[0])), tm, input[1..])
  }

  /** What is taken of the input is a first part of it, as long as it can be: all, or up to a character without room. */
  lemma {:induction false} TypedAllTakes(l: Lines, tm: Termios, input: seq<byte>)
    ensures var r := TypedAll(l, tm, input);
            && r.1 <= |input| && r.0 == EditedBy(l, tm, input[..r.1])
            && (r.1 < |input| ==> Pushes(Meaning(tm, input[r.1])) && |CellsOf(r.0)| >= 4096)
    decreases |input|
  {
    if input != [] && Typed(l, Meaning(tm, input[0])).Some? {
      var l1 := Edited(l, Meaning(tm, input[0]));
      TypedAllTakes(l1, tm, input[1..]);
      var n := TypedAll(l1, tm, input[1..]).1;
      assert input[..n + 1][1..] == input[1..][..n] && input[..n + 1][0] == input[0];
    } else {
      assert input[..0] == [];
    }
  }

  // ---------------------------------------------------------------- reading

  function Bytes(line: Line): seq<byte> {
    if line.end == NUL then line.body else line.body + [line.end]
  }

  function Min(a: nat, b: nat): nat {
    if a < b then a else b
  }

  /** A read as the standard has it: up to n bytes of the first line, which goes once all its bytes are out. */
  function Popped(l: Lines, n: nat): (seq<byte>, Lines)
    requires l.finished != []
  {
    var first, rest := l.finished[0], l.finished[1..];
    var m := Min(n, |Bytes(first)|);
    (Bytes(first)[..m],
     l.(finished := if m == |Bytes(first)| then rest else [Line(first.body[m..], first.end)] + rest))
  }

  const BARE_EOF: Line := Line([], NUL)

  /** Whether a read of n bytes takes more than it should. */
  predicate Swallows(l: Lines, n: nat) {
    && |l.finished| > 1
    && l.finished[0].end != NUL && n >= |Bytes(l.finished[0])|
    && l.finished[1] == BARE_EOF
  }

  /** Where the first line ends in the buffer, or its length if no line is finished. */
  function FirstFlagged(cells: seq<Cell>): (i: nat)
    ensures i <= |cells| && (forall k :: 0 <= k < i ==> !cells[k].flag) && (i < |cells| ==> cells[i].flag)
  {
    if cells == [] || cells[0].flag then 0 else 1 + FirstFlagged(cells[1..])
  }

  function Chars(cells: seq<Cell>): (r: seq<byte>)
    ensures |r| == |cells| && forall i :: 0 <= i < |r| ==> r[i] == cells[i].ch
  {
    if cells == [] then [] else [cells[0].ch] + Chars(cells[1..])
  }

  predicate MarkInFront(cells: seq<Cell>) {
    cells != [] && cells[0] == Cell(NUL, true)
  }

  function Cut(cells: seq<Cell>): seq<Cell> {
    if MarkInFront(cells) then cells[1..] else cells
  }

  /** How many characters a read may return: up to the first flag, and that cell too unless it is an end-of-file. */
  function CanonLength(cells: seq<Cell>): (r: nat)
    requires FirstFlagged(cells) < |cells|
    ensures r <= |cells|
  {
    if cells[FirstFlagged(cells)].ch == NUL then FirstFlagged(cells) else FirstFlagged(cells) + 1
  }

  /** A read as the code has it, on the buffer: the characters in front go out, then a mark that is in front goes. */
  function ReadCells(cells: seq<Cell>, n: nat): (seq<byte>, seq<Cell>)
    requires FirstFlagged(cells) < |cells|
  {
    var m := Min(n, CanonLength(cells));
    (Chars(cells[..m]), Cut(cells[m..]))
  }

  /** The same seen as lines. */
  function Fetched(l: Lines, n: nat): (seq<byte>, Lines)
    requires l.finished != []
  {
    FlagOf(l);
    (ReadCells(CellsOf(l), n).0, LinesOf(ReadCells(CellsOf(l), n).1))
  }

  // ---------------------------------------------------------------- the front of the buffer

  lemma FirstFlag(l: Lines, i: nat)
    requires l.finished != [] && i <= |l.finished[0].body|
    ensures i < Size(l)
    ensures CellsOf(l)[i] == if i < |l.finished[0].body| then Cell(l.finished[0].body[i], false) else Cell(l.finished[0].end, true)
  {
    assert CellsOf(l) == LineCells(l.finished[0]) + (Flat(l.finished[1..]) + Raw(l.editing));
  }

  lemma DropWithin(l: Lines, m: nat)
    requires l.finished != [] && m <= |l.finished[0].body|
    ensures m <= Size(l)
    ensures CellsOf(l)[m..] == CellsOf(l.(finished := [Line(l.finished[0].body[m..], l.finished[0].end)] + l.finished[1..]))
  {
    var first, rest := l.finished[0], l.finished[1..];
    var cut := Line(first.body[m..], first.end);
    assert ([cut] + rest)[1..] == rest;
    assert LineCells(first)[m..] == LineCells(cut);
    assert CellsOf(l) == LineCells(first) + (Flat(rest) + Raw(l.editing));
    assert Flat([cut] + rest) == LineCells(cut) + Flat(rest);
  }

  lemma DropLine(l: Lines)
    requires l.finished != []
    ensures |l.finished[0].body| + 1 <= Size(l)
    ensures CellsOf(l)[|l.finished[0].body| + 1..] == CellsOf(l.(finished := l.finished[1..]))
  {
    assert CellsOf(l) == LineCells(l.finished[0]) + (Flat(l.finished[1..]) + Raw(l.editing));
  }

  lemma MarkIsBareEof(l: Lines)
    ensures MarkInFront(CellsOf(l)) <==> l.finished != [] && l.finished[0] == BARE_EOF
  {
    if l.finished != [] {
      FirstFlag(l, 0);
    }
  }

  lemma FlagOf(l: Lines)
    ensures l.finished == [] ==> FirstFlagged(CellsOf(l)) == Size(l)
    ensures l.finished != [] ==> FirstFlagged(CellsOf(l)) == |l.finished[0].body| < Size(l)
    ensures l.finished != [] ==> CanonLength(CellsOf(l)) == |Bytes(l.finished[0])|
  {
    if l.finished != [] {
      var n := |l.finished[0].body|;
      FirstFlag(l, n);
      forall i | 0 <= i < n ensures !CellsOf(l)[i].flag {
        FirstFlag(l, i);
      }
    }
  }

  /** What a read takes off the buffer, in terms of lines: what it should, and an end-of-file if one follows. */
  lemma {:induction false} FetchedSplits(l: Lines, n: nat)
    requires l.finished != []
    ensures Fetched(l, n).0 == Popped(l, n).0
    ensures var l1 := Popped(l, n).1;
            Fetched(l, n).1 == if Swallows(l, n) then l1.(finished := l1.finished[1..]) else l1
  {
    var l1 := Popped(l, n).1;
    var m := Min(n, |Bytes(l.finished[0])|);
    FlagOf(l);
    FetchedData(l, m, Chars(CellsOf(l)[..m]));
    CutIsPopped(l, n);
    LinesOfCellsOf(if Swallows(l, n) then l1.(finished := l1.finished[1..]) else l1);
  }

  lemma CutIsPopped(l: Lines, n: nat)
    requires l.finished != []
    ensures var m := Min(n, |Bytes(l.finished[0])|); var l1 := Popped(l, n).1;
            && m <= Size(l)
            && Cut(CellsOf(l)[m..]) == CellsOf(if Swallows(l, n) then l1.(finished := l1.finished[1..]) else l1)
  {
    var first := l.finished[0];
    var m := Min(n, |Bytes(first)|);
    if first.end != NUL && m == |Bytes(first)| {
      DropLine(l);
      var l1 := l.(finished := l.finished[1..]);
      MarkIsBareEof(l1);
      if l1.finished != [] && l1.finished[0] == BARE_EOF {
        DropLine(l1);
      }
    } else {
      DropWithin(l, m);
      var l1 := l.(finished := [Line(first.body[m..], first.end)] + l.finished[1..]);
      MarkIsBareEof(l1);
      if first.end == NUL && m == |first.body| {
        DropLine(l1);
        assert l1.finished[1..] == l.finished[1..];
      }
    }
  }

  // ---------------------------------------------------------------- the terminal

  function Zip(chars: seq<byte>, flags: seq<bool>): (r: seq<Cell>)
    requires |chars| == |flags|
    ensures |r| == |chars| && forall i :: 0 <= i < |r| ==> r[i] == Cell(chars[i], flags[i])
  {
    seq(|chars|, i requires 0 <= i < |chars| => Cell(chars[i], flags[i]))
  }

  class Tty {
    const buf: array<byte>
    const flags: array<bool>
    var bufsize: nat

    ghost predicate Valid()
      reads this
    {
      buf.Length == BUF_SIZE && flags.Length == BUF_SIZE && bufsize <= BUF_SIZE
    }

    ghost function Cells(): (r: seq<Cell>)
      requires Valid()
      reads this, buf, flags
      ensures |r| == bufsize
    {
      Zip(buf[..bufsize], flags[..bufsize])
    }

    ghost function View(): Lines
      requires Valid()
      reads this, buf, flags
    {
      LinesOf(Cells())
    }

    constructor ()
      ensures Valid() && View() == Lines([], [])
    {
      buf := new byte[BUF_SIZE](_ => 0);
      flags := new bool[BUF_SIZE](_ => false);
      bufsize := 0;
    }

    /** tty_push_char without blocking */
    method PushChar(ch: byte, flag: bool) returns (ok: bool)
      requires Valid()
      modifies this, buf, flags
      ensures Valid() && ok == (Size(old(View())) < BUF_SIZE)
      ensures View() == if ok then Append(old(View()), Cell(ch, flag)) else old(View())
    {
      CellsOfLinesOf(Cells());
      if bufsize >= BUF_SIZE {
        return false;
      }
      buf[bufsize] := ch;
      flags[bufsize] := flag;
      bufsize := bufsize + 1;
      assert Cells() == old(Cells()) + [Cell(ch, flag)];
      LinesOfSnoc(old(Cells()), Cell(ch, flag));
      return true;
    }

    /** One round of the erasing loop: the last cell goes unless it carries a flag. */
    method EraseOne() returns (stopped: bool)
      requires Valid() && bufsize > 0
      modifies this`bufsize
      ensures Valid() && stopped == (old(View()).editing == [])
      ensures stopped ==> bufsize == old(bufsize)
      ensures !stopped ==> bufsize == old(bufsize) - 1
      ensures View() == Edited(old(View()), Erase)
    {
      ghost var cells, n := Cells(), bufsize - 1;
      assert cells == cells[..n] + [cells[n]];
      LinesOfSnoc(cells[..n], cells[n]);
      if flags[bufsize - 1] {
        return true;
      }
      bufsize := bufsize - 1;
      assert Cells() == cells[..n];
      ghost var line := View().editing;
      assert (line + [cells[n].ch])[..|line|] == line;
      return false;
    }

    /** The erasing loop: back over `count` cells, but not past a flag. */
    method EraseBack(count: nat)
      requires Valid() && count <= bufsize
      modifies this`bufsize
      ensures Valid()
      ensures var l := old(View()); View() == l.(editing := l.editing[..|l.editing| - Min(count, |l.editing|)])
    {
      var i := 0;
      ghost var l, line := View(), View().editing;
      while i < count
        invariant 0 <= i <= count && Valid() && bufsize == old(bufsize) - i && i <= |line|
        invariant View() == l.(editing := line[..|line| - i])
      {
        var stopped := EraseOne();
        if stopped {
          break;
        }
        assert line[..|line| - i][..|line| - i - 1] == line[..|line| - (i + 1)];
        i := i + 1;
      }
    }

    /** One round of the canonical branch of tty_input; false if there is no room for the character. */
    method InputChar(tm: Termios, typed: byte) returns (ok: bool)
      requires Valid()
      modifies this, buf, flags
      ensures Valid() && ok == Typed(old(View()), Meaning(tm, typed)).Some?
      ensures View() == if ok then Typed(old(View()), Meaning(tm, typed)).value else old(View())
    {
      var ch := typed;
      if tm.inlcr && ch == NEWLINE {
        ch := RETURN;
      } else if tm.icrnl && ch == RETURN {
        ch := NEWLINE;
      }
      if tm.igncr && ch == RETURN {
        return true;
      }
      ok := InputTranslated(tm, ch);
    }

    method InputTranslated(tm: Termios, ch: byte) returns (ok: bool)
      requires Valid()
      modifies this, buf, flags
      ensures Valid() && ok == Typed(old(View()), KeyOf(tm, ch)).Some?
      ensures View() == if ok then Edited(old(View()), KeyOf(tm, ch)) else old(View())
    {
      if ch == NUL {
        ok := PushChar(ch, false);
      } else if ch == tm.erase || ch == tm.kill {
        EraseOrKill(ch == tm.erase);
        ok := true;
      } else if ch == tm.eof {
        ok := PushChar(NUL, true);
      } else if ch == NEWLINE || ch == tm.eol {
        ok := PushChar(ch, true);
      } else {
        var signalled := SendInputSignal(tm, ch);
        ok := true;
        if !signalled {
          ok := PushChar(ch, false);
        }
      }
    }

    method EraseOrKill(erase: bool)
      requires Valid()
      modifies this`bufsize
      ensures Valid() && View() == Edited(old(View()), if erase then Erase else Kill)
    {
      ghost var l := View();
      CellsOfLinesOf(Cells());
      EditingFits(l);
      var count := bufsize;
      if erase && bufsize > 0 {
        count := 1;
      }
      EraseBack(count);
      ErasedIs(l, erase, count);
    }

    method SendInputSignal(tm: Termios, ch: byte) returns (signalled: bool)
      requires Valid() && ch != NUL
      modifies this`bufsize
      ensures Valid() && signalled == (tm.isig && (ch == tm.intr || ch == tm.quit || ch == tm.susp))
      ensures View() == if signalled && tm.foreground && !tm.noflsh then Lines([], []) else old(View())
    {
      if !tm.isig {
        return false;
      }
      if ch == tm.intr || ch == tm.quit || ch == tm.susp {
        if tm.foreground {
          if !tm.noflsh {
            bufsize := 0;
          }
        }
        return true;
      }
      return false;
    }

    /** The canonical branch of tty_input without blocking. */
    method Input(tm: Termios, input: seq<byte>) returns (done: nat)
      requires Valid()
      modifies this, buf, flags
      ensures Valid() && View() == TypedAll(old(View()), tm, input).0 && done == TypedAll(old(View()), tm, input).1
    {
      done := 0;
      while done < |input|
        invariant Valid() && done <= |input|
        invariant TypedAll(View(), tm, input[done..]).0 == TypedAll(old(View()), tm, input).0
        invariant done + TypedAll(View(), tm, input[done..]).1 == TypedAll(old(View()), tm, input).1
      {
        assert input[done..][0] == input[done] && input[done..][1..] == input[done + 1..];
        var ok := InputChar(tm, input[done]);
        if !ok {
          return;
        }
        done := done + 1;
      }
    }

    /** The length of the first line with its end, if there is a finished one. */
    method CanonSize() returns (size: Option<nat>)
      requires Valid()
      ensures size.None? <==> View().finished == []
      ensures size.Some? ==> size.value == |View().finished[0].body| + 1
    {
      CellsOfLinesOf(Cells());
      ghost var l := View();
      if l.finished != [] {
        FirstFlag(l, |l.finished[0].body|);
      }
      var i := 0;
      while i < bufsize
        invariant 0 <= i <= bufsize
        invariant l.finished != [] ==> i <= |l.finished[0].body|
      {
        if l.finished != [] {
          FirstFlag(l, i);
        }
        assert Cells()[i].flag == flags[i];
        if flags[i] {
          return Some(i + 1);
        }
        i := i + 1;
      }
      return None;
    }

    /** tty_read_into_buf: the first n characters go out, the rest moves to the front. */
    method ReadIntoBuf(n: nat) returns (data: seq<byte>)
      requires Valid() && n <= bufsize
      modifies this, buf, flags
      ensures Valid() && Cells() == old(Cells())[n..]
      ensures |data| == n && forall i :: 0 <= i < n ==> data[i] == old(Cells())[i].ch
    {
      data := buf[..n];
      ghost var chars, marks := buf[..], flags[..];
      bufsize := bufsize - n;
      MoveUp(n, bufsize);
      assert buf[..bufsize] == chars[n..n + bufsize] && flags[..bufsize] == marks[n..n + bufsize];
      assert Cells() == Zip(chars[..n + bufsize], marks[..n + bufsize])[n..];
    }

    /** What is behind the first n cells moves to the front, flags included. */
    method MoveUp(n: nat, count: nat)
      requires n + count <= buf.Length && n + count <= flags.Length
      modifies buf, flags
      ensures buf[..count] == old(buf[n..n + count]) && flags[..count] == old(flags[n..n + count])
    {
      ghost var chars, marks := buf[..], flags[..];
      var i := 0;
      while i < count
        invariant 0 <= i <= count
        invariant forall k :: 0 <= k < i ==> buf[k] == chars[k + n]
        invariant forall k :: 0 <= k < i ==> flags[k] == marks[k + n]
        invariant forall k :: i <= k < n + count ==> buf[k] == chars[k]
        invariant forall k :: i <= k < n + count ==> flags[k] == marks[k]
      {
        buf[i], flags[i] := buf[i + n], flags[i + n];
        i := i + 1;
      }
      assert buf[..count] == chars[n..n + count] && flags[..count] == marks[n..n + count];
    }

    /** The end of tty_read: n characters, and an end-of-file mark if one is in front then. */
    method Take(n: nat) returns (data: seq<byte>)
      requires Valid() && n <= bufsize
      modifies this, buf, flags
      ensures Valid() && Cells() == Cut(old(Cells())[n..])
      ensures |data| == n && forall i :: 0 <= i < n ==> data[i] == old(Cells())[i].ch
    {
      data := ReadIntoBuf(n);
      assert bufsize > 0 ==> Cells()[0] == Cell(buf[0], flags[0]);
      if bufsize > 0 && buf[0] == NUL && flags[0] {
        var dummy := ReadIntoBuf(1);
      }
    }

    /** The canonical part of tty_read without blocking; None stands for EAGAIN. */
    method Read(n: nat) returns (data: Option<seq<byte>>)
      requires Valid()
      modifies this, buf, flags
      ensures Valid()
      ensures n == 0 ==> data == Some([]) && View() == old(View())
      ensures n > 0 && old(View()).finished == [] ==> data == None && View() == old(View())
      ensures n > 0 && old(View()).finished != [] ==>
                data == Some(Fetched(old(View()), n).0) && View() == Fetched(old(View()), n).1
    {
      if n == 0 {
        return Some([]);
      }
      ghost var l := View();
      CellsOfLinesOf(Cells());
      var size := CanonSize();
      if size.None? {
        return None;
      }
      var canonSize := size.value;
      FirstFlag(l, canonSize - 1);
      assert Cells()[canonSize - 1].ch == buf[canonSize - 1];
      if buf[canonSize - 1] == NUL {
        canonSize := canonSize - 1;
      }
      var m := n;
      if m > canonSize {
        m := canonSize;
      }
      FlagOf(l);
      var bytes := Take(m);
      ReadIsFetched(l, n, m, bytes);
      return Some(bytes);
    }
  }

  lemma ReadIsFetched(l: Lines, n: nat, m: nat, data: seq<byte>)
    requires l.finished != [] && m == Min(n, |Bytes(l.finished[0])|) && m <= Size(l)
    requires |data| == m && forall i :: 0 <= i < m ==> data[i] == CellsOf(l)[i].ch
    ensures Fetched(l, n).0 == data && Fetched(l, n).1 == LinesOf(Cut(CellsOf(l)[m..]))
  {
    FlagOf(l);
    assert data == Chars(CellsOf(l)[..m]);
  }

  /** The bytes in front are the bytes of the first line. */
  lemma FetchedData(l: Lines, m: nat, data: seq<byte>)
    requires l.finished != [] && m <= |Bytes(l.finished[0])| && m <= Size(l)
    requires |data| == m && forall i :: 0 <= i < m ==> data[i] == CellsOf(l)[i].ch
    ensures data == Bytes(l.finished[0])[..m]
  {
    forall i | 0 <= i < m ensures data[i] == Bytes(l.finished[0])[i] {
      FirstFlag(l, i);
    }
  }

  lemma ErasedIs(l: Lines, erase: bool, count: nat)
    requires if erase && Size(l) > 0 then count == 1 else count >= |l.editing|
    requires l.editing == [] || Size(l) > 0
    ensures l.(editing := l.editing[..|l.editing| - Min(count, |l.editing|)]) == Edited(l, if erase then Erase else Kill)
  {
    assert l.editing[..0] == [];
  }

  lemma EditingFits(l: Lines)
    ensures |l.editing| <= Size(l) && (l.editing == [] || Size(l) > 0)
  {
  }

  // ---------------------------------------------------------------- what a run delivers

  datatype Step = Type(typed: byte) | Read(n: nat)

  /** The lines left, the bytes all reads returned, and the characters that were taken. */
  datatype Outcome = Outcome(lines: Lines, delivered: seq<byte>, taken: seq<Key>)

  function StepFrom(o: Outcome, tm: Termios, step: Step): Outcome {
    match step
    case Type(typed) =>
      var key := Meaning(tm, typed);
      (match Typed(o.lines, key)
       case None => o
       case Some(l) => Outcome(l, o.delivered, o.taken + [key]))
    case Read(n) =>
      if n == 0 || o.lines.finished == [] then o
      else o.(lines := Fetched(o.lines, n).1, delivered := o.delivered + Fetched(o.lines, n).0)
  }

  function RunFrom(o: Outcome, tm: Termios, steps: seq<Step>): Outcome
    decreases |steps|
  {
    if steps == [] then o else RunFrom(StepFrom(o, tm, steps[0]), tm, steps[1..])
  }

  const NO_LINES: Lines := Lines([], [])

  const NOTHING: Outcome := Outcome(NO_LINES, [], [])

  /** The discipline by itself: no limit, nobody reads. */
  function EditedAll(keys: seq<Key>): Lines {
    if keys == [] then NO_LINES else Edited(EditedAll(keys[..|keys| - 1]), keys[|keys| - 1])
  }

  function AllBytes(lines: seq<Line>): seq<byte> {
    if lines == [] then [] else Bytes(lines[0]) + AllBytes(lines[1..])
  }

  lemma {:induction false} AllBytesSnoc(lines: seq<Line>, line: Line)
    ensures AllBytes(lines + [line]) == AllBytes(lines) + Bytes(line)
  {
    if lines == [] {
      assert [] + [line] == [line];
      assert AllBytes([line]) == Bytes(line) + AllBytes([]);
    } else {
      AllBytesSnoc(lines[1..], line);
      assert (lines + [line])[1..] == lines[1..] + [line];
      ConcatAssoc(Bytes(lines[0]), AllBytes(lines[1..]), Bytes(line));
    }
  }

  lemma PoppedConserves(l: Lines, n: nat)
    requires l.finished != []
    ensures Popped(l, n).0 + AllBytes(Popped(l, n).1.finished) == AllBytes(l.finished)
    ensures Popped(l, n).0 <= Bytes(l.finished[0])
  {
    var first, rest := l.finished[0], l.finished[1..];
    var m := Min(n, |Bytes(first)|);
    if m == |Bytes(first)| {
      assert Bytes(first)[..m] == Bytes(first);
    } else {
      var cut := Line(first.body[m..], first.end);
      assert Bytes(first)[..m] + Bytes(cut) == Bytes(first);
      assert ([cut] + rest)[1..] == rest;
      ConcatAssoc(Bytes(first)[..m], Bytes(cut), AllBytes(rest));
    }
  }

  lemma BareEofHasNoBytes(lines: seq<Line>)
    requires lines != [] && lines[0] == BARE_EOF
    ensures AllBytes(lines[1..]) == AllBytes(lines)
  {
    assert AllBytes(lines) == [] + AllBytes(lines[1..]);
  }

  /** A read returns bytes from the front and leaves all the others. */
  lemma FetchedConserves(l: Lines, n: nat)
    requires l.finished != []
    ensures Fetched(l, n).1.editing == l.editing
    ensures Fetched(l, n).0 + AllBytes(Fetched(l, n).1.finished) == AllBytes(l.finished)
    ensures Fetched(l, n).0 <= Bytes(l.finished[0]) && Bytes(l.finished[0]) <= l.finished[0].body + [l.finished[0].end]
    ensures var size := |l.finished[0].body| + if l.finished[0].end == 0 then 0 else 1;
            |Fetched(l, n).0| == if n < size then n else size
  {
    PoppedConserves(l, n);
    FetchedSplits(l, n);
    if Swallows(l, n) {
      BareEofHasNoBytes(Popped(l, n).1.finished);
    }
  }

  /** What an outcome has in common with the discipline by itself. */
  predicate Agrees(o: Outcome) {
    && o.lines.editing == EditedAll(o.taken).editing
    && o.delivered + AllBytes(o.lines.finished) == AllBytes(EditedAll(o.taken).finished)
  }

  lemma ConcatAssoc(a: seq<byte>, b: seq<byte>, c: seq<byte>)
    ensures (a + b) + c == a + (b + c)
  {
  }

  lemma FinishKeepsAgreement(delivered: seq<byte>, some: seq<Line>, all: seq<Line>, line: Line)
    requires delivered + AllBytes(some) == AllBytes(all)
    ensures delivered + AllBytes(some + [line]) == AllBytes(all + [line])
  {
    AllBytesSnoc(some, line);
    AllBytesSnoc(all, line);
    ConcatAssoc(delivered, AllBytes(some), Bytes(line));
  }

  lemma EditedAllSnoc(keys: seq<Key>, key: Key)
    ensures EditedAll(keys + [key]) == Edited(EditedAll(keys), key)
  {
    assert (keys + [key])[..|keys|] == keys;
  }

  lemma EditKeepsAgreement(o: Outcome, key: Key)
    requires Agrees(o) && key != Signal(true)
    ensures Agrees(Outcome(Edited(o.lines, key), o.delivered, o.taken + [key]))
  {
    var all := EditedAll(o.taken);
    EditedAllSnoc(o.taken, key);
    match key
    case EndOfFile => FinishKeepsAgreement(o.delivered, o.lines.finished, all.finished, Line(all.editing, NUL));
    case EndOfLine(ch) => FinishKeepsAgreement(o.delivered, o.lines.finished, all.finished, Line(all.editing, ch));
    case _ =>
  }

  lemma StepKeepsAgreement(o: Outcome, tm: Termios, step: Step)
    requires Agrees(o) && (step.Type? ==> Meaning(tm, step.typed) != Signal(true))
    ensures Agrees(StepFrom(o, tm, step))
  {
    match step
    case Type(typed) =>
      EditKeepsAgreement(o, Meaning(tm, typed));
    case Read(n) =>
      if n > 0 && o.lines.finished != [] {
        FetchedConserves(o.lines, n);
        ConcatAssoc(o.delivered, Fetched(o.lines, n).0, AllBytes(Fetched(o.lines, n).1.finished));
      }
  }

  /**
   Nothing is lost, repeated or reordered: whatever is typed and read in whatever order, what the reads
   returned and what is still finished are together the bytes of the lines the taken characters make.
   */
  lemma {:induction false} NothingIsLostFrom(o: Outcome, tm: Termios, steps: seq<Step>)
    requires Agrees(o)
    requires forall typed :: Type(typed) in steps ==> Meaning(tm, typed) != Signal(true)
    ensures Agrees(RunFrom(o, tm, steps))
    decreases |steps|
  {
    if steps != [] {
      StepKeepsAgreement(o, tm, steps[0]);
      assert forall typed :: Type(typed) in steps[1..] ==> Type(typed) in steps;
      NothingIsLostFrom(StepFrom(o, tm, steps[0]), tm, steps[1..]);
    }
  }

  lemma NothingIsLost(tm: Termios, steps: seq<Step>)
    requires forall typed :: Type(typed) in steps ==> Meaning(tm, typed) != Signal(true)
    ensures var o := RunFrom(NOTHING, tm, steps);
            && o.delivered + AllBytes(o.lines.finished) == AllBytes(EditedAll(o.taken).finished)
            && o.lines.editing == EditedAll(o.taken).editing
  {
    NothingIsLostFrom(NOTHING, tm, steps);
  }

  lemma TypedFits(l: Lines, key: Key)
    requires Size(l) <= BUF_SIZE
    ensures Typed(l, key).Some? ==> Size(Typed(l, key).value) <= BUF_SIZE
  {
    match key
    case Plain(ch) => AppendCells(l, Cell(ch, false));
    case EndOfFile => AppendCells(l, Cell(NUL, true));
    case EndOfLine(ch) => AppendCells(l, Cell(ch, true));
    case _ =>
  }

  /** The buffer never overflows. */
  lemma {:induction false} RunFits(o: Outcome, tm: Termios, steps: seq<Step>)
    requires Size(o.lines) <= BUF_SIZE
    ensures Size(RunFrom(o, tm, steps).lines) <= BUF_SIZE
    decreases |steps|
  {
    if steps != [] {
      match steps[0] {
        case Type(typed) => TypedFits(o.lines, Meaning(tm, typed));
        case Read(n) =>
          if n > 0 && o.lines.finished != [] {
            FlagOf(o.lines);
            CellsOfLinesOf(ReadCells(CellsOf(o.lines), n).1);
          }
      }
      RunFits(StepFrom(o, tm, steps[0]), tm, steps[1..]);
    }
  }

  /**
   On the buffer: a read returns the right characters always, and leaves the right lines exactly if no bare
   end-of-file follows a line that it finishes.
   */
  lemma {:induction false} ReadIsStandardIff(cells: seq<Cell>, n: nat)
    requires FirstFlagged(cells) < |cells|
    ensures LinesOf(cells).finished != []
    ensures ReadCells(cells, n).0 == Popped(LinesOf(cells), n).0
    ensures LinesOf(ReadCells(cells, n).1) == Popped(LinesOf(cells), n).1 <==> !Swallows(LinesOf(cells), n)
  {
    var l := LinesOf(cells);
    CellsOfLinesOf(cells);
    FlagOf(l);
    FetchedSplits(l, n);
    if Swallows(l, n) {
      var l1 := Popped(l, n).1;
      assert |l1.(finished := l1.finished[1..]).finished| < |l1.finished|;
    }
  }

  /** a, newline and end-of-file typed. */
  lemma EndOfFileTyped(tm: Termios)
    requires tm.eof == 4 && tm.erase == 127 && tm.kill == 21 && tm.eol == NUL && !tm.isig && !tm.inlcr
    ensures Edited(Edited(Edited(NO_LINES, Meaning(tm, 97)), Meaning(tm, 10)), Meaning(tm, 4))
         == Lines([Line([97], NEWLINE), BARE_EOF], [])
  {
    assert Edited(NO_LINES, Meaning(tm, 97)).editing == [97];
  }

  /** The buffer with these: the first read takes all of it, although a line that returns no bytes should be left. */
  lemma EndOfFileIsSwallowed()
    ensures var l := Lines([Line([97], NEWLINE), BARE_EOF], []);
            var cells := [Cell(97, false), Cell(NEWLINE, true), Cell(NUL, true)];
            && CellsOf(l) == cells && Popped(l, 10).1 == Lines([BARE_EOF], [])
            && ReadCells(cells, 10).0 == [97, NEWLINE] && ReadCells(cells, 10).1 == []
  {
    var l := Lines([Line([97], NEWLINE), BARE_EOF], []);
    var cells := [Cell(97, false), Cell(NEWLINE, true), Cell(NUL, true)];
    assert l.finished[1..] == [BARE_EOF] && l.finished[1..][1..] == [];
    assert LineCells(l.finished[0]) == cells[..2] && LineCells(BARE_EOF) == cells[2..];
    assert Flat([BARE_EOF]) == LineCells(BARE_EOF) + Flat([]);
    assert CellsOf(l) == cells;
    assert cells[2..][1..] == [];
    assert Bytes(Line([97], NEWLINE)) == [97, NEWLINE];
    FlagOf(l);
    assert Chars(cells[..2]) == [97, NEWLINE];
  }
}
