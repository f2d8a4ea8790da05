/** The byte-at-a-time line editor of the shell, and the terminal line its echoes draw. */
module ShellLine {
  import opened Wrappers
  import opened Words

  const MAX_LINE: nat := 255

  const CR: Byte := 0x0D
  const LF: Byte := 0x0A
  const ESCAPE: Byte := 0x1B
  const KILL_LINE: Byte := 0x15
  const BACKSPACE: Byte := 0x08
  const DELETE: Byte := 0x7F
  const LEFT_BRACKET: Byte := 0x5B

  datatype LineEvent = Nothing | Ready | TooLong

  datatype Echo = Silent | Character(character: Byte) | Newline | Erase(count: nat)

  datatype EscapeState = Plain | AfterEscape | InSequence

  /** The abstract line buffer. */
  datatype Line = Line(text: seq<Byte>, overflow: bool, lastWasCr: bool, escape: EscapeState)

  const BLANK: Line := Line([], false, false, Plain)

  predicate Printable(b: Byte) {
    0x20 <= b <= 0x7E
  }

  /** What one byte does to the line, the event it raises and the echo it asks for. */
  function Pushed(s: Line, b: Byte): (Line, LineEvent, Echo) {
    if b == LF && s.lastWasCr then (s.(lastWasCr := false), Nothing, Silent)
    else if b == CR || b == LF then
      var t := s.(lastWasCr := b == CR, escape := Plain);
      if s.overflow then (t.(overflow := false, text := []), TooLong, Newline)
      else (t, if s.text == [] then Nothing else Ready, Newline)
    else
      var t := s.(lastWasCr := false);
      if s.escape == AfterEscape then (t.(escape := if b == LEFT_BRACKET then InSequence else Plain), Nothing, Silent)
      else if s.escape == InSequence then (if 0x40 <= b <= 0x7E then t.(escape := Plain) else t, Nothing, Silent)
      else if b == ESCAPE then (t.(escape := AfterEscape), Nothing, Silent)
      else if b == KILL_LINE then
        (t.(text := [], overflow := false), Nothing, if s.text == [] then Silent else Erase(|s.text|))
      else if b == BACKSPACE || b == DELETE then
        if s.overflow || s.text == [] then (t, Nothing, Silent)
        else (t.(text := s.text[..|s.text| - 1]), Nothing, Erase(1))
      else if !Printable(b) || s.overflow then (t, Nothing, Silent)
      else if |s.text| == MAX_LINE then (t.(overflow := true), Nothing, Silent)
      else (t.(text := s.text + [b]), Nothing, Character(b))
  }

  class ShellLineBuffer {
    const bytes: array<Byte>
    var size: nat
    var overflow: bool
    var lastWasCr: bool
    var escapeState: EscapeState

    ghost predicate Valid()
      reads this
    {
      bytes.Length == MAX_LINE && size <= MAX_LINE
    }

    ghost function State(): Line
      requires Valid()
      reads this, bytes
    {
      Line(bytes[..size], overflow, lastWasCr, escapeState)
    }

    constructor ()
      ensures Valid() && State() == BLANK && fresh(bytes)
    {
      bytes := new Byte[MAX_LINE](_ => 0);
      size, overflow, lastWasCr, escapeState := 0, false, false, Plain;
    }

    method Push(b: Byte) returns (event: LineEvent, echo: Echo)
      requires Valid()
      modifies this, bytes
      ensures Valid() && (State(), event, echo) == Pushed(old(State()), b)
    {
      if b == LF && lastWasCr {
        lastWasCr := false;
        return Nothing, Silent;
      }
      if b == CR || b == LF {
        lastWasCr := b == CR;
        escapeState := Plain;
        if overflow {
          overflow := false;
          size := 0;
          assert bytes[..size] == [];
          return TooLong, Newline;
        }
        return if size == 0 then Nothing else Ready, Newline;
      }
      lastWasCr := false;
      if escapeState == AfterEscape {
        escapeState := if b == LEFT_BRACKET then InSequence else Plain;
        return Nothing, Silent;
      }
      if escapeState == InSequence {
        if 0x40 <= b <= 0x7E { escapeState := Plain; }
        return Nothing, Silent;
      }
      if b == ESCAPE {
        escapeState := AfterEscape;
        return Nothing, Silent;
      }
      if b == KILL_LINE {
        var erased := size;
        size := 0;
        overflow := false;
        return Nothing, if erased == 0 then Silent else Erase(erased);
      }
      if b == BACKSPACE || b == DELETE {
        if overflow || size == 0 { return Nothing, Silent; }
        size := size - 1;
        assert bytes[..size] == old(bytes[..size])[..size];
        return Nothing, Erase(1);
      }
      if !Printable(b) || overflow { return Nothing, Silent; }
      if size == bytes.Length {
        overflow := true;
        return Nothing, Silent;
      }
      bytes[size] := b;
      size := size + 1;
      assert bytes[..size] == old(bytes[..size]) + [b];
      return Nothing, Character(b);
    }

    method Take() returns (line: seq<Byte>)
      requires Valid()
      modifies this`size
      ensures Valid() && line == old(State()).text && State() == old(State()).(text := [])
    {
      line := bytes[..size];
      size := 0;
    }
  }

  // ----- The driver and the terminal

  /** The shell task: bytes in, commands out; it takes the line whenever it is ready. `screen` is the part of
      the current terminal line behind the prompt, and `commands` what was handed to the shell so far. */
  datatype Session = Session(line: Line, screen: seq<Byte>, commands: seq<Command>)

  datatype Command = Run(text: seq<Byte>) | LineTooLong

  /** How a terminal draws an echo: a character is appended, an erasure takes back characters, a new line and
      the prompt behind it start afresh. */
  function Drawn(screen: seq<Byte>, echo: Echo): seq<Byte> {
    match echo
    case Silent => screen
    case Character(c) => screen + [c]
    case Newline => []
    case Erase(n) => if n <= |screen| then screen[..|screen| - n] else []
  }

  function Next(s: Session, b: Byte): Session {
    var (line, event, echo) := Pushed(s.line, b);
    var screen := Drawn(s.screen, echo);
    match event
    case Nothing => Session(line, screen, s.commands)
    case TooLong => Session(line, screen, s.commands + [LineTooLong])
    case Ready => Session(line.(text := []), screen, s.commands + [Run(line.text)])
  }

  const OPENED: Session := Session(BLANK, [], [])

  function Typed(bytes: seq<Byte>): Session {
    if bytes == [] then OPENED else Next(Typed(bytes[..|bytes| - 1]), bytes[|bytes| - 1])
  }

  ghost predicate AllPrintable(text: seq<Byte>) {
    forall k :: 0 <= k < |text| ==> Printable(text[k])
  }

  ghost predicate GoodCommand(c: Command) {
    c.Run? ==> AllPrintable(c.text) && 1 <= |c.text| <= MAX_LINE
  }

  ghost predicate GoodLine(screen: seq<Byte>, line: Line) {
    && screen == line.text && AllPrintable(line.text) && |line.text| <= MAX_LINE
    && (line.overflow ==> |line.text| == MAX_LINE)
    && (line.lastWasCr ==> line.text == [] && line.escape == Plain && !line.overflow)
  }

  ghost predicate Faithful(s: Session) {
    GoodLine(s.screen, s.line) && forall k :: 0 <= k < |s.commands| ==> GoodCommand(s.commands[k])
  }

  lemma PushIsFaithful(screen: seq<Byte>, line: Line, b: Byte)
    requires GoodLine(screen, line)
    ensures var (line', event, echo) := Pushed(line, b);
      if event.Ready? then line'.text == line.text && GoodCommand(Run(line.text)) &&
          GoodLine(Drawn(screen, echo), line'.(text := []))
      else GoodLine(Drawn(screen, echo), line')
  {
    hide Printable;
  }

  lemma NextIsFaithful(s: Session, b: Byte)
    requires Faithful(s)
    ensures Faithful(Next(s, b))
  {
    hide GoodLine, GoodCommand, Pushed, Drawn;
    PushIsFaithful(s.screen, s.line, b);
    assert GoodCommand(LineTooLong) by { TooLongIsGood(); }
  }

  lemma TooLongIsGood()
    ensures GoodCommand(LineTooLong)
  {
  }

  /** What you see is what you run: after every byte stream, the terminal line shows exactly the buffered text,
      which is printable and at most 255 bytes long; so is every command handed over. */
  lemma {:induction false} ScreenShowsTheLine(bytes: seq<Byte>)
    ensures Faithful(Typed(bytes))
    decreases |bytes|
  {
    hide Next, Faithful;
    if bytes == [] {
      assert Faithful(OPENED) by { OpenedIsFaithful(); }
    } else {
      ScreenShowsTheLine(bytes[..|bytes| - 1]);
      NextIsFaithful(Typed(bytes[..|bytes| - 1]), bytes[|bytes| - 1]);
    }
  }

  lemma OpenedIsFaithful()
    ensures Faithful(OPENED)
  {
  }

  /** Does this byte end a line? A line feed right after a carriage return does not end another one. */
  predicate EndsLine(bytes: seq<Byte>, b: Byte) {
    b == CR || (b == LF && !(bytes != [] && bytes[|bytes| - 1] == CR))
  }

  /** A byte hands over a command if and only if it ends a line and there is something on it. The command is then what
      stood on the terminal line, or that the line was too long. */
  lemma CommandIsWhatWasShown(bytes: seq<Byte>, b: Byte)
    ensures var before, after := Typed(bytes), Typed(bytes + [b]);
      after.commands == before.commands +
        if !EndsLine(bytes, b) then []
        else if before.line.overflow then [LineTooLong]
        else if before.screen == [] then []
        else [Run(before.screen)]
  {
    hide Typed, AllPrintable;
    TypedOneMore(bytes, b);
    ScreenShowsTheLine(bytes);
    if bytes == [] {
      assert Typed(bytes) == OPENED by { NothingTyped(); }
    } else {
      LastWasCr(bytes);
    }
  }

  /** A new line is echoed exactly where a line ends. */
  lemma NewlineIsEchoed(bytes: seq<Byte>, b: Byte)
    ensures Pushed(Typed(bytes).line, b).2 == Newline <==> EndsLine(bytes, b)
  {
    hide Typed;
    if bytes == [] {
      NothingTyped();
    } else {
      LastWasCr(bytes);
    }
  }

  lemma NothingTyped()
    ensures Typed([]) == OPENED
  {
  }

  // ----- Line endings

  /** Every CR, LF or CR LF becomes one LF. */
  function Normalized(bytes: seq<Byte>): seq<Byte> {
    if bytes == [] then []
    else
      var front, last := bytes[..|bytes| - 1], bytes[|bytes| - 1];
      if last == CR then Normalized(front) + [LF]
      else if last == LF && front != [] && front[|front| - 1] == CR then Normalized(front)
      else Normalized(front) + [last]
  }

  /** The same session, but for the memory of a carriage return. */
  predicate SameButCr(a: Session, b: Session) {
    a == b.(line := b.line.(lastWasCr := a.line.lastWasCr)) && !b.line.lastWasCr
  }

  lemma NextRemembersCr(s: Session, b: Byte)
    ensures Next(s, b).line.lastWasCr <==> b == CR
  {
  }

  lemma LastWasCr(bytes: seq<Byte>)
    requires bytes != []
    ensures Typed(bytes).line.lastWasCr <==> bytes[|bytes| - 1] == CR
  {
    hide Next;
    NextRemembersCr(Typed(bytes[..|bytes| - 1]), bytes[|bytes| - 1]);
  }

  lemma SameByte(a: Session, b: Session, byte: Byte)
    requires SameButCr(a, b) && byte != CR && (byte == LF ==> !a.line.lastWasCr)
    ensures SameButCr(Next(a, byte), Next(b, byte))
  {
  }

  lemma CrIsLf(a: Session, b: Session)
    requires SameButCr(a, b)
    ensures SameButCr(Next(a, CR), Next(b, LF))
  {
  }

  lemma LfAfterCr(a: Session, b: Session)
    requires SameButCr(a, b) && a.line.lastWasCr
    ensures SameButCr(Next(a, LF), b)
  {
  }

  lemma TypedOneMore(bytes: seq<Byte>, b: Byte)
    ensures Typed(bytes + [b]) == Next(Typed(bytes), b)
  {
    assert (bytes + [b])[..|bytes|] == bytes;
  }

  /** Neither the commands nor the terminal line depend on how line endings are written. */
  lemma {:induction false} LineEndingsDoNotMatter(bytes: seq<Byte>)
    ensures SameButCr(Typed(bytes), Typed(Normalized(bytes)))
    ensures Typed(bytes).commands == Typed(Normalized(bytes)).commands
    decreases |bytes|
  {
    hide Next;
    if bytes != [] {
      var front, last := bytes[..|bytes| - 1], bytes[|bytes| - 1];
      LineEndingsDoNotMatter(front);
      var a, b, n := Typed(front), Typed(Normalized(front)), Normalized(front);
      if front != [] { LastWasCr(front); }
      TypedOneMore(n, LF);
      TypedOneMore(n, last);
      if last == CR {
        CrIsLf(a, b);
      } else if last == LF && a.line.lastWasCr {
        LfAfterCr(a, b);
      } else {
        SameByte(a, b, last);
      }
    }
  }
}
