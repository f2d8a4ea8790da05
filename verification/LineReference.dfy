/** What a stream of bytes typed into the shell means, without an editor: the stream is split into lines, escape sequences
    are taken out of a line, and the keys that remain are edits of its text. The line editor hands over these commands. */
module LineReference {
  import opened Wrappers
  import opened Words
  import opened ShellLine

  // ----- Escape sequences: ESC and one byte, or ESC, a bracket and everything up to a byte from 0x40 to 0x7E

  /** How many bytes there are up to and with the first one from 0x40 to 0x7E, or all. */
  function UpToFinal(bytes: seq<Byte>): (n: nat)
    ensures n <= |bytes|
  {
    if bytes == [] then 0 else if 0x40 <= bytes[0] <= 0x7E then 1 else 1 + UpToFinal(bytes[1..])
  }

  /** The length of the escape sequence that a line starts with. */
  function SequenceLength(line: seq<Byte>): (n: nat)
    requires line != [] && line[0] == 0x1B
    ensures 1 <= n <= |line|
  {
    if |line| == 1 then 1 else if line[1] != 0x5B then 2 else 2 + UpToFinal(line[2..])
  }

  /** The bytes of a line outside escape sequences. */
  function Keys(line: seq<Byte>): seq<Byte> {
    if line == [] then []
    else if line[0] == 0x1B then Keys(line[SequenceLength(line)..])
    else [line[0]] + Keys(line[1..])
  }

  // ----- Editing

  /** The text on a line, and whether a key did not fit on it. */
  datatype Draft = Draft(text: seq<Byte>, tooLong: bool)

  /** What the keys of a line leave: 0x15 clears it; 0x08 and 0x7F take back one character; characters from 0x20 to 0x7E are
      added, up to 255. Once one did not fit, only clearing helps. */
  function Edited(keys: seq<Byte>): Draft {
    if keys == [] then Draft([], false)
    else
      var key, before := keys[|keys| - 1], Edited(keys[..|keys| - 1]);
      if key == 0x15 then Draft([], false)
      else if before.tooLong then before
      else if key == 0x08 || key == 0x7F then
        if before.text == [] then before else Draft(before.text[..|before.text| - 1], false)
      else if key < 0x20 || key > 0x7E then before
      else if |before.text| == 255 then before.(tooLong := true)
      else Draft(before.text + [key], false)
  }

  /** The command that a line stands for, if any. */
  function CommandOf(line: seq<Byte>): seq<Command> {
    var draft := Edited(Keys(line));
    if draft.tooLong then [LineTooLong] else if draft.text == [] then [] else [Run(draft.text)]
  }

  // ----- Lines

  function LengthOfLine(bytes: seq<Byte>): (n: nat)
    ensures n <= |bytes| && (n < |bytes| ==> bytes[n] == 0x0A) && forall k :: 0 <= k < n ==> bytes[k] != 0x0A
  {
    if bytes == [] || bytes[0] == 0x0A then 0 else 1 + LengthOfLine(bytes[1..])
  }

  /** The commands of the lines that a line feed ends. */
  function Commands(bytes: seq<Byte>): seq<Command> {
    var n := LengthOfLine(bytes);
    if n == |bytes| then [] else CommandOf(bytes[..n]) + Commands(bytes[n + 1..])
  }

  /** What comes after the last line feed. */
  function Unfinished(bytes: seq<Byte>): seq<Byte> {
    var n := LengthOfLine(bytes);
    if n == |bytes| then bytes else Unfinished(bytes[n + 1..])
  }

  lemma {:induction false} LineGrows(bytes: seq<Byte>, b: Byte)
    ensures LengthOfLine(bytes + [b]) ==
      if LengthOfLine(bytes) < |bytes| || b == 0x0A then LengthOfLine(bytes) else |bytes| + 1
    decreases |bytes|
  {
    if bytes == [] {
      assert [b][1..] == [];
    } else {
      assert (bytes + [b])[1..] == bytes[1..] + [b];
      LineGrows(bytes[1..], b);
    }
  }

  lemma {:induction false} CommandsGrow(bytes: seq<Byte>, b: Byte)
    ensures b != 0x0A ==>
      Commands(bytes + [b]) == Commands(bytes) && Unfinished(bytes + [b]) == Unfinished(bytes) + [b]
    ensures b == 0x0A ==>
      Commands(bytes + [b]) == Commands(bytes) + CommandOf(Unfinished(bytes)) && Unfinished(bytes + [b]) == []
    decreases |bytes|
  {
    hide CommandOf, LengthOfLine;
    var n, longer := LengthOfLine(bytes), bytes + [b];
    LineGrows(bytes, b);
    NoLine();
    if n < |bytes| {
      assert longer[..n] == bytes[..n] && longer[n + 1..] == bytes[n + 1..] + [b];
      CommandsGrow(bytes[n + 1..], b);
      assert CommandOf(bytes[..n]) + (Commands(bytes[n + 1..]) + CommandOf(Unfinished(bytes[n + 1..])))
          == (CommandOf(bytes[..n]) + Commands(bytes[n + 1..])) + CommandOf(Unfinished(bytes[n + 1..]));
    } else if b == 0x0A {
      assert longer[..n] == bytes && longer[n + 1..] == [];
      assert Commands([]) == [] && Unfinished([]) == [];
    }
  }

  lemma NoLine()
    ensures LengthOfLine([]) == 0
  {
  }

  // ----- Keys, one byte at a time

  /** What one byte is to the keys, given how far into an escape sequence it comes. */
  function KeyOf(state: EscapeState, b: Byte): (seq<Byte>, EscapeState) {
    match state
    case Plain => if b == 0x1B then ([], AfterEscape) else ([b], Plain)
    case AfterEscape => ([], if b == 0x5B then InSequence else Plain)
    case InSequence => ([], if 0x40 <= b <= 0x7E then Plain else InSequence)
  }

  function Scanned(line: seq<Byte>, state: EscapeState): (seq<Byte>, EscapeState) {
    if line == [] then ([], state)
    else
      var (key, next) := KeyOf(state, line[0]);
      var (keys, last) := Scanned(line[1..], next);
      (key + keys, last)
  }

  lemma ScannedOne(state: EscapeState, b: Byte)
    ensures Scanned([b], state) == KeyOf(state, b)
  {
    hide KeyOf;
    assert [b][1..] == [];
    var (key, next) := KeyOf(state, b);
    assert key + [] == key;
  }

  lemma {:induction false} ScannedGrows(line: seq<Byte>, state: EscapeState, b: Byte)
    ensures var (keys, last) := Scanned(line, state);
      Scanned(line + [b], state) == (keys + KeyOf(last, b).0, KeyOf(last, b).1)
    decreases |line|
  {
    hide KeyOf;
    if line == [] {
      ScannedOne(state, b);
      assert line + [b] == [b] && [] + KeyOf(state, b).0 == KeyOf(state, b).0;
    } else {
      assert (line + [b])[0] == line[0];
      var (key, next) := KeyOf(state, line[0]);
      var (keys, last) := Scanned(line[1..], next);
      assert (line + [b])[1..] == line[1..] + [b];
      ScannedGrows(line[1..], next, b);
      assert (key + keys) + KeyOf(last, b).0 == key + (keys + KeyOf(last, b).0);
    }
  }

  lemma {:induction false} SequenceIsSkipped(line: seq<Byte>)
    ensures Scanned(line, InSequence).0 == Scanned(line[UpToFinal(line)..], Plain).0
    decreases |line|
  {
    if line == [] {
    } else if 0x40 <= line[0] <= 0x7E {
    } else {
      SequenceIsSkipped(line[1..]);
      assert line[1..][UpToFinal(line[1..])..] == line[UpToFinal(line)..];
    }
  }

  lemma {:induction false} KeysAreScanned(line: seq<Byte>)
    ensures Keys(line) == Scanned(line, Plain).0
    decreases |line|
  {
    if line == [] {
    } else if line[0] != 0x1B {
      KeysAreScanned(line[1..]);
    } else {
      KeysAreScanned(line[SequenceLength(line)..]);
      if |line| > 1 {
        assert line[1..][1..] == line[2..] && line[1..][0] == line[1];
        if line[1] == 0x5B {
          SequenceIsSkipped(line[2..]);
          assert line[2..][UpToFinal(line[2..])..] == line[SequenceLength(line)..];
        }
      }
    }
  }

  lemma EditedGrows(keys: seq<Byte>, key: Byte)
    ensures Edited(keys + []) == Edited(keys)
    ensures var before := Edited(keys);
      Edited(keys + [key]) ==
        if key == 0x15 then Draft([], false)
        else if before.tooLong then before
        else if key == 0x08 || key == 0x7F then
          (if before.text == [] then before else Draft(before.text[..|before.text| - 1], false))
        else if key < 0x20 || key > 0x7E then before
        else if |before.text| == 255 then before.(tooLong := true)
        else Draft(before.text + [key], false)
  {
    assert (keys + [key])[..|keys|] == keys && keys + [] == keys;
  }

  // ----- The editor follows the reference

  /** The editor has handed over the commands of the finished lines, and holds the draft of the unfinished one. */
  ghost predicate Follows(s: Session, commands: seq<Command>, line: seq<Byte>) {
    var draft := Edited(Scanned(line, Plain).0);
    && s.commands == commands && !s.line.lastWasCr && s.line.escape == Scanned(line, Plain).1
    && s.line.text == draft.text && s.line.overflow == draft.tooLong
  }

  lemma NextFollows(s: Session, commands: seq<Command>, line: seq<Byte>, b: Byte)
    requires Follows(s, commands, line) && b != 0x0D && b != 0x0A
    ensures Follows(Next(s, b), commands, line + [b])
  {
    hide Scanned, Edited, Drawn;
    var (keys, state) := Scanned(line, Plain);
    ScannedGrows(line, Plain, b);
    EditedGrows(keys, b);
  }

  lemma LineEndFollows(s: Session, commands: seq<Command>, line: seq<Byte>)
    requires Follows(s, commands, line)
    ensures Follows(Next(s, 0x0A), commands + CommandOf(line), [])
  {
    hide Drawn;
    KeysAreScanned(line);
  }

  lemma {:induction false} TypedFollows(bytes: seq<Byte>)
    requires forall k :: 0 <= k < |bytes| ==> bytes[k] != 0x0D
    ensures Follows(Typed(bytes), Commands(bytes), Unfinished(bytes))
    decreases |bytes|
  {
    hide Next, CommandOf, Follows, Commands, Unfinished;
    if bytes == [] {
      assert Follows(OPENED, Commands([]), Unfinished([])) by { NothingFollows(); }
    } else {
      var front, b := bytes[..|bytes| - 1], bytes[|bytes| - 1];
      TypedFollows(front);
      CommandsGrow(front, b);
      assert front + [b] == bytes;
      if b == 0x0A {
        LineEndFollows(Typed(front), Commands(front), Unfinished(front));
      } else {
        NextFollows(Typed(front), Commands(front), Unfinished(front), b);
      }
    }
  }

  lemma NothingFollows()
    ensures Follows(OPENED, Commands([]), Unfinished([]))
  {
  }

  lemma {:induction false} NormalizedHasNoCr(bytes: seq<Byte>)
    ensures forall k :: 0 <= k < |Normalized(bytes)| ==> Normalized(bytes)[k] != 0x0D
    decreases |bytes|
  {
    if bytes == [] {
    } else {
      NormalizedHasNoCr(bytes[..|bytes| - 1]);
    }
  }

  /** The commands handed over are those the byte stream stands for, with every CR, LF or CRLF taken as one line feed; and
      the line shown is the draft of what was typed since. */
  lemma CommandsAreThoseTyped(bytes: seq<Byte>)
    ensures var s, stream := Typed(bytes), Normalized(bytes);
      && s.commands == Commands(stream)
      && s.line.text == Edited(Keys(Unfinished(stream))).text && s.screen == s.line.text
      && s.line.overflow == Edited(Keys(Unfinished(stream))).tooLong
  {
    hide Typed, Normalized, Commands, Unfinished, Edited, Keys, Scanned, AllPrintable;
    LineEndingsDoNotMatter(bytes);
    NormalizedHasNoCr(bytes);
    TypedFollows(Normalized(bytes));
    KeysAreScanned(Unfinished(Normalized(bytes)));
    ScreenShowsTheLine(bytes);
  }

  // ----- Plain text

  predicate IsText(text: seq<Byte>) {
    forall k :: 0 <= k < |text| ==> 0x20 <= text[k] < 0x7F
  }

  lemma {:induction false} TextIsEdited(text: seq<Byte>)
    requires IsText(text)
    ensures Edited(text) == if |text| <= 255 then Draft(text, false) else Draft(text[..255], true)
    decreases |text|
  {
    if text == [] {
    } else {
      TextIsEdited(text[..|text| - 1]);
    }
  }

  lemma {:induction false} TextIsKeys(text: seq<Byte>)
    requires IsText(text)
    ensures Keys(text) == text
    decreases |text|
  {
    if text == [] {
    } else {
      TextIsKeys(text[1..]);
    }
  }

  lemma {:induction false} TextUnfinished(bytes: seq<Byte>, text: seq<Byte>)
    requires IsText(text)
    ensures Commands(bytes + text) == Commands(bytes) && Unfinished(bytes + text) == Unfinished(bytes) + text
    decreases |text|
  {
    hide Commands, Unfinished;
    if text == [] {
      assert bytes + text == bytes && Unfinished(bytes) + text == Unfinished(bytes);
    } else {
      var front, b := text[..|text| - 1], text[|text| - 1];
      TextUnfinished(bytes, front);
      CommandsGrow(bytes + front, b);
      assert (bytes + front) + [b] == bytes + text;
      assert (Unfinished(bytes) + front) + [b] == Unfinished(bytes) + text;
    }
  }

  lemma {:induction false} TextIsNormal(bytes: seq<Byte>, text: seq<Byte>)
    requires IsText(text)
    ensures Normalized(bytes + text) == Normalized(bytes) + text
    decreases |text|
  {
    if text == [] {
      assert bytes + text == bytes && Normalized(bytes) + text == Normalized(bytes);
    } else {
      var front, b := text[..|text| - 1], text[|text| - 1];
      TextIsNormal(bytes, front);
      assert (bytes + text)[..|bytes + text| - 1] == bytes + front;
      assert (Normalized(bytes) + front) + [b] == Normalized(bytes) + text;
    }
  }

  lemma CrIsNormal(bytes: seq<Byte>)
    ensures Normalized(bytes + [0x0D]) == Normalized(bytes) + [0x0A]
  {
    assert (bytes + [0x0D])[..|bytes|] == bytes;
  }

  /** A text of 1 to 255 characters, typed on an empty line and ended by a carriage return, is handed over as it is, and
      a longer one as too long. */
  lemma TextIsHandedOver(bytes: seq<Byte>, text: seq<Byte>)
    requires IsText(text) && text != [] && Unfinished(Normalized(bytes)) == []
    ensures Typed(bytes + text + [0x0D]).commands ==
      Typed(bytes).commands + [if |text| <= 255 then Run(text) else LineTooLong]
  {
    hide Typed, Normalized, Commands, Unfinished, Edited, Keys;
    var stream := Normalized(bytes);
    CommandsAreThoseTyped(bytes);
    CommandsAreThoseTyped(bytes + text + [0x0D]);
    TextIsNormal(bytes, text);
    CrIsNormal(bytes + text);
    TextUnfinished(stream, text);
    CommandsGrow(stream + text, 0x0A);
    assert [] + text == text;
    TextIsKeys(text);
    TextIsEdited(text);
  }

  /** A character taken back by BACKSPACE or DELETE might as well not have been typed, if there was room for it; and after
      0x15 nothing on the line was. */
  lemma KeysUndo(keys: seq<Byte>, character: Byte, more: seq<Byte>)
    requires 0x20 <= character < 0x7F
    ensures !Edited(keys).tooLong && |Edited(keys).text| < 255 ==>
      Edited(keys + [character] + [0x08]) == Edited(keys) && Edited(keys + [character] + [0x7F]) == Edited(keys)
    ensures Edited(keys + [0x15]) == Edited([])
  {
    EditedGrows(keys, character);
    EditedGrows(keys + [character], 0x08);
    EditedGrows(keys + [character], 0x7F);
    EditedGrows(keys, 0x15);
  }
}
